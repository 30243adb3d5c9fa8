/** Pruning: the stateful closure of MakePruner (prune.go) and what it means. */
module Prune {
  import opened Basics
  import opened DebVersions
  import opened ReleaseIndex

  datatype PruneRule = PruneRule(
    pattern: string,
    limitVersions: bool,
    retainVersions: nat,
    limitRevisions: bool,
    retainRevisions: nat)

  /** The parsed rules, with regular expression matching left abstract. */
  datatype RuleSet = RuleSet(rules: seq<PruneRule>, matches: (string, string) -> bool) {
    /** The first rule from `k` on whose pattern matches `name`. */
    function PickFrom(name: string, k: nat): Option<PruneRule>
      requires k <= |rules|
      decreases |rules| - k
    {
      if k == |rules| then None
      else if matches(rules[k].pattern, name) then Some(rules[k])
      else PickFrom(name, k + 1)
    }

    function Pick(name: string): Option<PruneRule> {
      PickFrom(name, 0)
    }

    lemma {:induction false} PicksFrom(name: string, k: nat)
      requires k <= |rules|
      ensures PickFrom(name, k).None? <==> forall j :: k <= j < |rules| ==> !matches(rules[j].pattern, name)
      ensures PickFrom(name, k).Some? ==>
                exists j :: k <= j < |rules| && matches(rules[j].pattern, name) && PickFrom(name, k).value == rules[j] &&
                  forall i :: k <= i < j ==> !matches(rules[i].pattern, name)
      decreases |rules| - k
    {
      if k < |rules| && !matches(rules[k].pattern, name) {
        PicksFrom(name, k + 1);
      }
    }

    /** The first rule whose pattern matches is the one picked, and only a match is picked. */
    lemma PicksFirst(name: string)
      ensures Pick(name).None? <==> forall j :: 0 <= j < |rules| ==> !matches(rules[j].pattern, name)
      ensures Pick(name).Some? ==>
                exists j :: 0 <= j < |rules| && matches(rules[j].pattern, name) && Pick(name).value == rules[j] &&
                  forall i :: 0 <= i < j ==> !matches(rules[i].pattern, name)
    {
      PicksFrom(name, 0);
    }
  }

  // ----------------------------------------------- the closure's state machine

  /** The captured variables of the closure. */
  datatype PrunerState = PrunerState(
    pkg: string,
    epoch: int,
    version: string,
    versionCnt: int,
    revision: string,
    revisionCnt: int,
    rule: Option<PruneRule>)
  {
    predicate SamePackage(e: Entry) {
      e.Name() == pkg
    }

    predicate SameVersion(e: Entry) {
      SamePackage(e) && e.Version().version == version && e.Version().epoch == epoch
    }

    predicate Same(e: Entry) {
      SameVersion(e) && e.Version().revision == revision
    }

    /** The captured variables after the closure has seen `e`. */
    function Advance(rs: RuleSet, e: Entry): PrunerState {
      var v := e.Version();
      if !SamePackage(e) then
        PrunerState(e.Name(), v.epoch, v.version, 1, v.revision, 1, if rs.rules == [] then rule else rs.Pick(e.Name()))
      else if !SameVersion(e) then
        this.(versionCnt := versionCnt + 1, version := v.version, epoch := v.epoch, revision := v.revision, revisionCnt := 1)
      else if !Same(e) then
        this.(revisionCnt := revisionCnt + 1, revision := v.revision)
      else this
    }

    predicate OverLimit() {
      rule.Some? &&
      ((rule.value.limitVersions && versionCnt > rule.value.retainVersions + 1) ||
       (rule.value.limitRevisions && revisionCnt > rule.value.retainRevisions + 1))
    }

    /** The closure's answer: is `e` to be removed? */
    predicate Prunes(rs: RuleSet, e: Entry) {
      SamePackage(e) && !Same(e) && Advance(rs, e).OverLimit()
    }

    /** The closure dereferences a nil rule. */
    predicate Panics(e: Entry) {
      SamePackage(e) && !Same(e) && rule.None?
    }
  }

  const START := PrunerState("", 0, "", 0, "", 0, None)

  /** The object MakePruner returns. */
  class Pruner {
    const rs: RuleSet
    var currPkg: string
    var currEpoch: int
    var currVersion: string
    var currVersionCnt: int
    var currRevision: string
    var currRevisionCnt: int
    var currRule: Option<PruneRule>

    function State(): PrunerState
      reads this
    {
      PrunerState(currPkg, currEpoch, currVersion, currVersionCnt, currRevision, currRevisionCnt, currRule)
    }

    constructor (rules: RuleSet)
      ensures rs == rules && State() == START
    {
      rs := rules;
      currPkg, currEpoch, currVersion, currVersionCnt := "", 0, "", 0;
      currRevision, currRevisionCnt, currRule := "", 0, None;
    }

    method Prune(entry: Entry) returns (prune: bool)
      requires !State().Panics(entry)
      modifies this
      ensures State() == old(State()).Advance(rs, entry)
      ensures prune == old(State()).Prunes(rs, entry)
    {
      var version := entry.sourceItem.version;
      if entry.sourceItem.name != currPkg {
        currPkg := entry.sourceItem.name;
        currEpoch, currVersion, currVersionCnt := version.epoch, version.version, 1;
        currRevision, currRevisionCnt := version.revision, 1;
        FindRule();
        return false;
      }
      if version.version != currVersion || version.epoch != currEpoch {
        currVersionCnt := currVersionCnt + 1;
        currVersion, currEpoch := version.version, version.epoch;
        currRevision, currRevisionCnt := version.revision, 1;
      } else if version.revision != currRevision {
        currRevisionCnt := currRevisionCnt + 1;
        currRevision := version.revision;
      } else {
        return false;
      }
      var rule := currRule.value;
      if rule.limitVersions {
        if currVersionCnt > rule.retainVersions + 1 {
          return true;
        }
      }
      if rule.limitRevisions {
        if currRevisionCnt > rule.retainRevisions + 1 {
          return true;
        }
      }
      return false;
    }

    /** First match wins; without any rule the old choice stays. */
    method FindRule()
      modifies this`currRule
      ensures currRule == if rs.rules == [] then old(currRule) else rs.Pick(currPkg)
    {
      var k := 0;
      while k < |rs.rules|
        invariant k <= |rs.rules|
        invariant rs.Pick(currPkg) == rs.PickFrom(currPkg, k)
        invariant currRule == if k == 0 then old(currRule) else None
      {
        if rs.matches(rs.rules[k].pattern, currPkg) {
          currRule := Some(rs.rules[k]);
          return;
        } else {
          currRule := None;
        }
        k := k + 1;
      }
    }
  }

  // ------------------------------------------------- a whole pass over an index

  /** The entries the closure keeps, shown one after the other in state `st`. */
  function KeptFrom(rs: RuleSet, st: PrunerState, es: Index): Index
    decreases |es|
  {
    if es == [] then []
    else
      var rest := KeptFrom(rs, st.Advance(rs, es[0]), es[1..]);
      if st.Prunes(rs, es[0]) then rest else [es[0]] + rest
  }

  function DroppedFrom(rs: RuleSet, st: PrunerState, es: Index): Index
    decreases |es|
  {
    if es == [] then []
    else
      var rest := DroppedFrom(rs, st.Advance(rs, es[0]), es[1..]);
      if st.Prunes(rs, es[0]) then [es[0]] + rest else rest
  }

  predicate PanicsFrom(rs: RuleSet, st: PrunerState, es: Index)
    decreases |es|
  {
    es != [] && (st.Panics(es[0]) || PanicsFrom(rs, st.Advance(rs, es[0]), es[1..]))
  }

  function Kept(rs: RuleSet, es: Index): Index {
    KeptFrom(rs, START, es)
  }

  function Dropped(rs: RuleSet, es: Index): Index {
    DroppedFrom(rs, START, es)
  }

  // -------------------------------------------------------------- idempotence

  /** `lag` is `st` on an entry that was dropped: every later entry of the package
    * (or of the version) that is not a repeat of the last one will be dropped too. */
  predicate Behind(st: PrunerState, lag: PrunerState) {
    st.pkg == lag.pkg && st.rule == lag.rule && st.rule.Some? &&
    (|| (st.rule.value.limitVersions && st.versionCnt > st.rule.value.retainVersions + 1)
     || (st.rule.value.limitRevisions && st.revisionCnt > st.rule.value.retainRevisions + 1 &&
         st.epoch == lag.epoch && st.version == lag.version && st.versionCnt == lag.versionCnt))
  }

  /** No entry has the name and the raw version of the one before it. */
  predicate NoRepeat(es: Index) {
    forall i :: 0 < i < |es| ==>
      !(es[i - 1].Name() == es[i].Name() && es[i - 1].Version() == es[i].Version())
  }

  /** `st` has just seen `e`. */
  predicate LastSeen(st: PrunerState, e: Entry) {
    st.pkg == e.Name() && st.epoch == e.Version().epoch && st.version == e.Version().version &&
    st.revision == e.Version().revision
  }

  predicate Fresh(st: PrunerState, es: Index) {
    es != [] ==> !st.Same(es[0])
  }

  lemma {:induction false} PruneAgain(rs: RuleSet, st: PrunerState, lag: PrunerState, es: Index)
    requires NoRepeat(es)
    requires st == lag || (Behind(st, lag) && Fresh(st, es))
    ensures KeptFrom(rs, lag, KeptFrom(rs, st, es)) == KeptFrom(rs, st, es)
    decreases |es|
  {
    if es != [] {
      var e, next := es[0], st.Advance(rs, es[0]);
      assert LastSeen(next, e);
      assert Fresh(next, es[1..]);
      if st.Prunes(rs, e) {
        PruneAgain(rs, next, lag, es[1..]);
      } else {
        assert lag.Advance(rs, e) == next;
        assert !lag.Prunes(rs, e);
        PruneAgain(rs, next, next, es[1..]);
      }
    }
  }

  /** Theorem: pruning twice is pruning once. */
  lemma PruneIdempotent(rs: RuleSet, es: Index)
    requires NoRepeat(es)
    ensures Kept(rs, Kept(rs, es)) == Kept(rs, es)
  {
    PruneAgain(rs, START, START, es);
  }

  lemma SortedHasNoRepeat(es: Index)
    requires Sorted(es)
    ensures NoRepeat(es)
  {
    forall i | 0 < i < |es|
      ensures !(es[i - 1].Name() == es[i].Name() && es[i - 1].Version() == es[i].Version())
    {
      assert EntryOrder(es[i - 1], es[i]) < 0;
      VersionMirrorOf(es[i]);
    }
  }

  lemma VersionMirrorOf(e: Entry)
    ensures Compare(e.Version(), e.Version()) == 0
  {
    EntryMirror(e, e);
  }
}
