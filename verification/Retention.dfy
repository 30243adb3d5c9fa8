/** What pruning a sorted index keeps, said without counters. */
module Retention {
  import opened Basics
  import opened DebVersions
  import opened VersionOrder
  import opened ReleaseIndex
  import opened Prune

  /** The comparison takes "1.0" and "1.00" for one version, the pruner for two:
    * within a package, upstream versions that compare equal are spelled alike. */
  predicate SpelledConsistently(es: Index) {
    forall e <- es, f <- es ::
      e.Name() == f.Name() && e.Version().epoch == f.Version().epoch &&
      CompareComponent(e.Version().version, f.Version().version) == 0 ==>
        e.Version().version == f.Version().version
  }

  /** Entries of a named package whose upstream versions are spelled alike stand together. */
  predicate Grouped(es: Index) {
    forall i, k :: 0 <= i < k < |es| && SameUpstream(es[i], es[k]) && es[k].Name() != "" ==> Between(es, i, k)
  }

  predicate Between(es: Index, i: nat, k: nat)
    requires i < k < |es|
  {
    forall j :: i < j < k ==> SameUpstream(es[i], es[j])
  }

  predicate SameUpstream(e: Entry, f: Entry) {
    e.Name() == f.Name() && e.Version().epoch == f.Version().epoch && e.Version().version == f.Version().version
  }

  /** The versions of the package of `e` that are at least as new as `e`. */
  function VersionsAtLeast(es: Index, e: Entry): set<(int, string)> {
    set f | f in es && f.Name() == e.Name() && Compare(f.Version(), e.Version()) >= 0 :: (f.Version().epoch, f.Version().version)
  }

  /** The revisions of the version of `e` that are at least as new as `e`. */
  function RevisionsAtLeast(es: Index, e: Entry): set<string> {
    set f | f in es && SameUpstream(f, e) && Compare(f.Version(), e.Version()) >= 0 :: f.Version().revision
  }

  /** The rule in force for a package. The empty name is where the closure starts, so
    * for it no rule is looked up. */
  function RuleFor(rs: RuleSet, name: string): Option<PruneRule> {
    if name == "" then None else rs.Pick(name)
  }

  /** Among the newest V+1 versions and the newest R+1 revisions of its version,
    * for the rule in force for the package. */
  predicate Retained(rs: RuleSet, es: Index, e: Entry) {
    match RuleFor(rs, e.Name())
    case None => true
    case Some(rule) =>
      && (rule.limitVersions ==> |VersionsAtLeast(es, e)| <= rule.retainVersions + 1)
      && (rule.limitRevisions ==> |RevisionsAtLeast(es, e)| <= rule.retainRevisions + 1)
  }

  // ---------------------------------------------------- the state along a pass

  function After(rs: RuleSet, st: PrunerState, es: Index): PrunerState
    decreases |es|
  {
    if es == [] then st else After(rs, st.Advance(rs, es[0]), es[1..])
  }

  lemma {:induction false} AfterOneMore(rs: RuleSet, st: PrunerState, es: Index, i: nat)
    requires i < |es|
    ensures After(rs, st, es[..i + 1]) == After(rs, st, es[..i]).Advance(rs, es[i])
    decreases i
  {
    if i > 0 {
      AfterOneMore(rs, st.Advance(rs, es[0]), es[1..], i - 1);
      assert es[..i + 1][1..] == es[1..][..i];
      assert es[..i][1..] == es[1..][..i - 1];
    } else {
      assert es[..1] == [es[0]];
      assert After(rs, st, [es[0]]) == After(rs, st.Advance(rs, es[0]), [es[0]][1..]);
    }
  }

  /** An entry is kept iff the closure kept it at some place. */
  lemma {:induction false} KeptAt(rs: RuleSet, st: PrunerState, es: Index, e: Entry)
    ensures e in KeptFrom(rs, st, es) <==>
            exists i :: 0 <= i < |es| && es[i] == e && !After(rs, st, es[..i]).Prunes(rs, e)
    decreases |es|
  {
    if es != [] {
      var next := st.Advance(rs, es[0]);
      KeptAt(rs, next, es[1..], e);
      assert es[..0] == [];
      forall i | 0 < i < |es| ensures After(rs, st, es[..i]) == After(rs, next, es[1..][..i - 1]) {
        assert es[..i][1..] == es[1..][..i - 1];
      }
      if e in KeptFrom(rs, next, es[1..]) {
        var i :| 0 <= i < |es[1..]| && es[1..][i] == e && !After(rs, next, es[1..][..i]).Prunes(rs, e);
        assert es[i + 1] == e;
      }
      if i :| 0 < i < |es| && es[i] == e && !After(rs, st, es[..i]).Prunes(rs, e) {
        assert es[1..][i - 1] == e;
      }
    }
  }

  // ------------------------------------------------------ counters are ranks

  function VersionsUpTo(es: Index, i: nat): set<(int, string)>
    requires i < |es|
  {
    set j | 0 <= j <= i && es[j].Name() == es[i].Name() :: (es[j].Version().epoch, es[j].Version().version)
  }

  function RevisionsUpTo(es: Index, i: nat): set<string>
    requires i < |es|
  {
    set j | 0 <= j <= i && SameUpstream(es[j], es[i]) :: es[j].Version().revision
  }

  lemma UpToIsAtLeast(es: Index, i: nat)
    requires Sorted(es) && i < |es|
    ensures VersionsUpTo(es, i) == VersionsAtLeast(es, es[i])
    ensures RevisionsUpTo(es, i) == RevisionsAtLeast(es, es[i])
  {
    forall j | 0 <= j < |es| && es[j].Name() == es[i].Name() ensures Compare(es[j].Version(), es[i].Version()) >= 0 <==> j <= i {
      EntryMirror(es[j], es[i]);
      VersionMirror(es[j].Version(), es[i].Version());
      assert j < i ==> EntryOrder(es[j], es[i]) < 0;
      assert i < j ==> EntryOrder(es[i], es[j]) < 0;
    }
    forall x ensures x in VersionsUpTo(es, i) <==> x in VersionsAtLeast(es, es[i]) {
      if x in VersionsAtLeast(es, es[i]) {
        var f :| f in es && f.Name() == es[i].Name() && Compare(f.Version(), es[i].Version()) >= 0 && x == (f.Version().epoch, f.Version().version);
        var j :| 0 <= j < |es| && es[j] == f;
      }
    }
    forall x ensures x in RevisionsUpTo(es, i) <==> x in RevisionsAtLeast(es, es[i]) {
      if x in RevisionsAtLeast(es, es[i]) {
        var f :| f in es && SameUpstream(f, es[i]) && Compare(f.Version(), es[i].Version()) >= 0 && x == f.Version().revision;
        var j :| 0 <= j < |es| && es[j] == f;
      }
    }
  }

  /** In a sorted index the entries of a package stand together. */
  lemma NewPackage(es: Index, j: nat, i: nat)
    requires Sorted(es) && j <= i && i + 1 < |es|
    requires es[i].Name() != es[i + 1].Name()
    ensures es[j].Name() != es[i + 1].Name()
  {
    if j < i {
      assert EntryOrder(es[j], es[i]) < 0 && EntryOrder(es[i], es[i + 1]) < 0;
      BytesTransitive(es[j].Name(), es[i].Name(), es[i + 1].Name());
    }
  }

  /** ... and in a grouped one those of a version. */
  lemma NewVersion(es: Index, j: nat, i: nat)
    requires Grouped(es) && j <= i && i + 1 < |es| && es[i + 1].Name() != "" && !SameUpstream(es[i], es[i + 1])
    ensures !SameUpstream(es[j], es[i + 1])
  {
    assert SameUpstream(es[j], es[i + 1]) ==> Between(es, j, i + 1);
  }

  lemma SpelledIsGrouped(es: Index)
    requires Sorted(es) && SpelledConsistently(es)
    ensures Grouped(es)
  {
    forall i, j, k | 0 <= i < j < k < |es| && SameUpstream(es[i], es[k]) ensures SameUpstream(es[i], es[j]) {
      assert EntryOrder(es[i], es[j]) < 0 && EntryOrder(es[j], es[k]) < 0;
      assert es[i] in es && es[j] in es;
      BytesMirror(es[i].Name(), es[j].Name());
      ComponentMirror(es[i].Version().version, es[j].Version().version);
      ComponentMirror(es[j].Version().version, es[k].Version().version);
    }
  }

  lemma NewRevision(es: Index, j: nat, i: nat)
    requires Sorted(es) && j < i < |es| && SameUpstream(es[j], es[i])
    ensures es[j].Version().revision != es[i].Version().revision
  {
    VersionMirror(es[j].Version(), es[i].Version());
    assert EntryOrder(es[j], es[i]) < 0;
  }

  /** After entry `i` the closure remembers it, and the rule of its package. */
  lemma {:induction false} LastSeenAt(rs: RuleSet, es: Index, i: nat)
    requires Sorted(es) && i < |es|
    ensures var st := After(rs, START, es[..i + 1]);
            LastSeen(st, es[i]) && st.rule == RuleFor(rs, es[i].Name())
  {
    AfterOneMore(rs, START, es, i);
    if i > 0 {
      LastSeenAt(rs, es, i - 1);
      assert EntryOrder(es[i - 1], es[i]) < 0;
    } else {
      assert es[..0] == [];
    }
  }

  /** After entry `i` the two counters are the sizes of the two sets of rivals. */
  lemma {:induction false} StateAt(rs: RuleSet, es: Index, i: nat)
    requires Sorted(es) && Grouped(es) && i < |es| && es[i].Name() != ""
    ensures var st := After(rs, START, es[..i + 1]);
            && st.versionCnt == |VersionsUpTo(es, i)|
            && st.revisionCnt == |RevisionsUpTo(es, i)|
  {
    hide VersionsUpTo, RevisionsUpTo, Sorted, Grouped;
    AfterOneMore(rs, START, es, i);
    if i == 0 {
      assert es[..0] == [];
      assert es[0] in es;
      FirstOfAll(es);
    } else {
      LastSeenAt(rs, es, i - 1);
      if es[i - 1].Name() == es[i].Name() {
        StateAt(rs, es, i - 1);
      }
      CountersStep(es, i);
    }
  }

  lemma CountersStep(es: Index, i: nat)
    requires Sorted(es) && Grouped(es) && 0 < i < |es| && es[i].Name() != ""
    ensures SameUpstream(es[i - 1], es[i]) ==> es[i - 1].Version().revision != es[i].Version().revision
    ensures |VersionsUpTo(es, i)| ==
            if es[i].Name() != es[i - 1].Name() then 1
            else if SameUpstream(es[i - 1], es[i]) then |VersionsUpTo(es, i - 1)|
            else |VersionsUpTo(es, i - 1)| + 1
    ensures |RevisionsUpTo(es, i)| ==
            if SameUpstream(es[i - 1], es[i]) then |RevisionsUpTo(es, i - 1)| + 1 else 1
  {
    hide VersionsUpTo, RevisionsUpTo, Sorted, Grouped;
    if es[i].Name() != es[i - 1].Name() {
      PackageStep(es, i);
    } else if SameUpstream(es[i - 1], es[i]) {
      RevisionStep(es, i);
      NewRevision(es, i - 1, i);
    } else {
      VersionStep(es, i);
    }
  }

  lemma PackageStep(es: Index, i: nat)
    requires Sorted(es) && 0 < i < |es| && es[i].Name() != es[i - 1].Name()
    ensures |VersionsUpTo(es, i)| == 1 && |RevisionsUpTo(es, i)| == 1
  {
    forall j | 0 <= j < i ensures es[j].Name() != es[i].Name() {
      NewPackage(es, j, i - 1);
    }
    assert VersionsUpTo(es, i) == {(es[i].Version().epoch, es[i].Version().version)};
    assert RevisionsUpTo(es, i) == {es[i].Version().revision};
  }

  lemma RevisionStep(es: Index, i: nat)
    requires Sorted(es) && 0 < i < |es| && SameUpstream(es[i - 1], es[i])
    ensures VersionsUpTo(es, i) == VersionsUpTo(es, i - 1)
    ensures |RevisionsUpTo(es, i)| == |RevisionsUpTo(es, i - 1)| + 1
  {
    var r := es[i].Version().revision;
    forall j | 0 <= j < i && SameUpstream(es[j], es[i]) ensures es[j].Version().revision != r {
      NewRevision(es, j, i);
    }
    assert RevisionsUpTo(es, i) == RevisionsUpTo(es, i - 1) + {r};
    assert r !in RevisionsUpTo(es, i - 1);
  }

  lemma VersionStep(es: Index, i: nat)
    requires Sorted(es) && Grouped(es) && 0 < i < |es| && es[i].Name() != ""
    requires es[i].Name() == es[i - 1].Name() && !SameUpstream(es[i - 1], es[i])
    ensures |VersionsUpTo(es, i)| == |VersionsUpTo(es, i - 1)| + 1
    ensures |RevisionsUpTo(es, i)| == 1
  {
    var v := (es[i].Version().epoch, es[i].Version().version);
    forall j | 0 <= j < i ensures !SameUpstream(es[j], es[i]) {
      NewVersion(es, j, i - 1);
    }
    assert VersionsUpTo(es, i) == VersionsUpTo(es, i - 1) + {v};
    assert v !in VersionsUpTo(es, i - 1);
    assert RevisionsUpTo(es, i) == {es[i].Version().revision};
  }

  // ----------------------------------------------------------- the theorems

  lemma FirstOfAll(es: Index)
    requires es != []
    ensures |VersionsUpTo(es, 0)| == 1 && |RevisionsUpTo(es, 0)| == 1
  {
    assert VersionsUpTo(es, 0) == {(es[0].Version().epoch, es[0].Version().version)};
    assert RevisionsUpTo(es, 0) == {es[0].Version().revision};
  }

  /** The state in which the closure is shown a later entry. */
  lemma StateBefore(rs: RuleSet, es: Index, i: nat)
    requires Sorted(es) && 0 < i < |es|
    ensures var st := After(rs, START, es[..i]);
            && !st.Same(es[i])
            && (st.SamePackage(es[i]) <==> es[i - 1].Name() == es[i].Name())
            && (st.SamePackage(es[i]) ==> st.rule == RuleFor(rs, es[i].Name()))
  {
    LastSeenAt(rs, es, i - 1);
    VersionMirror(es[i - 1].Version(), es[i].Version());
    assert EntryOrder(es[i - 1], es[i]) < 0;
  }

  /** The closure's answer at place `i`. */
  lemma PrunesAt(rs: RuleSet, es: Index, i: nat)
    requires Sorted(es) && Grouped(es) && i < |es|
    ensures After(rs, START, es[..i]).Prunes(rs, es[i]) <==> !Retained(rs, es, es[i])
  {
    hide VersionsUpTo, RevisionsUpTo, VersionsAtLeast, RevisionsAtLeast, Sorted, Grouped;
    AfterOneMore(rs, START, es, i);
    LastSeenAt(rs, es, i);
    if es[i].Name() != "" {
      StateAt(rs, es, i);
      UpToIsAtLeast(es, i);
    }
    if i == 0 {
      FirstOfAll(es);
      assert es[..0] == [];
    } else {
      StateBefore(rs, es, i);
      if es[i - 1].Name() != es[i].Name() {
        PackageStep(es, i);
      }
    }
  }

  lemma KeptIffNotPruned(rs: RuleSet, es: Index, i: nat)
    requires Sorted(es) && i < |es|
    ensures es[i] in Kept(rs, es) <==> !After(rs, START, es[..i]).Prunes(rs, es[i])
  {
    KeptAt(rs, START, es, es[i]);
    forall j | 0 <= j < |es| && es[j] == es[i] ensures j == i {
      EntryMirror(es[i], es[i]);
      SortedHasNoTwins(es, i, j);
    }
  }

  /** Theorem: on a sorted, grouped index an entry survives exactly when it ranks
    * within the limits of the first matching rule. */
  lemma KeptIffRetained(rs: RuleSet, es: Index, e: Entry)
    requires Sorted(es) && Grouped(es) && e in es
    ensures e in Kept(rs, es) <==> Retained(rs, es, e)
  {
    var i :| 0 <= i < |es| && es[i] == e;
    PrunesAt(rs, es, i);
    KeptIffNotPruned(rs, es, i);
  }

  /** A spelling comes back at or before `i`, in the package of entry `i`. */
  predicate Returned(es: Index, i: nat)
    requires i < |es|
  {
    exists a, c :: 0 <= a < c <= i && SameUpstream(es[a], es[c]) && es[c].Name() == es[i].Name() && !Between(es, a, c)
  }

  lemma ReturnedBefore(es: Index, a: nat, c: nat)
    requires a < c < |es| && SameUpstream(es[a], es[c]) && SameUpstream(es[c - 1], es[c]) && !Between(es, a, c)
    ensures a < c - 1 && SameUpstream(es[a], es[c - 1]) && !Between(es, a, c - 1)
  {
    var j :| a < j < c && !SameUpstream(es[a], es[j]);
    assert j < c - 1;
  }

  /** A spelling that has come back had done so at the entry before, or does so here. */
  lemma ReturnedStep(es: Index, i: nat)
    requires Sorted(es) && 0 < i < |es| && Returned(es, i)
    ensures es[i - 1].Name() == es[i].Name()
    ensures Returned(es, i - 1) || (!SameUpstream(es[i - 1], es[i]) && exists a :: 0 <= a < i && SameUpstream(es[a], es[i]))
  {
    hide Sorted, Between;
    var a, c :| 0 <= a < c <= i && SameUpstream(es[a], es[c]) && es[c].Name() == es[i].Name() && !Between(es, a, c);
    if es[i - 1].Name() != es[i].Name() {
      NewPackage(es, a, i - 1);
      assert false;
    }
    if c == i && SameUpstream(es[i - 1], es[i]) {
      ReturnedBefore(es, a, c);
      assert Returned(es, i - 1);
    } else if c < i {
      assert Returned(es, i - 1);
    }
  }

  lemma VersionsGrow(es: Index, i: nat)
    requires 0 < i < |es| && es[i - 1].Name() == es[i].Name()
    ensures |VersionsUpTo(es, i)| <= |VersionsUpTo(es, i - 1)| + 1
    ensures (exists a :: 0 <= a < i && SameUpstream(es[a], es[i])) ==> |VersionsUpTo(es, i)| == |VersionsUpTo(es, i - 1)|
  {
    var v := (es[i].Version().epoch, es[i].Version().version);
    assert VersionsUpTo(es, i) == VersionsUpTo(es, i - 1) + {v};
    if a :| 0 <= a < i && SameUpstream(es[a], es[i]) {
      assert v == (es[a].Version().epoch, es[a].Version().version) && es[a].Name() == es[i - 1].Name();
      assert VersionsUpTo(es, i) == VersionsUpTo(es, i - 1);
    }
  }

  /** The version counter never falls behind the rank, and runs ahead of it once a
    * spelling comes back. */
  lemma {:induction false} CounterRunsAhead(rs: RuleSet, es: Index, i: nat)
    requires Sorted(es) && i < |es| && es[i].Name() != ""
    ensures var cnt := After(rs, START, es[..i + 1]).versionCnt;
            cnt >= |VersionsUpTo(es, i)| && (Returned(es, i) ==> cnt > |VersionsUpTo(es, i)|)
  {
    hide VersionsUpTo, Returned, Sorted;
    AfterOneMore(rs, START, es, i);
    if i == 0 {
      FirstOfAll(es);
      NoneReturned(es);
      assert es[..0] == [];
      assert es[0] in es;
    } else {
      LastSeenAt(rs, es, i - 1);
      if Returned(es, i) {
        ReturnedStep(es, i);
      }
      if es[i - 1].Name() == es[i].Name() {
        CounterRunsAhead(rs, es, i - 1);
        VersionsGrow(es, i);
      } else {
        PackageStep(es, i);
      }
    }
  }

  lemma NoneReturned(es: Index)
    requires es != []
    ensures !Returned(es, 0)
  {
  }

  /** Rules that only keep `n` old versions of every package. */
  function VersionLimit(n: nat): RuleSet {
    RuleSet([PruneRule(".*", true, n, false, 0)], (pattern, name) => true)
  }

  /** An entry whose spelling comes back is pruned by a limit that should keep it. */
  lemma ReturnedIsPruned(es: Index, a: nat, c: nat)
    requires Sorted(es) && a < c < |es| && es[c].Name() != "" && SameUpstream(es[a], es[c]) && !Between(es, a, c)
    ensures exists n: nat :: Retained(VersionLimit(n), es, es[c]) && es[c] !in Kept(VersionLimit(n), es)
  {
    hide VersionsUpTo, VersionsAtLeast, RevisionsUpTo, RevisionsAtLeast, Sorted, Between;
    UpToIsAtLeast(es, c);
    assert Returned(es, c);
    ReturnedStep(es, c);
    OwnVersion(es, c);
    var n: nat := |VersionsUpTo(es, c)| - 1;
    var rs := VersionLimit(n);
    assert rs.Pick(es[c].Name()) == Some(rs.rules[0]);
    CounterRunsAhead(rs, es, c);
    AfterOneMore(rs, START, es, c);
    StateBefore(rs, es, c);
    LastSeenAt(rs, es, c);
    KeptIffNotPruned(rs, es, c);
    assert Retained(rs, es, es[c]);
  }

  lemma OwnVersion(es: Index, i: nat)
    requires i < |es|
    ensures |VersionsUpTo(es, i)| > 0
  {
    assert (es[i].Version().epoch, es[i].Version().version) in VersionsUpTo(es, i);
  }

  /** Theorem: the counters are ranks, whatever the rules, iff the index is grouped. */
  lemma RanksIffGrouped(es: Index)
    requires Sorted(es)
    ensures (forall rs, e :: e in es ==> (e in Kept(rs, es) <==> Retained(rs, es, e))) <==> Grouped(es)
  {
    hide Retained, Kept, Between, Sorted;
    if Grouped(es) {
      forall rs, e | e in es ensures e in Kept(rs, es) <==> Retained(rs, es, e) {
        KeptIffRetained(rs, es, e);
      }
    } else {
      var a, c :| 0 <= a < c < |es| && SameUpstream(es[a], es[c]) && es[c].Name() != "" && !Between(es, a, c);
      ReturnedIsPruned(es, a, c);
    }
  }

  function Plain(version: string, revision: string): Entry {
    Entry(Item("p", DebVersion(0, version, revision), "source", "main", NoAsset, []), [], NoAsset)
  }

  lemma ZeroRuns()
    ensures CompareComponent(".0", ".00") == 0
  {
    assert SkipText(".0", ".00") == Level("0", "00");
    assert SkipZeros("0") == "" == SkipZeros("00");
  }

  lemma SpellingsAlike()
    ensures CompareComponent("1.0", "1.00") == 0 && CompareComponent("1.00", "1.0") == 0
  {
    ZeroRuns();
    assert SkipDigits("1.0", "1.00", 0) == (".0", ".00", 0);
    ComponentMirror("1.0", "1.00");
  }

  lemma SmallDigits()
    ensures CompareComponent("1", "2") < 0 && CompareComponent("2", "3") < 0 && CompareComponent("1", "3") < 0
  {
    assert SkipDigits("1", "2", 0) == ("", "", -1);
    assert SkipDigits("2", "3", 0) == ("", "", -1);
    assert SkipDigits("1", "3", 0) == ("", "", -2);
  }

  const ALTERNATING := [Plain("1.0", "3"), Plain("1.00", "2"), Plain("1.0", "1")]

  lemma AlternatingOrder()
    ensures EntryOrder(Plain("1.0", "3"), Plain("1.00", "2")) < 0
    ensures EntryOrder(Plain("1.00", "2"), Plain("1.0", "1")) < 0
    ensures EntryOrder(Plain("1.0", "3"), Plain("1.0", "1")) < 0
  {
    SpellingsAlike();
    SmallDigits();
    hide CompareComponent;
    ComponentMirror("1.0", "1.0");
  }

  /** An example: the index 1.0-3, 1.00-2, 1.0-1 is sorted but not grouped. */
  lemma SpellingsCanAlternate()
    ensures Sorted(ALTERNATING) && CleanIndex(ALTERNATING) && !Grouped(ALTERNATING)
  {
    hide EntryOrder;
    AlternatingOrder();
    var es := ALTERNATING;
    assert |es[0].Version().version| != |es[1].Version().version|;
    assert !SameUpstream(es[0], es[1]);
    assert SameUpstream(es[0], es[2]) && !Between(es, 0, 2);
  }

  /** The newest entry of every package is always kept. */
  lemma NewestIsKept(rs: RuleSet, es: Index, e: Entry)
    requires Sorted(es) && e in es
    requires forall f <- es :: f.Name() == e.Name() ==> Compare(e.Version(), f.Version()) >= 0
    ensures e in Kept(rs, es)
  {
    var i :| 0 <= i < |es| && es[i] == e;
    KeptIffNotPruned(rs, es, i);
    if i > 0 {
      StateBefore(rs, es, i);
      assert EntryOrder(es[i - 1], es[i]) < 0;
      VersionMirror(es[i - 1].Version(), es[i].Version());
    } else {
      assert es[..0] == [];
    }
  }

  lemma {:induction false} PanicsSomewhere(rs: RuleSet, st: PrunerState, es: Index)
    ensures PanicsFrom(rs, st, es) <==> exists i :: 0 <= i < |es| && After(rs, st, es[..i]).Panics(es[i])
    decreases |es|
  {
    if es != [] {
      var next := st.Advance(rs, es[0]);
      PanicsSomewhere(rs, next, es[1..]);
      assert es[..0] == [];
      forall i | 0 < i < |es| ensures After(rs, st, es[..i]) == After(rs, next, es[1..][..i - 1]) {
        assert es[..i][1..] == es[1..][..i - 1];
      }
      if PanicsFrom(rs, next, es[1..]) {
        var i :| 0 <= i < |es[1..]| && After(rs, next, es[1..][..i]).Panics(es[1..][i]);
        assert After(rs, st, es[..i + 1]).Panics(es[i + 1]);
      }
      if i :| 0 < i < |es| && After(rs, st, es[..i]).Panics(es[i]) {
        assert After(rs, next, es[1..][..i - 1]).Panics(es[1..][i - 1]);
      }
    }
  }

  /** No rule is in force where entry `i` needs one: it follows one of its package,
    * or has the name and not quite the version the closure starts with. */
  predicate Uncovered(rs: RuleSet, es: Index, i: int) {
    0 <= i < |es| && RuleFor(rs, es[i].Name()).None? &&
    if i > 0 then es[i - 1].Name() == es[i].Name()
    else es[0].Name() == "" && es[0].Version() != DebVersion(0, "", "")
  }

  /** Theorem: the pass dereferences a nil rule iff a package with more than one entry
    * has no matching rule or no name, or the first entry has no name but a version. */
  lemma PanicsIffUncovered(rs: RuleSet, es: Index)
    requires Sorted(es)
    ensures PanicsFrom(rs, START, es) <==> exists i :: Uncovered(rs, es, i)
  {
    PanicsSomewhere(rs, START, es);
    forall i | 0 <= i < |es| ensures After(rs, START, es[..i]).Panics(es[i]) <==> Uncovered(rs, es, i) {
      if i > 0 {
        StateBefore(rs, es, i);
      } else {
        assert es[..0] == [];
      }
    }
    if i :| Uncovered(rs, es, i) {
      assert After(rs, START, es[..i]).Panics(es[i]);
    }
  }
}
