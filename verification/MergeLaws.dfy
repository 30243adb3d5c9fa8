/** What merging keeps: order, entries, the log and the commit decision. */
module MergeLaws {
  import opened ReleaseIndex
  import opened Prune
  import opened Retention
  import opened Merge
  import opened Basics
  import opened DebVersions
  import VersionText

  // --------------------------------------------------------------------- order

  /** In a sorted index an equal-comparing entry can only stand at `Position`. */
  lemma PresentAtPosition(es: Index, e: Entry)
    requires Sorted(es) && CleanIndex(es) && CleanEntry(e)
    ensures var k := Position(es, e);
            && (Present(es, e) <==> k < |es| && EntryOrder(es[k], e) == 0)
            && (!Present(es, e) ==> forall j :: k <= j < |es| ==> EntryOrder(e, es[j]) < 0)
  {
    var k := Position(es, e);
    if k < |es| && EntryOrder(es[k], e) > 0 {
      EntryMirror(es[k], e);
      forall j | k <= j < |es| ensures EntryOrder(e, es[j]) < 0 && EntryOrder(es[j], e) != 0 {
        if k < j {
          assert EntryOrder(es[k], es[j]) < 0;
          assert es[k] in es && es[j] in es;
          EntryTransitive(e, es[k], es[j]);
        }
        EntryMirror(e, es[j]);
      }
    }
  }

  lemma InsertSorted(es: Index, e: Entry)
    requires Sorted(es) && CleanIndex(es) && CleanEntry(e)
    ensures Sorted(Insert(es, e)) && CleanIndex(Insert(es, e))
    ensures forall f :: f in Insert(es, e) <==> f in es || (f == e && !Present(es, e))
  {
    hide Sorted, EntryOrder, CleanEntry, Position, Present;
    PresentAtPosition(es, e);
    if !Present(es, e) {
      var k := Position(es, e);
      BeforePosition(es, e);
      assert es == es[..k] + es[k..];
      SpliceSorted(es, e, k);
      assert Insert(es, e) == es[..k] + [e] + es[k..];
    }
  }

  lemma BeforePosition(es: Index, e: Entry)
    ensures forall i :: 0 <= i < Position(es, e) ==> EntryOrder(es[i], e) < 0
  {
  }

  lemma SpliceSorted(es: Index, e: Entry, k: nat)
    requires Sorted(es) && k <= |es|
    requires forall i :: 0 <= i < k ==> EntryOrder(es[i], e) < 0
    requires forall i :: k <= i < |es| ==> EntryOrder(e, es[i]) < 0
    ensures Sorted(es[..k] + [e] + es[k..])
  {
  }

  lemma {:induction false} KeptInside(rs: RuleSet, st: PrunerState, es: Index)
    ensures forall f <- KeptFrom(rs, st, es) :: f in es
    decreases |es|
  {
    if es != [] {
      KeptInside(rs, st.Advance(rs, es[0]), es[1..]);
    }
  }

  lemma {:induction false} KeptSorted(rs: RuleSet, st: PrunerState, es: Index)
    requires Sorted(es)
    ensures Sorted(KeptFrom(rs, st, es))
    decreases |es|
  {
    if es != [] {
      KeptInside(rs, st.Advance(rs, es[0]), es[1..]);
      KeptSorted(rs, st.Advance(rs, es[0]), es[1..]);
      var rest := KeptFrom(rs, st.Advance(rs, es[0]), es[1..]);
      forall f | f in rest ensures EntryOrder(es[0], f) < 0 {
        var j :| 0 <= j < |es[1..]| && es[1..][j] == f;
        assert EntryOrder(es[0], es[j + 1]) < 0;
      }
    }
  }

  function MergeOf(rs: RuleSet, es: Index, e: Entry): Index {
    Kept(rs, Insert(es, e))
  }

  /** For all versions and any index, sorted or not. */
  lemma MergedFrom(rs: RuleSet, es: Index, e: Entry)
    ensures forall f <- MergeOf(rs, es, e) :: f in es || f == e
  {
    hide EntryOrder, Position;
    KeptInside(rs, START, Insert(es, e));
  }

  lemma MergeSorted(rs: RuleSet, es: Index, e: Entry)
    requires Sorted(es) && CleanIndex(es) && CleanEntry(e)
    ensures Sorted(MergeOf(rs, es, e)) && CleanIndex(MergeOf(rs, es, e))
  {
    InsertSorted(es, e);
    KeptSorted(rs, START, Insert(es, e));
    KeptInside(rs, START, Insert(es, e));
  }

  /** One merge of a branch: the rules may change from upload to upload. */
  datatype Upload = Upload(rs: RuleSet, entry: Entry)

  /** The index after a run of merges that begins at the empty index. */
  function Grown(run: seq<Upload>): Index {
    if run == [] then []
    else MergeOf(run[|run| - 1].rs, Grown(run[..|run| - 1]), run[|run| - 1].entry)
  }

  predicate UsableRun(run: seq<Upload>) {
    forall i :: 0 <= i < |run| ==> CleanEntry(run[i].entry)
  }

  /** Theorem: every index a run of uploads can reach is strictly increasing. */
  lemma {:induction false} GrownSorted(run: seq<Upload>)
    requires UsableRun(run)
    ensures Sorted(Grown(run)) && CleanIndex(Grown(run))
  {
    if run != [] {
      var u := run[|run| - 1];
      GrownSorted(run[..|run| - 1]);
      MergeSorted(u.rs, Grown(run[..|run| - 1]), u.entry);
    }
  }

  /** Rules such as `.*_*-*`, which limit nothing. */
  predicate Unlimited(rs: RuleSet) {
    forall r <- rs.rules :: !r.limitVersions && !r.limitRevisions
  }

  lemma {:induction false} UnlimitedKeepAll(rs: RuleSet, st: PrunerState, es: Index)
    requires Unlimited(rs) && (st.rule.Some? ==> st.rule.value in rs.rules)
    ensures KeptFrom(rs, st, es) == es
    decreases |es|
  {
    if es != [] {
      rs.PicksFirst(es[0].Name());
      UnlimitedKeepAll(rs, st.Advance(rs, es[0]), es[1..]);
      assert es == [es[0]] + es[1..];
    }
  }

  /** No merge of the run dereferences a nil rule. */
  ghost predicate Finishes(run: seq<Upload>) {
    forall k :: 0 <= k < |run| ==> !PanicsFrom(run[k].rs, START, Insert(Grown(run[..k]), run[k].entry))
  }

  lemma InsertFirst(es: Index, e: Entry)
    requires es != [] ==> EntryOrder(e, es[0]) < 0
    ensures Insert(es, e) == [e] + es
  {
    hide EntryOrder;
    if es != [] {
      EntryMirror(e, es[0]);
    }
  }

  lemma NewestFirst(rs: RuleSet, run: seq<Upload>, e: Entry)
    requires Unlimited(rs) && (Grown(run) != [] ==> EntryOrder(e, Grown(run)[0]) < 0)
    ensures Grown(run + [Upload(rs, e)]) == [e] + Grown(run) == Insert(Grown(run), e)
  {
    hide EntryOrder, Unlimited, Insert;
    var all := run + [Upload(rs, e)];
    assert all[..|all| - 1] == run;
    InsertFirst(Grown(run), e);
    UnlimitedKeepAll(rs, START, [e] + Grown(run));
  }

  lemma OnePackageFinishes(rs: RuleSet, es: Index)
    requires Sorted(es) && rs.Pick("p").Some? && forall e <- es :: e.Name() == "p"
    ensures !PanicsFrom(rs, START, es)
  {
    hide Sorted;
    PanicsIffUncovered(rs, es);
    forall i ensures !Uncovered(rs, es, i) {
      assert 0 <= i < |es| ==> es[i] in es;
    }
  }

  function AlternatingRun(rs: RuleSet): seq<Upload> {
    [Upload(rs, Plain("1.0", "1")), Upload(rs, Plain("1.00", "2")), Upload(rs, Plain("1.0", "3"))]
  }

  /** The sorted index that is not grouped comes from three uploads, under any rules that
    * match the package and limit nothing. */
  lemma AlternatingIsGrown(rs: RuleSet)
    requires Unlimited(rs) && rs.Pick("p").Some?
    ensures Grown(AlternatingRun(rs)) == ALTERNATING && Finishes(AlternatingRun(rs))
  {
    hide EntryOrder, MergeOf, Insert, PanicsFrom, RuleSet.Pick, Unlimited;
    AlternatingOrder();
    var run := AlternatingRun(rs);
    var e1, e2, e3 := run[0].entry, run[1].entry, run[2].entry;
    assert run[..0] == [] && run[..1] == [] + [run[0]] && run[..2] == run[..1] + [run[1]] && run == run[..2] + [run[2]];
    NewestFirst(rs, [], e1);
    NewestFirst(rs, run[..1], e2);
    NewestFirst(rs, run[..2], e3);
    OnePackageFinishes(rs, [e1]);
    OnePackageFinishes(rs, [e2, e1]);
    OnePackageFinishes(rs, [e3, e2, e1]);
    assert Insert(Grown(run[..0]), e1) == [e1];
    assert Insert(Grown(run[..1]), e2) == [e2, e1];
    assert Insert(Grown(run[..2]), e3) == [e3, e2, e1];
    forall k | 0 <= k < |run| ensures !PanicsFrom(run[k].rs, START, Insert(Grown(run[..k]), run[k].entry)) {
      assert k == 0 || k == 1 || k == 2;
    }
  }

  // ------------------------------------------------------------ closed indexes

  /** Nothing in the index is left for the rules to remove. */
  predicate Closed(rs: RuleSet, es: Index) {
    Kept(rs, es) == es
  }

  /** Theorem: a merged index is closed under the rules it was merged with. */
  lemma MergeCloses(rs: RuleSet, es: Index, e: Entry)
    requires Sorted(es) && CleanIndex(es) && CleanEntry(e)
    ensures Closed(rs, MergeOf(rs, es, e))
  {
    InsertSorted(es, e);
    SortedHasNoRepeat(Insert(es, e));
    PruneIdempotent(rs, Insert(es, e));
  }

  lemma GrownClosed(run: seq<Upload>)
    requires UsableRun(run) && run != []
    ensures Closed(run[|run| - 1].rs, Grown(run))
  {
    var u := run[|run| - 1];
    GrownSorted(run[..|run| - 1]);
    MergeCloses(u.rs, Grown(run[..|run| - 1]), u.entry);
  }

  // ----------------------------------------------------- what the log accounts for

  predicate PlainlyWritten(e: Entry) {
    VersionText.IsInt64(e.sourceItem.version.epoch) && VersionText.Rereadable(e.sourceItem.version)
  }

  /** A line of the log names the source and, after a space, its version as it is read back. */
  lemma DescriptionReads(e: Entry)
    requires PlainlyWritten(e)
    ensures e.sourceItem.name + " " <= Describe(e)
    ensures VersionText.ParseDebVersion(Describe(e)[|e.sourceItem.name| + 1..]) == Some(e.sourceItem.version)
  {
    hide ToString, VersionText.ParseDebVersion, VersionText.Rereadable;
    VersionText.ParseOfString(e.sourceItem.version);
    assert Describe(e)[|e.sourceItem.name| + 1..] == ToString(e.sourceItem.version);
  }

  /** So the log tells apart what it logs. */
  lemma DescriptionsDiffer(e: Entry, f: Entry)
    requires PlainlyWritten(e) && PlainlyWritten(f)
    requires ' ' !in e.sourceItem.name && ' ' !in f.sourceItem.name
    ensures Describe(e) == Describe(f) <==>
              e.sourceItem.name == f.sourceItem.name && e.sourceItem.version == f.sourceItem.version
  {
    hide ToString, VersionText.ParseDebVersion, PlainlyWritten;
    DescriptionReads(e);
    DescriptionReads(f);
    if Describe(e) == Describe(f) {
      var m, n := |e.sourceItem.name|, |f.sourceItem.name|;
      assert Describe(e)[m] == ' ' && Describe(f)[n] == ' ';
      assert forall i :: 0 <= i < m ==> e.sourceItem.name[i] == Describe(e)[i];
      assert forall i :: 0 <= i < n ==> f.sourceItem.name[i] == Describe(f)[i];
      assert e.sourceItem.name == Describe(e)[..m] && f.sourceItem.name == Describe(f)[..n];
    }
  }

  function Descriptions(es: Index): (ds: seq<string>)
    ensures |ds| == |es|
  {
    seq(|es|, i requires 0 <= i < |es| => Describe(es[i]))
  }

  /** The descriptions logged under one of `kinds`, in order. */
  function Select(log: seq<Action>, kinds: set<ActionType>): seq<string> {
    if log == [] then []
    else (if log[0].kind in kinds then [log[0].description] else []) + Select(log[1..], kinds)
  }

  function Removals(log: seq<Action>): seq<string> {
    Select(log, {ActionPRUNE, ActionSKIPPRUNE})
  }

  function Additions(log: seq<Action>): seq<string> {
    Select(log, {ActionADD})
  }

  lemma {:induction false} KeptAndDropped(rs: RuleSet, st: PrunerState, es: Index)
    ensures multiset(KeptFrom(rs, st, es)) + multiset(DroppedFrom(rs, st, es)) == multiset(es)
    ensures DroppedFrom(rs, st, es) == [] <==> KeptFrom(rs, st, es) == es
    decreases |es|
  {
    if es != [] {
      var next := st.Advance(rs, es[0]);
      KeptAndDropped(rs, next, es[1..]);
      assert es == [es[0]] + es[1..];
      assert |multiset(KeptFrom(rs, next, es[1..])) + multiset(DroppedFrom(rs, next, es[1..]))| == |es[1..]|;
    }
  }

  /** A new entry stands only in a New slot. */
  predicate SlotsFor(slots: seq<Slot>, e: Entry) {
    forall s <- slots :: s.origin == New ==> s.entry == e
  }

  lemma {:induction false} RemovalsAreDropped(rs: RuleSet, st: PrunerState, slots: seq<Slot>, e: Entry)
    requires SlotsFor(slots, e)
    ensures Removals(LogFrom(rs, st, slots, e)) == Descriptions(DroppedFrom(rs, st, Entries(slots)))
    decreases |slots|
  {
    if slots != [] {
      hide Describe, PrunerState.Advance, PrunerState.Prunes, Select, Descriptions;
      var s := slots[0];
      var next, pruned := st.Advance(rs, s.entry), st.Prunes(rs, s.entry);
      RemovalsAreDropped(rs, next, slots[1..], e);
      assert s in slots;
      assert Entries(slots)[1..] == Entries(slots[1..]);
      LineFirst(Line(s, pruned, e), LogFrom(rs, next, slots[1..], e), {ActionPRUNE, ActionSKIPPRUNE});
      DescriptionsFirst(s.entry, DroppedFrom(rs, next, Entries(slots[1..])));
    }
  }

  lemma DescriptionsFirst(e: Entry, es: Index)
    ensures Descriptions([e] + es) == [Describe(e)] + Descriptions(es)
  {
  }

  lemma LineFirst(line: seq<Action>, rest: seq<Action>, kinds: set<ActionType>)
    requires |line| <= 1
    ensures Select(line + rest, kinds) ==
            (if line != [] && line[0].kind in kinds then [line[0].description] else []) + Select(rest, kinds)
  {
    if line == [] {
      assert line + rest == rest;
    } else {
      assert (line + rest)[1..] == rest;
    }
  }

  lemma {:induction false} SlotOrigins(es: Index, e: Entry)
    ensures SlotsFor(Slots(es, e), e)
    ensures (exists s <- Slots(es, e) :: s.origin == New) <==>
            !(Position(es, e) < |es| && EntryOrder(es[Position(es, e)], e) == 0)
  {
    hide EntryOrder;
    if es != [] && EntryOrder(es[0], e) < 0 {
      SlotOrigins(es[1..], e);
      assert forall s :: s in Slots(es, e) <==> s == Slot(es[0], Old) || s in Slots(es[1..], e);
    } else if es == [] || EntryOrder(es[0], e) > 0 {
      assert Slot(e, New) == Slots(es, e)[0];
    }
  }

  /** Theorem: the log conserves entries. What went in is what came out and,
    * in order, what the log lists as pruned. */
  lemma LogConserves(rs: RuleSet, es: Index, e: Entry)
    ensures multiset(MergeOf(rs, es, e)) + multiset(Dropped(rs, Insert(es, e))) == multiset(Insert(es, e))
    ensures Select(MergeLog(rs, es, e), {ActionPRUNE, ActionSKIPPRUNE}) == Descriptions(Dropped(rs, Insert(es, e)))
  {
    KeptAndDropped(rs, START, Insert(es, e));
    SlotOrigins(es, e);
    SlotsAreInsert(es, e);
    RemovalsAreDropped(rs, START, Slots(es, e), e);
  }

  /** What one element adds to the additions. */
  lemma AddsOne(s: Slot, pruned: bool, rest: seq<Action>, e: Entry)
    ensures Additions(Line(s, pruned, e) + rest) == (if s.origin == New && !pruned then [Describe(e)] else []) + Additions(rest)
  {
    hide Describe;
    LineFirst(Line(s, pruned, e), rest, {ActionADD});
  }

  lemma {:induction false} AddedIffKept(rs: RuleSet, st: PrunerState, slots: seq<Slot>, e: Entry)
    requires SlotsFor(slots, e)
    requires forall s <- slots :: s.origin != New ==> s.entry != e
    requires forall i, j :: 0 <= i < j < |slots| ==> slots[i].origin != New || slots[j].origin != New
    ensures Additions(LogFrom(rs, st, slots, e)) == if e in KeptFrom(rs, st, Entries(slots)) then [Describe(e)] else []
    decreases |slots|
  {
    if slots != [] {
      hide PrunerState.Advance, PrunerState.Prunes, PrunerState.Panics, Line, Additions, Describe;
      var s := slots[0];
      var next, pruned := st.Advance(rs, s.entry), st.Prunes(rs, s.entry);
      assert s in slots && slots == [s] + slots[1..];
      KeptStep(rs, st, s, slots[1..]);
      LogStep(rs, st, s, slots[1..], e);
      AddsOne(s, pruned, LogFrom(rs, next, slots[1..], e), e);
      if s.origin == New {
        NoNewNoAddition(rs, next, slots[1..], e);
        OthersStay(rs, next, slots[1..], e);
      } else {
        AddedIffKept(rs, next, slots[1..], e);
      }
    } else {
      NothingAdded(rs, st, e);
    }
  }

  lemma OthersStay(rs: RuleSet, st: PrunerState, slots: seq<Slot>, e: Entry)
    requires forall s <- slots :: s.entry != e
    ensures e !in KeptFrom(rs, st, Entries(slots))
  {
    hide PrunerState.Advance, PrunerState.Prunes, KeptFrom;
    KeptInside(rs, st, Entries(slots));
    forall f | f in Entries(slots) ensures f != e {
      var i :| 0 <= i < |slots| && Entries(slots)[i] == f;
      assert slots[i] in slots;
    }
  }

  lemma NothingAdded(rs: RuleSet, st: PrunerState, e: Entry)
    ensures Additions(LogFrom(rs, st, [], e)) == [] && KeptFrom(rs, st, Entries([])) == []
  {
  }

  lemma {:induction false} NoNewNoAddition(rs: RuleSet, st: PrunerState, slots: seq<Slot>, e: Entry)
    requires forall s <- slots :: s.origin != New
    ensures Additions(LogFrom(rs, st, slots, e)) == []
    decreases |slots|
  {
    if slots != [] {
      hide Describe, PrunerState.Advance, PrunerState.Prunes;
      var s := slots[0];
      var next := st.Advance(rs, s.entry);
      NoNewNoAddition(rs, next, slots[1..], e);
      LineFirst(Line(s, st.Prunes(rs, s.entry), e), LogFrom(rs, next, slots[1..], e), {ActionADD});
      assert s in slots;
    }
  }

  lemma {:induction false} OneNewSlot(es: Index, e: Entry)
    ensures forall i, j :: 0 <= i < j < |Slots(es, e)| ==> Slots(es, e)[i].origin != New || Slots(es, e)[j].origin != New
  {
    hide EntryOrder;
    if es != [] && EntryOrder(es[0], e) < 0 {
      OneNewSlot(es[1..], e);
    }
  }

  /** Theorem: one ADD, of the entry, is logged if it is newly in the merged index, and
    * none otherwise. */
  lemma AddedIffNew(rs: RuleSet, es: Index, e: Entry)
    requires Sorted(es) && CleanIndex(es) && CleanEntry(e)
    ensures Select(MergeLog(rs, es, e), {ActionADD}) == if !Present(es, e) && e in MergeOf(rs, es, e) then [Describe(e)] else []
  {
    hide Describe;
    SlotOrigins(es, e);
    SlotsAreInsert(es, e);
    PresentAtPosition(es, e);
    if Present(es, e) {
      NoNewNoAddition(rs, START, Slots(es, e), e);
    } else {
      EntryMirror(e, e);
      OldSlotsAreOld(es, e);
      OneNewSlot(es, e);
      AddedIffKept(rs, START, Slots(es, e), e);
    }
  }

  lemma {:induction false} OldSlotsAreOld(es: Index, e: Entry)
    ensures forall s <- Slots(es, e) :: s.origin != New ==> s.entry in es
    ensures forall s <- Slots(es, e) :: s.origin == Tie ==> EntryOrder(s.entry, e) == 0
  {
    hide EntryOrder;
    if es != [] && EntryOrder(es[0], e) < 0 {
      OldSlotsAreOld(es[1..], e);
      assert forall s :: s in Slots(es, e) <==> s == Slot(es[0], Old) || s in Slots(es[1..], e);
    }
  }

  // ---------------------------------------------------------- the commit decision

  predicate Counts(a: Action) {
    a.kind == ActionADD || a.kind == ActionPRUNE || a.kind == ActionDELETE
  }

  predicate RealChange(log: seq<Action>) {
    exists a <- log :: Counts(a)
  }

  /** The loop over the actions in AddUpload. */
  method FindRealChange(actions: seq<Action>) returns (realchange: bool)
    ensures realchange <==> exists a <- actions :: a.kind in {ActionADD, ActionPRUNE, ActionDELETE}
    ensures realchange <==> RealChange(actions)
  {
    realchange := false;
    for i := 0 to |actions|
      invariant realchange <==> exists j :: 0 <= j < i && Counts(actions[j])
    {
      var item := actions[i];
      match item.kind {
        case ActionADD => realchange := true;
        case ActionPRUNE => realchange := true;
        case ActionDELETE => realchange := true;
        case _ =>
      }
    }
  }

  /** With nothing to remove, only the slot of the new entry is logged. */
  lemma {:induction false} QuietLog(rs: RuleSet, st: PrunerState, es: Index, e: Entry)
    requires DroppedFrom(rs, st, Entries(Slots(es, e))) == []
    ensures LogFrom(rs, st, Slots(es, e), e) ==
            [Action(if exists s <- Slots(es, e) :: s.origin == New then ActionADD else ActionSKIPPRESENT, Describe(e))]
    decreases |es|
  {
    hide EntryOrder, Describe, PrunerState.Advance, PrunerState.Prunes;
    var slots := Slots(es, e);
    var next := st.Advance(rs, slots[0].entry);
    assert Entries(slots)[1..] == Entries(slots[1..]);
    if es != [] && EntryOrder(es[0], e) < 0 {
      assert slots[1..] == Slots(es[1..], e);
      QuietLog(rs, next, es[1..], e);
      assert forall s :: s in slots <==> s == Slot(es[0], Old) || s in Slots(es[1..], e);
    } else if es == [] || EntryOrder(es[0], e) > 0 {
      assert slots[1..] == OldSlots(es);
      QuietOld(rs, next, es, e);
      assert slots[0] == Slot(e, New);
    } else {
      assert slots[1..] == OldSlots(es[1..]);
      QuietOld(rs, next, es[1..], e);
    }
  }

  lemma {:induction false} QuietOld(rs: RuleSet, st: PrunerState, es: Index, e: Entry)
    requires DroppedFrom(rs, st, Entries(OldSlots(es))) == []
    ensures LogFrom(rs, st, OldSlots(es), e) == []
    decreases |es|
  {
    if es != [] {
      assert Entries(OldSlots(es))[1..] == Entries(OldSlots(es[1..]));
      assert OldSlots(es)[1..] == OldSlots(es[1..]);
      QuietOld(rs, st.Advance(rs, es[0]), es[1..], e);
    }
  }

  lemma PresentInsertsNothing(es: Index, e: Entry)
    requires Sorted(es) && CleanIndex(es) && CleanEntry(e) && Present(es, e)
    ensures Insert(es, e) == es && Entries(Slots(es, e)) == es
    ensures forall s <- Slots(es, e) :: s.origin != New
  {
    hide Slots, EntryOrder, Sorted, CleanIndex, CleanEntry, Present;
    PresentAtPosition(es, e);
    SlotOrigins(es, e);
    SlotsAreInsert(es, e);
  }

  /** Theorem: into an index closed under the rules, merging an entry that compares
    * equal to one already there changes nothing, logs one SKIPPRESENT and commits nothing. */
  lemma MergeAgain(rs: RuleSet, es: Index, e: Entry)
    requires Sorted(es) && CleanIndex(es) && CleanEntry(e)
    requires Closed(rs, es) && Present(es, e)
    ensures MergeOf(rs, es, e) == es
    ensures MergeLog(rs, es, e) == [Action(ActionSKIPPRESENT, Describe(e))]
    ensures !RealChange(MergeLog(rs, es, e))
  {
    hide Sorted, CleanIndex, CleanEntry, Present, EntryOrder, Describe, Slots, Insert, Entries, KeptFrom, DroppedFrom, LogFrom;
    PresentInsertsNothing(es, e);
    KeptAndDropped(rs, START, es);
    QuietLog(rs, START, es, e);
  }

  /** Merging what was just merged. */
  lemma UploadTwice(rs: RuleSet, es: Index, e: Entry, e': Entry)
    requires Sorted(es) && CleanIndex(es) && CleanEntry(e) && CleanEntry(e')
    requires e in MergeOf(rs, es, e) && EntryOrder(e, e') == 0
    ensures MergeOf(rs, MergeOf(rs, es, e), e') == MergeOf(rs, es, e)
    ensures !RealChange(MergeLog(rs, MergeOf(rs, es, e), e'))
  {
    MergeSorted(rs, es, e);
    MergeCloses(rs, es, e);
    MergeAgain(rs, MergeOf(rs, es, e), e');
  }

  /** The pruner removes the entry of slot `i`. */
  predicate PrunesSlot(rs: RuleSet, st: PrunerState, slots: seq<Slot>, i: int) {
    0 <= i < |slots| && After(rs, st, Entries(slots)[..i]).Prunes(rs, slots[i].entry)
  }

  lemma PrunesLaterSlot(rs: RuleSet, st: PrunerState, slots: seq<Slot>, i: int)
    requires slots != []
    ensures PrunesSlot(rs, st, slots, 0) <==> st.Prunes(rs, slots[0].entry)
    ensures i > 0 ==> (PrunesSlot(rs, st, slots, i) <==> PrunesSlot(rs, st.Advance(rs, slots[0].entry), slots[1..], i - 1))
  {
    assert Entries(slots)[..0] == [];
    if 0 < i < |slots| {
      assert Entries(slots)[..i][1..] == Entries(slots[1..])[..i - 1];
    }
  }

  /** The log counts as a change iff it holds a New line or removes an Old entry. */
  lemma {:induction false} RealChangeAt(rs: RuleSet, st: PrunerState, slots: seq<Slot>, e: Entry)
    ensures RealChange(LogFrom(rs, st, slots, e)) <==>
            || (exists s <- slots :: s.origin == New)
            || (exists i :: PrunesSlot(rs, st, slots, i) && slots[i].origin == Old)
    decreases |slots|
  {
    if slots != [] {
      hide PrunesSlot, Describe;
      var next := st.Advance(rs, slots[0].entry);
      RealChangeAt(rs, next, slots[1..], e);
      var line := Line(slots[0], st.Prunes(rs, slots[0].entry), e);
      var rest := LogFrom(rs, next, slots[1..], e);
      assert forall a :: a in line + rest <==> a in line || a in rest;
      assert line != [] ==> line[0] in line;
      assert slots == [slots[0]] + slots[1..];
      forall i ensures PrunesSlot(rs, st, slots, i) && i != 0 <==> PrunesSlot(rs, next, slots[1..], i - 1) {
        PrunesLaterSlot(rs, st, slots, i);
      }
    }
  }

  lemma {:induction false} SlotsWhenPresent(es: Index, e: Entry)
    requires Position(es, e) < |es| && EntryOrder(es[Position(es, e)], e) == 0
    ensures |Slots(es, e)| == |es|
    ensures forall i :: 0 <= i < |es| ==> Slots(es, e)[i] == Slot(es[i], if i == Position(es, e) then Tie else Old)
  {
    hide EntryOrder;
    if EntryOrder(es[0], e) < 0 {
      SlotsWhenPresent(es[1..], e);
    }
  }

  /** Theorem: an upload is committed iff the entry was absent or the rules remove
    * an entry other than its equal. A lone removal of the equal entry goes uncommitted. */
  lemma CommitIff(rs: RuleSet, es: Index, e: Entry)
    requires Sorted(es) && CleanIndex(es) && CleanEntry(e)
    ensures RealChange(MergeLog(rs, es, e)) <==>
            !Present(es, e) || exists f <- es :: f !in MergeOf(rs, es, e) && EntryOrder(f, e) != 0
  {
    hide EntryOrder, Sorted, CleanIndex, CleanEntry, RealChange, LogFrom, Slots, PrunesSlot, Kept;
    var slots := Slots(es, e);
    PresentAtPosition(es, e);
    SlotOrigins(es, e);
    RealChangeAt(rs, START, slots, e);
    if Present(es, e) {
      SlotsWhenPresent(es, e);
      assert MergeOf(rs, es, e) == Kept(rs, es);
      forall i | 0 <= i < |es|
        ensures slots[i].origin == Old <==> EntryOrder(es[i], e) != 0
        ensures PrunesSlot(rs, START, slots, i) <==> es[i] !in MergeOf(rs, es, e)
      {
        TwinOnlyAtPosition(es, e, i);
        SlotPruned(rs, es, e, i);
      }
      InRange(rs, slots);
    }
  }

  lemma InRange(rs: RuleSet, slots: seq<Slot>)
    ensures forall i :: PrunesSlot(rs, START, slots, i) ==> 0 <= i < |slots|
  {
  }

  lemma SlotPruned(rs: RuleSet, es: Index, e: Entry, i: nat)
    requires Sorted(es) && i < |es| && Position(es, e) < |es| && EntryOrder(es[Position(es, e)], e) == 0
    ensures |Slots(es, e)| == |es|
    ensures PrunesSlot(rs, START, Slots(es, e), i) <==> es[i] !in Kept(rs, es)
  {
    hide Sorted, EntryOrder, Slots, Kept, PrunerState.Prunes;
    SlotsWhenPresent(es, e);
    SlotsAreInsert(es, e);
    KeptIffNotPruned(rs, es, i);
  }

  lemma TwinOnlyAtPosition(es: Index, e: Entry, i: nat)
    requires Sorted(es) && CleanIndex(es) && CleanEntry(e) && i < |es|
    requires Position(es, e) < |es| && EntryOrder(es[Position(es, e)], e) == 0
    ensures EntryOrder(es[i], e) == 0 <==> i == Position(es, e)
  {
    var k := Position(es, e);
    if i > k {
      assert es[i] in es && es[k] in es;
      EntryMirror(es[k], e);
      EntryMirror(es[i], e);
      assert EntryOrder(es[k], es[i]) < 0;
      EntryTransitive(e, es[k], es[i]);
    }
  }
}
