/** Merging one upload into a release index (mergeEntryIntoRelease in
  * releaseindex.go) and the decision to commit (AddUpload in archive.go). */
module Merge {
  import opened DebVersions
  import opened ReleaseIndex
  import opened Prune

  datatype ActionType =
    ActionADD | ActionDELETE | ActionPRUNE | ActionSKIPPRESENT | ActionSKIPPRUNE | ActionTRIM | ActionCONFIGCHANGE

  datatype Action = Action(kind: ActionType, description: string)

  function Describe(e: Entry): string {
    e.Name() + " " + ToString(e.Version())
  }

  // ------------------------------------------------------------ insert if absent

  /** The first place whose entry does not come before `e`. */
  function Position(es: Index, e: Entry): (k: nat)
    ensures k <= |es|
    ensures forall i :: 0 <= i < k ==> EntryOrder(es[i], e) < 0
    ensures k < |es| ==> EntryOrder(es[k], e) >= 0
  {
    if es == [] || EntryOrder(es[0], e) >= 0 then 0 else 1 + Position(es[1..], e)
  }

  predicate Present(es: Index, e: Entry) {
    exists f <- es :: EntryOrder(f, e) == 0
  }

  function Insert(es: Index, e: Entry): Index {
    var k := Position(es, e);
    if k < |es| && EntryOrder(es[k], e) == 0 then es else es[..k] + [e] + es[k..]
  }

  // ------------------------------------------------ the elements of a merge pass

  datatype Origin = Old | New | Tie

  /** An element of the merged order and where it came from; a tie is an old entry
    * that compares equal to the new one. */
  datatype Slot = Slot(entry: Entry, origin: Origin)

  function OldSlots(es: Index): (slots: seq<Slot>)
    ensures |slots| == |es|
  {
    seq(|es|, i requires 0 <= i < |es| => Slot(es[i], Old))
  }

  function Slots(es: Index, e: Entry): seq<Slot> {
    if es == [] then [Slot(e, New)]
    else if EntryOrder(es[0], e) < 0 then [Slot(es[0], Old)] + Slots(es[1..], e)
    else if EntryOrder(es[0], e) == 0 then [Slot(es[0], Tie)] + OldSlots(es[1..])
    else [Slot(e, New)] + OldSlots(es)
  }

  function Entries(slots: seq<Slot>): (es: Index)
    ensures |es| == |slots|
  {
    seq(|slots|, i requires 0 <= i < |slots| => slots[i].entry)
  }

  /** What is logged for one element when `e` is merged. */
  function Line(s: Slot, pruned: bool, e: Entry): seq<Action> {
    match s.origin
    case Old => if pruned then [Action(ActionPRUNE, Describe(s.entry))] else []
    case New => [Action(if pruned then ActionPRUNE else ActionADD, Describe(e))]
    case Tie => [if pruned then Action(ActionSKIPPRUNE, Describe(s.entry)) else Action(ActionSKIPPRESENT, Describe(e))]
  }

  function LogFrom(rs: RuleSet, st: PrunerState, slots: seq<Slot>, e: Entry): seq<Action>
    decreases |slots|
  {
    if slots == [] then []
    else Line(slots[0], st.Prunes(rs, slots[0].entry), e) + LogFrom(rs, st.Advance(rs, slots[0].entry), slots[1..], e)
  }

  function MergeLog(rs: RuleSet, es: Index, e: Entry): seq<Action> {
    LogFrom(rs, START, Slots(es, e), e)
  }

  lemma InsertLater(es: Index, e: Entry)
    requires es != [] && EntryOrder(es[0], e) < 0
    ensures Insert(es, e) == [es[0]] + Insert(es[1..], e)
  {
  }

  lemma {:induction false} SlotsAreInsert(es: Index, e: Entry)
    ensures Entries(Slots(es, e)) == Insert(es, e)
  {
    hide EntryOrder, Insert;
    if es != [] && EntryOrder(es[0], e) < 0 {
      SlotsAreInsert(es[1..], e);
      InsertLater(es, e);
      assert Entries(Slots(es, e)) == [es[0]] + Entries(Slots(es[1..], e));
    } else {
      InsertHere(es, e);
      if es != [] && EntryOrder(es[0], e) == 0 {
        assert Entries(Slots(es, e)) == [es[0]] + es[1..] == es;
      } else {
        assert Entries(Slots(es, e)) == [e] + es;
      }
    }
  }

  lemma InsertHere(es: Index, e: Entry)
    requires es == [] || EntryOrder(es[0], e) >= 0
    ensures Insert(es, e) == if es != [] && EntryOrder(es[0], e) == 0 then es else [e] + es
  {
    hide EntryOrder;
  }

  // ---------------------------------------------------- the single streaming pass

  /** What is still to come when the reader stands before `es`. */
  function Todo(es: Index, right: seq<Entry>): seq<Slot> {
    if right == [] then OldSlots(es) else Slots(es, right[0])
  }

  lemma TodoStep(es: Index, right: seq<Entry>)
    requires es != [] || right != []
    ensures Todo(es, right) ==
            if es == [] then [Slot(right[0], New)] + Todo([], [])
            else if right == [] then [Slot(es[0], Old)] + Todo(es[1..], [])
            else if EntryOrder(es[0], right[0]) < 0 then [Slot(es[0], Old)] + Todo(es[1..], right)
            else if EntryOrder(es[0], right[0]) == 0 then [Slot(es[0], Tie)] + Todo(es[1..], [])
            else [Slot(right[0], New)] + Todo(es, [])
  {
  }

  /** With `todo` still to come in state `st`, what is out so far will complete to the result. */
  ghost predicate Remains(rs: RuleSet, st: PrunerState, todo: seq<Slot>, e: Entry,
                          merged: Index, actions: seq<Action>, parent: Index)
  {
    && merged + KeptFrom(rs, st, Entries(todo)) == Kept(rs, Insert(parent, e))
    && actions + LogFrom(rs, st, todo, e) == MergeLog(rs, parent, e)
    && !PanicsFrom(rs, st, Entries(todo))
  }

  lemma PassStep(rs: RuleSet, st: PrunerState, s: Slot, rest: seq<Slot>, e: Entry,
                 merged: Index, actions: seq<Action>, parent: Index)
    requires Remains(rs, st, [s] + rest, e, merged, actions, parent)
    ensures !st.Panics(s.entry)
    ensures var pruned := st.Prunes(rs, s.entry);
            Remains(rs, st.Advance(rs, s.entry), rest, e,
                    if pruned then merged else merged + [s.entry], actions + Line(s, pruned, e), parent)
  {
    hide PrunerState.Prunes, PrunerState.Advance, PrunerState.Panics, Line, Kept, Insert, MergeLog;
    KeptStep(rs, st, s, rest);
    LogStep(rs, st, s, rest, e);
    var pruned, next := st.Prunes(rs, s.entry), st.Advance(rs, s.entry);
    assert merged + ([s.entry] + KeptFrom(rs, next, Entries(rest))) == merged + [s.entry] + KeptFrom(rs, next, Entries(rest));
    assert actions + (Line(s, pruned, e) + LogFrom(rs, next, rest, e)) == actions + Line(s, pruned, e) + LogFrom(rs, next, rest, e);
  }

  lemma KeptStep(rs: RuleSet, st: PrunerState, s: Slot, rest: seq<Slot>)
    ensures var next := st.Advance(rs, s.entry);
            && KeptFrom(rs, st, Entries([s] + rest)) ==
               (if st.Prunes(rs, s.entry) then [] else [s.entry]) + KeptFrom(rs, next, Entries(rest))
            && (PanicsFrom(rs, st, Entries([s] + rest)) <==> st.Panics(s.entry) || PanicsFrom(rs, next, Entries(rest)))
  {
    hide PrunerState.Prunes, PrunerState.Advance, PrunerState.Panics;
    var es := Entries([s] + rest);
    assert es[0] == s.entry && es[1..] == Entries(rest);
  }

  lemma LogStep(rs: RuleSet, st: PrunerState, s: Slot, rest: seq<Slot>, e: Entry)
    ensures LogFrom(rs, st, [s] + rest, e) ==
            Line(s, st.Prunes(rs, s.entry), e) + LogFrom(rs, st.Advance(rs, s.entry), rest, e)
  {
    hide PrunerState.Prunes, PrunerState.Advance, Line;
    assert ([s] + rest)[1..] == rest;
  }

  lemma AllRemains(rs: RuleSet, parent: Index, e: Entry)
    requires !PanicsFrom(rs, START, Insert(parent, e))
    ensures Remains(rs, START, Todo(parent, [e]), e, [], [], parent)
  {
    hide EntryOrder, Insert, Slots, KeptFrom, LogFrom, PanicsFrom;
    SlotsAreInsert(parent, e);
  }

  lemma NothingRemains(rs: RuleSet, st: PrunerState, e: Entry, merged: Index, actions: seq<Action>, parent: Index)
    requires Remains(rs, st, Todo([], []), e, merged, actions, parent)
    ensures merged == Kept(rs, Insert(parent, e)) && actions == MergeLog(rs, parent, e)
  {
  }

  method MergeEntryIntoRelease(rs: RuleSet, parent: Index, entry: Entry) returns (merged: Index, actions: seq<Action>)
    requires !PanicsFrom(rs, START, Insert(parent, entry))
    ensures merged == Kept(rs, Insert(parent, entry))
    ensures actions == MergeLog(rs, parent, entry)
  {
    hide Todo, Insert, Kept, MergeLog, Remains, Describe, EntryOrder, PrunerState.Advance, PrunerState.Prunes, PrunerState.Panics;
    AllRemains(rs, parent, entry);
    merged, actions := [], [];
    var right := [entry];
    var pruner := new Pruner(rs);
    var i := 0;
    assert parent[0..] == parent;
    while i < |parent|
      invariant 0 <= i <= |parent|
      invariant right == [] || right == [entry]
      invariant fresh(pruner) && pruner.rs == rs
      invariant Remains(rs, pruner.State(), Todo(parent[i..], right), entry, merged, actions, parent)
      decreases |parent| - i + |right|
    {
      var left := parent[i];
      TodoStep(parent[i..], right);
      assert parent[i..][1..] == parent[i + 1..] && actions + [] == actions;
      if |right| > 0 {
        var cmpItems := EntryOrder(left, right[0]);
        if cmpItems < 0 {
          PassStep(rs, pruner.State(), Slot(left, Old), Todo(parent[i + 1..], right), entry, merged, actions, parent);
          var prune := pruner.Prune(left);
          if !prune {
            merged := merged + [left];
          } else {
            actions := actions + [Action(ActionPRUNE, Describe(left))];
          }
          i := i + 1;
        } else if cmpItems == 0 {
          PassStep(rs, pruner.State(), Slot(left, Tie), Todo(parent[i + 1..], []), entry, merged, actions, parent);
          var prune := pruner.Prune(left);
          if !prune {
            merged := merged + [left];
            var item := right[0];
            actions := actions + [Action(ActionSKIPPRESENT, Describe(item))];
          } else {
            actions := actions + [Action(ActionSKIPPRUNE, Describe(left))];
          }
          i := i + 1;
          right := right[1..];
        } else {
          var item := right[0];
          PassStep(rs, pruner.State(), Slot(item, New), Todo(parent[i..], []), entry, merged, actions, parent);
          var prune := pruner.Prune(item);
          if !prune {
            merged := merged + [item];
            actions := actions + [Action(ActionADD, Describe(item))];
          } else {
            actions := actions + [Action(ActionPRUNE, Describe(item))];
          }
          right := right[1..];
        }
      } else {
        PassStep(rs, pruner.State(), Slot(left, Old), Todo(parent[i + 1..], []), entry, merged, actions, parent);
        var prune := pruner.Prune(left);
        if !prune {
          merged := merged + [left];
        } else {
          actions := actions + [Action(ActionPRUNE, Describe(left))];
        }
        i := i + 1;
      }
    }
    assert parent[i..] == [];
    if right != [] {
      var item := right[0];
      TodoStep([], right);
      PassStep(rs, pruner.State(), Slot(item, New), Todo([], []), entry, merged, actions, parent);
      var prune := pruner.Prune(item);
      if !prune {
        merged := merged + [item];
        actions := actions + [Action(ActionADD, Describe(item))];
      } else {
        actions := actions + [Action(ActionPRUNE, Describe(item))];
      }
      right := right[1..];
    }
    NothingRemains(rs, pruner.State(), entry, merged, actions, parent);
  }
}
