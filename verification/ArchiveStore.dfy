/** The blob store: sweeping, and the gate that holds the collector off
  * (archivestore.go, runGC and garbageCollector). */
module ArchiveStore {
  import opened ReleaseIndex
  import opened History
  import opened Collector

  /** Kept alive by some ref. */
  ghost predicate Live(blobs: set<StoreID>, refs: map<string, Release>, x: StoreID) {
    exists n :: n in refs && Keeps(blobs, refs[n], x)
  }

  /** The store after a sweep. */
  ghost function Swept(blobs: set<StoreID>, refs: map<string, Release>): set<StoreID> {
    set x | x in blobs && Live(blobs, refs, x)
  }

  /** Any two refs have disjoint chains or are both untrimmed. */
  ghost predicate Orderly(refs: map<string, Release>) {
    forall m, n :: m in refs && n in refs && m != n ==> Tolerates(refs[m], refs[n])
  }

  /** Every chain is there to its root. */
  ghost predicate Rooted(blobs: set<StoreID>, refs: map<string, Release>) {
    forall n, k :: n in refs && 0 <= k < |Chain(refs[n])| ==> ReleaseBlob(Chain(refs[n])[k]) in blobs
  }

  ghost predicate AllIntact(blobs: set<StoreID>, refs: map<string, Release>) {
    forall n :: n in refs ==> Intact(blobs, refs[n])
  }

  // ------------------------------------------------------------ the gate's states

  /** What the collector goroutine and the store hold between two requests. */
  datatype GateState = GateState(blobs: set<StoreID>, refs: map<string, Release>, lockCount: int, runGC: bool) {
    /** The end of the request loop: a waiting sweep runs once nobody holds it off. */
    ghost function Settle(): GateState {
      if runGC && lockCount == 0 then this.(blobs := Swept(blobs, refs), runGC := false) else this
    }

    ghost function Disable(): GateState {
      this.(lockCount := lockCount + 1).Settle()
    }

    ghost function Enable(): GateState {
      this.(lockCount := lockCount - 1).Settle()
    }

    ghost function Request(): GateState {
      this.(runGC := true).Settle()
    }
  }

  class ArchiveBlobStore {
    var blobs: set<StoreID>
    var refs: map<string, Release>
    var lockCount: int
    var runGC: bool

    function State(): GateState
      reads this
    {
      GateState(blobs, refs, lockCount, runGC)
    }

    constructor ()
      ensures State() == GateState({}, map[], 0, false)
    {
      blobs, refs, lockCount, runGC := {}, map[], 0, false;
    }

    /** runGC: the refs are walked in any order, and so is the store. */
    method RunGC()
      requires AllIntact(blobs, refs)
      modifies this`blobs
      ensures blobs <= Swept(old(blobs), refs)
      ensures Rooted(blobs, refs)
      ensures Orderly(refs) ==> blobs == Swept(old(blobs), refs)
    {
      hide Live, Rooted, Intact, Tolerates;
      var used := MarkAll();
      ghost var blobs0 := blobs;
      var todo := blobs;
      while todo != {}
        invariant todo <= blobs0
        invariant blobs == set x | x in blobs0 && (x in todo || x in used)
        decreases todo
      {
        var id :| id in todo;
        if id !in used {
          blobs := blobs - {id};
        }
        todo := todo - {id};
      }
      RootedStays(blobs0, used, blobs, refs);
    }

    method MarkAll() returns (used: set<StoreID>)
      requires AllIntact(blobs, refs)
      ensures forall x :: x in used ==> Live(blobs, refs, x)
      ensures Rooted(used, refs)
      ensures Orderly(refs) ==> forall x :: x in used <==> Live(blobs, refs, x)
    {
      hide Live, Marks, Marked, IndexClosed, Rooted, Tolerates, Intact;
      used := {};
      NothingUsed(blobs, refs);
      var todo := refs.Keys;
      ghost var done: set<string> := {};
      while todo != {}
        invariant todo <= refs.Keys && done == refs.Keys - todo
        invariant IndexClosed(used) && Marked(blobs, refs, done, used)
        decreases todo
      {
        var name :| name in todo;
        ghost var used0 := used;
        used := GcWalkRelease(blobs, used, refs[name]);
        NextRef(blobs, refs, used0, used, done, name);
        todo, done := todo - {name}, done + {name};
      }
      assert done == refs.Keys;
      AllMarked(blobs, refs, used);
    }

    /** A request to the goroutine is one turn of its loop. */
    method DisableGarbageCollector()
      requires AllIntact(blobs, refs)
      modifies this`blobs, this`lockCount, this`runGC
      ensures Orderly(refs) ==> State() == old(State()).Disable()
    {
      lockCount := lockCount + 1;
      Turn();
    }

    method EnableGarbageCollector()
      requires lockCount > 0
      requires AllIntact(blobs, refs)
      modifies this`blobs, this`lockCount, this`runGC
      ensures Orderly(refs) ==> State() == old(State()).Enable()
    {
      lockCount := lockCount - 1;
      Turn();
    }

    method GarbageCollect()
      requires AllIntact(blobs, refs)
      modifies this`blobs, this`runGC
      ensures Orderly(refs) ==> State() == old(State()).Request()
    {
      runGC := true;
      Turn();
    }

    method Turn()
      requires AllIntact(blobs, refs)
      modifies this`blobs, this`runGC
      ensures Orderly(refs) ==> State() == old(State()).Settle()
    {
      if runGC && lockCount == 0 {
        RunGC();
        runGC := false;
      }
    }
  }

  /** What is known after walks from the refs in `done`. */
  ghost predicate Marked(blobs: set<StoreID>, refs: map<string, Release>, done: set<string>, used: set<StoreID>)
  {
    && ChainClosed(used)
    && (forall n :: n in done && n in refs ==> ReleaseBlob(refs[n]) in used)
    && (forall x :: x in used ==> KeptBy(blobs, refs, done, x))
    && (Orderly(refs) ==> forall x :: KeptBy(blobs, refs, done, x) ==> x in used)
  }

  ghost predicate KeptBy(blobs: set<StoreID>, refs: map<string, Release>, done: set<string>, x: StoreID)
  {
    exists n :: n in done && n in refs && Keeps(blobs, refs[n], x)
  }

  lemma NothingUsed(blobs: set<StoreID>, refs: map<string, Release>)
    ensures IndexClosed({}) && Marked(blobs, refs, {}, {})
  {
  }

  lemma AllMarked(blobs: set<StoreID>, refs: map<string, Release>, used: set<StoreID>)
    requires Marked(blobs, refs, refs.Keys, used)
    ensures Rooted(used, refs)
    ensures forall x :: x in used ==> Live(blobs, refs, x)
    ensures Orderly(refs) ==> forall x :: x in used <==> Live(blobs, refs, x)
  {
    hide Keeps;
    forall x ensures KeptBy(blobs, refs, refs.Keys, x) <==> Live(blobs, refs, x) {
    }
  }

  /** A marked release is marked with all its ancestors. */
  ghost predicate ChainClosed(used: set<StoreID>) {
    forall r: Release, k :: ReleaseBlob(r) in used && 0 <= k < |Chain(r)| ==> ReleaseBlob(Chain(r)[k]) in used
  }

  lemma RootedStays(blobs0: set<StoreID>, used: set<StoreID>, blobs: set<StoreID>, refs: map<string, Release>)
    requires AllIntact(blobs0, refs) && Rooted(used, refs) && forall x :: x in blobs0 && x in used ==> x in blobs
    ensures Rooted(blobs, refs)
  {
    forall n, k | n in refs && 0 <= k < |Chain(refs[n])| ensures ReleaseBlob(Chain(refs[n])[k]) in blobs {
      IntactAt(blobs0, refs[n], k);
    }
  }

  /** Where a walk stops early an earlier one has gone on, so whatever chains share
    * and wherever they are trimmed, no release object is lost. */
  lemma WalkClosed(blobs: set<StoreID>, used0: set<StoreID>, used: set<StoreID>, h: Release)
    requires ChainClosed(used0)
    requires forall x :: x in used <==> x in used0 || Marks(blobs, used0, h, x)
    ensures ChainClosed(used) && ReleaseBlob(h) in used
    ensures forall x :: x in used && x !in used0 ==> Keeps(blobs, h, x)
  {
    hide Assets, InWindow;
    assert Chain(h)[0] == h;
    forall j | 0 <= j < |Chain(h)| ensures ReleaseBlob(Chain(h)[j]) in used {
      if Reached(used0, h, j) {
        assert KeepsAt(blobs, h, j, ReleaseBlob(Chain(h)[j]));
      } else {
        var i :| 0 < i <= j && ReleaseBlob(Chain(h)[i]) in used0;
        ChainSuffix(h, i);
        assert Chain(h)[j] == Chain(h)[i..][j - i];
      }
    }
    forall r: Release, k | ReleaseBlob(r) in used && 0 <= k < |Chain(r)| ensures ReleaseBlob(Chain(r)[k]) in used {
      if ReleaseBlob(r) !in used0 {
        var i :| Reached(used0, h, i) && KeepsAt(blobs, h, i, ReleaseBlob(r));
        ReleaseKeptAsRelease(blobs, h, i, r);
        ChainSuffix(h, i);
        assert Chain(r)[k] == Chain(h)[i + k];
      }
    }
  }

  /** Assets can be lost when chains are shared and trimmed: the walk from `h` finds its
    * parent marked and stops, though the walk from `g` dropped what `h` still keeps. */
  lemma EarlyStopLosesAssets(blobs: set<StoreID>, used: set<StoreID>, g: Release, h: Release, p: Release, x: StoreID)
    requires g.parent == Parent(p) && h.parent == Parent(p)
    requires forall y :: y in used <==> Keeps(blobs, g, y)
    requires Keeps(blobs, h, x) && !Keeps(blobs, g, x) && !KeepsAt(blobs, h, 0, x)
    ensures x !in used && !Marks(blobs, used, h, x)
  {
    hide Assets, InWindow;
    assert Chain(g)[1] == Chain(h)[1] == p;
    assert KeepsAt(blobs, g, 1, ReleaseBlob(p));
  }

  ghost function KeptAt(blobs: set<StoreID>, h: Release, k: int): set<StoreID>
    requires 0 <= k < |Chain(h)|
  {
    {ReleaseBlob(Chain(h)[k])} + if InWindow(h, k) then Assets(blobs, Chain(h)[k]) else {}
  }

  ghost function KeptSet(blobs: set<StoreID>, h: Release): set<StoreID> {
    set k, x | 0 <= k < |Chain(h)| && x in KeptAt(blobs, h, k) :: x
  }

  lemma KeptSetIsKeeps(blobs: set<StoreID>, h: Release, x: StoreID)
    ensures x in KeptSet(blobs, h) <==> Keeps(blobs, h, x)
  {
    hide Assets, InWindow;
    forall k | 0 <= k < |Chain(h)| ensures x in KeptAt(blobs, h, k) <==> KeepsAt(blobs, h, k, x) {
    }
    if x in KeptSet(blobs, h) {
      var k :| 0 <= k < |Chain(h)| && x in KeptAt(blobs, h, k);
      assert KeepsAt(blobs, h, k, x);
    }
  }

  /** A release with nothing but an index. */
  function Plain(parent: Parent, index: Index, trimAfter: nat, config: Config): Release {
    Release(parent, index, "d", 0, [], NoAsset, NoAsset, NoAsset, [], trimAfter, config)
  }

  /** An example: one of two heads over a common parent is trimmed. Walked second, the
    * other does not mark the index of its grandparent. */
  lemma EarlyStopExample(blobs: set<StoreID>, config: Config, lost: Index, other: Index)
    requires lost != other
    ensures var p := Plain(Parent(Plain(NoParent, lost, 0, config)), other, 0, config);
            var g, h := Plain(Parent(p), other, 1, config), Plain(Parent(p), other, 0, config);
            var used := KeptSet(blobs, g);
            && Keeps(blobs, h, IndexBlob(lost))
            && IndexBlob(lost) !in used && !Marks(blobs, used, h, IndexBlob(lost))
  {
    hide Assets, Marks, Keeps, KeptSet, InWindow;
    var q := Plain(NoParent, lost, 0, config);
    var p := Plain(Parent(q), other, 0, config);
    var g, h := Plain(Parent(p), other, 1, config), Plain(Parent(p), other, 0, config);
    ThreeDeep(g, p, q);
    ThreeDeep(h, p, q);
    forall y ensures y in KeptSet(blobs, g) <==> Keeps(blobs, g, y) {
      KeptSetIsKeeps(blobs, g, y);
    }
    ExampleWindows(g, h, p, q);
    KeepsIndex(blobs, h, 2);
    KeepsNoOther(blobs, g, lost);
    if KeepsAt(blobs, h, 0, IndexBlob(lost)) {
      OnlyOneIndex(blobs, h, IndexBlob(lost));
    }
    EarlyStopLosesAssets(blobs, KeptSet(blobs, g), g, h, p, IndexBlob(lost));
  }

  lemma ThreeDeep(h: Release, p: Release, q: Release)
    requires h.parent == Parent(p) && p.parent == Parent(q) && q.parent == NoParent
    ensures Chain(h) == [h, p, q]
  {
    assert ChainOf(q.parent) == [];
    assert ChainOf(p.parent) == [q];
    assert ChainOf(h.parent) == [p] + [q];
  }

  lemma ExampleWindows(g: Release, h: Release, p: Release, q: Release)
    requires Chain(g) == [g, p, q] && Chain(h) == [h, p, q]
    requires g.trimAfter == 1 && h.trimAfter == 0 && p.trimAfter == 0 && q.trimAfter == 0
    ensures (forall k :: InWindow(g, k) ==> 0 <= k < 2) && InWindow(h, 2)
  {
    assert FirstTrimmed(g, 0);
  }

  lemma KeepsIndex(blobs: set<StoreID>, h: Release, k: nat)
    requires InWindow(h, k)
    ensures Keeps(blobs, h, IndexBlob(Chain(h)[k].index))
  {
    assert KeepsAt(blobs, h, k, IndexBlob(Chain(h)[k].index));
  }

  lemma KeepsNoOther(blobs: set<StoreID>, g: Release, index: Index)
    requires forall k :: InWindow(g, k) ==> Chain(g)[k].index != index
    ensures !Keeps(blobs, g, IndexBlob(index))
  {
    hide Assets, InWindow;
    if Keeps(blobs, g, IndexBlob(index)) {
      var k :| k >= 0 && KeepsAt(blobs, g, k, IndexBlob(index));
      KeepsInChain(blobs, g, k, IndexBlob(index));
      OnlyOneIndex(blobs, Chain(g)[k], IndexBlob(index));
    }
  }

  lemma NextRef(blobs: set<StoreID>, refs: map<string, Release>, used0: set<StoreID>, used: set<StoreID>, done: set<string>, name: string)
    requires done <= refs.Keys && name in refs && name !in done && Marked(blobs, refs, done, used0)
    requires forall x :: x in used <==> x in used0 || Marks(blobs, used0, refs[name], x)
    ensures Marked(blobs, refs, done + {name}, used)
  {
    hide Keeps, Marks, ChainClosed, Orderly, KeptBy;
    WalkClosed(blobs, used0, used, refs[name]);
    KeptByOneMore(blobs, refs, done, name);
    if Orderly(refs) {
      OrderlyWalk(blobs, refs, used0, done, name);
    }
  }

  lemma KeptByOneMore(blobs: set<StoreID>, refs: map<string, Release>, done: set<string>, name: string)
    requires done <= refs.Keys && name in refs
    ensures forall x :: KeptBy(blobs, refs, done + {name}, x) <==> KeptBy(blobs, refs, done, x) || Keeps(blobs, refs[name], x)
  {
    hide Keeps;
  }

  /** Walking from one more of a set of orderly refs ends with all it keeps. */
  lemma OrderlyWalk(blobs: set<StoreID>, refs: map<string, Release>, used0: set<StoreID>, done: set<string>, name: string)
    requires Orderly(refs) && done <= refs.Keys && name in refs && name !in done
    requires forall x :: x in used0 <==> KeptBy(blobs, refs, done, x)
    ensures forall x :: Keeps(blobs, refs[name], x) ==> x in used0 || Marks(blobs, used0, refs[name], x)
  {
    hide Keeps, Marks, Settled, Tolerates;
    var heads := set n | n in done :: refs[n];
    forall x ensures x in used0 <==> exists g :: g in heads && Keeps(blobs, g, x) {
      if n :| n in done && Keeps(blobs, refs[n], x) {
        assert refs[n] in heads;
      }
    }
    TolerantIsSettled(blobs, used0, heads, refs[name]);
    forall x | Keeps(blobs, refs[name], x) ensures x in used0 || Marks(blobs, used0, refs[name], x) {
      SettledWalk(blobs, used0, refs[name], x);
    }
  }

  // ------------------------------------------------------------------ sweeping twice

  /** A config is kept together with the index and files of its release, so
    * what a release uses reads the same after the sweep. */
  lemma KeepsAfterSweep(blobs: set<StoreID>, refs: map<string, Release>, n: string, x: StoreID)
    requires n in refs
    ensures Keeps(Swept(blobs, refs), refs[n], x) <==> Keeps(blobs, refs[n], x)
  {
    var h := refs[n];
    forall k | 0 <= k < |Chain(h)| ensures KeepsAt(Swept(blobs, refs), h, k, x) <==> KeepsAt(blobs, h, k, x) {
      if InWindow(h, k) {
        AssetsAfterSweep(blobs, refs, n, k);
      }
    }
    if k :| 0 <= k && KeepsAt(blobs, h, k, x) {
      assert KeepsAt(Swept(blobs, refs), h, k, x);
    }
    if k :| 0 <= k && KeepsAt(Swept(blobs, refs), h, k, x) {
      assert KeepsAt(blobs, h, k, x);
    }
  }

  lemma AssetsAfterSweep(blobs: set<StoreID>, refs: map<string, Release>, n: string, k: nat)
    requires n in refs && InWindow(refs[n], k)
    ensures Assets(Swept(blobs, refs), Chain(refs[n])[k]) == Assets(blobs, Chain(refs[n])[k])
  {
    var config := ConfigBlob(Chain(refs[n])[k].config);
    assert KeepsAt(blobs, refs[n], k, config);
    assert Keeps(blobs, refs[n], config);
    assert config in Swept(blobs, refs) <==> config in blobs;
  }

  /** Theorem: a second sweep removes nothing. */
  lemma SweepIdempotent(blobs: set<StoreID>, refs: map<string, Release>)
    ensures Swept(Swept(blobs, refs), refs) == Swept(blobs, refs)
  {
    forall x | x in Swept(blobs, refs) ensures x in Swept(Swept(blobs, refs), refs) {
      var n :| n in refs && Keeps(blobs, refs[n], x);
      KeepsAfterSweep(blobs, refs, n, x);
    }
  }

  // ------------------------------------------------------------ what a sweep leaves

  /** Theorem: a sweep leaves a plain blob iff a release inside some window names it, an
    * index or a config iff it is that of such a release, and a release iff it is on a chain. */
  lemma SweepOverFields(blobs: set<StoreID>, refs: map<string, Release>, x: StoreID)
    ensures x in Swept(blobs, refs) <==>
              x in blobs && match x
              case ReleaseBlob(r) => exists n, k :: n in refs && 0 <= k < |Chain(refs[n])| && r == Chain(refs[n])[k]
              case IndexBlob(es) => exists n, k :: n in refs && InWindow(refs[n], k) && es == Chain(refs[n])[k].index
              case ConfigBlob(c) => exists n, k :: n in refs && InWindow(refs[n], k) && c == Chain(refs[n])[k].config
              case Blob(id) => exists n, k :: n in refs && InWindow(refs[n], k) && Names(blobs, Chain(refs[n])[k], id)
  {
    hide Assets, Names, InWindow;
    forall n, k | n in refs && 0 <= k < |Chain(refs[n])|
      ensures KeepsAt(blobs, refs[n], k, x) <==>
                match x
                case ReleaseBlob(r) => r == Chain(refs[n])[k]
                case IndexBlob(es) => InWindow(refs[n], k) && es == Chain(refs[n])[k].index
                case ConfigBlob(c) => InWindow(refs[n], k) && c == Chain(refs[n])[k].config
                case Blob(id) => InWindow(refs[n], k) && Names(blobs, Chain(refs[n])[k], id)
    {
      AssetsOverFields(blobs, Chain(refs[n])[k], x);
    }
    WindowOnChain(refs);
    if n, k :| n in refs && k >= 0 && KeepsAt(blobs, refs[n], k, x) {
      assert Keeps(blobs, refs[n], x);
    }
  }

  lemma WindowOnChain(refs: map<string, Release>)
    ensures forall n, k :: n in refs && InWindow(refs[n], k) ==> 0 <= k < |Chain(refs[n])|
  {
  }
}
