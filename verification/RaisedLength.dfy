/** Why an upload must not put back into the window what is gone: a run in which the
  * administrator raises the trim length and the collector's next walk fails. */
module RaisedLength {
  import opened ReleaseIndex
  import opened Prune
  import opened Merge
  import opened MergeLaws
  import opened History
  import opened Collector
  import opened ArchiveStore
  import opened Archive
  import opened ArchiveSteps
  import opened Runs

  // ------------------------------------------------ indexes with one entry a package

  /** No package has two entries in a row. */
  predicate Changing(es: Index) {
    forall i :: 0 < i < |es| ==> es[i - 1].Name() != es[i].Name()
  }

  lemma {:induction false} SinglesKept(rs: RuleSet, st: PrunerState, es: Index)
    requires Changing(es)
    requires es != [] ==> st.pkg != es[0].Name()
    ensures KeptFrom(rs, st, es) == es && !PanicsFrom(rs, st, es)
    decreases |es|
  {
    if es != [] {
      assert forall i :: 0 < i < |es[1..]| ==> es[1..][i - 1] == es[i] && es[1..][i] == es[i + 1];
      SinglesKept(rs, st.Advance(rs, es[0]), es[1..]);
      assert es == [es[0]] + es[1..];
    }
  }

  /** `e` belongs before all of `es`. */
  predicate ComesFirst(es: Index, e: Entry) {
    e.Name() != "" && (es != [] ==> BytesCompare(e.Name(), es[0].Name()) < 0)
  }

  /** Under any rules such an entry is merged, and counts as a change. */
  lemma FirstIsMerged(rs: RuleSet, es: Index, e: Entry)
    requires Changing(es) && ComesFirst(es, e)
    ensures MergeOf(rs, es, e) == [e] + es && Changing([e] + es)
    ensures !PanicsFrom(rs, START, Insert(es, e)) && RealChange(MergeLog(rs, es, e))
  {
    hide Describe, BytesCompare;
    InsertFirst(es, e);
    assert forall i :: 0 < i < |[e] + es| ==> ([e] + es)[i] == es[i - 1];
    SinglesKept(rs, START, [e] + es);
    FirstIsNew(es, e);
    RealChangeAt(rs, START, Slots(es, e), e);
  }

  lemma FirstIsNew(es: Index, e: Entry)
    requires ComesFirst(es, e)
    ensures Slot(e, New) in Slots(es, e)
  {
    if es != [] {
      EntryMirror(e, es[0]);
    }
    assert Slots(es, e)[0] == Slot(e, New);
  }

  // ------------------------------------------------------------------------ the run

  const NO_FILES := ReleaseFiles([], NoAsset, NoAsset, NoAsset)

  function Head(env: Env, g: GateState): Release {
    EnsureBranch(env, g, "d", 0).refs["d"]
  }

  /** An upload of `e` to distribution "d". */
  function Upload(id: nat, e: Entry): Step {
    MergeSession(id, "d", e, NO_FILES, 0)
  }

  predicate Ready(s: System, id: nat, e: Entry) {
    id in s.sessions && EntryAssets(e) <= s.sessions[id] && s.gate.lockCount > 0
  }

  function NextHead(env: Env, p: Release, e: Entry): Release {
    Grow(p, [e] + p.index, MergeLog(RulesOf(env, p), p.index, e), NO_FILES, 0)
  }

  lemma UploadCommits(env: Env, s: System, id: nat, e: Entry)
    requires Ready(s, id, e) && Changing(Head(env, s.gate).index) && ComesFirst(Head(env, s.gate).index, e)
    ensures MayMerge(env, s, id, "d", e) && Commits(env, s.gate, "d", e, 0)
    ensures var p, g' := Head(env, s.gate), AfterUpload(env, s.gate, "d", e, NO_FILES, 0);
            && g'.refs == s.gate.refs["d" := NextHead(env, p, e)]
            && g'.lockCount == s.gate.lockCount && g'.runGC
            && g'.blobs == MergedIn(env, s.gate, "d", e, 0).blobs + FilesBlobs(NO_FILES) + {ReleaseBlob(NextHead(env, p, e))}
  {
    hide Grow, MergeOf, MergeLog, PanicsFrom, RealChange, Insert, Changing, ComesFirst, Swept;
    var p := Head(env, s.gate);
    FirstIsMerged(RulesOf(env, p), p.index, e);
  }

  lemma UploadArises(env: Env, s: System, id: nat, e: Entry)
    requires Arises(env, s) && Ready(s, id, e)
    requires Changing(Head(env, s.gate).index) && ComesFirst(Head(env, s.gate).index, e)
    requires TrimStaysInside(Head(env, s.gate))
    ensures var p, s' := Head(env, s.gate), System(AfterUpload(env, s.gate, "d", e, NO_FILES, 0), s.sessions);
            && Arises(env, s') && Changing([e] + p.index)
            && s'.gate.refs == s.gate.refs["d" := NextHead(env, p, e)]
            && s'.gate.lockCount == s.gate.lockCount && s'.gate.runGC
  {
    hide Grow, MergeOf, MergeLog, Commits, AfterUpload, MayMerge, Changing, ComesFirst, TrimStaysInside, Arises;
    UploadCommits(env, s, id, e);
    FirstIsMerged(RulesOf(env, Head(env, s.gate)), Head(env, s.gate).index, e);
    InsideIsEnough(env, s.gate, "d", e, NO_FILES, 0);
    NextArises(env, s, Upload(id, e));
  }

  predicate Descending(es: Index) {
    && (forall e <- es :: e.Name() != "")
    && forall i :: 0 < i < |es| ==> BytesCompare(es[i].Name(), es[i - 1].Name()) < 0
  }

  /** A history of three uploads, trimmed to length 0 by the last two. */
  ghost predicate ThreeDeep(env: Env, r: Release, es: Index)
    requires |es| >= 3
  {
    && |Chain(r)| == 4 && r.trimAfter == 1 && r.config == env.defaultConfig
    && r.index == [es[2], es[1], es[0]] && Chain(r)[1].index == [es[1], es[0]] && Chain(r)[2].index == [es[0]]
  }

  /** The default configuration trims to the head and its parent. */
  predicate TrimsToZero(env: Env) {
    env.defaultConfig.autoTrim && env.defaultConfig.autoTrimLength == 0
  }

  lemma ZeroStaysInside(p: Release)
    requires p.config.autoTrimLength == 0
    ensures TrimStaysInside(p)
  {
  }

  lemma ThreeUploads(env: Env, es: Index, assets: set<StoreID>) returns (s: System)
    requires TrimsToZero(env) && |es| >= 3 && Descending(es) && forall e <- es :: EntryAssets(e) <= assets
    ensures Arises(env, s) && s.sessions == map[0 := assets] && s.gate.lockCount == 1 && s.gate.runGC
    ensures s.gate.refs.Keys == {"d"} && ThreeDeep(env, s.gate.refs["d"], es)
  {
    hide Arises, NextHead, EntryAssets, AfterUpload, TrimStaysInside, BytesCompare, Grow;
    InitArises(env);
    NextArises(env, INIT, OpenSession(0, assets));
    s := Apply(env, INIT, OpenSession(0, assets));
    var root := Head(env, s.gate);
    assert Chain(root) == [root] && root.index == [];
    ZeroStaysInside(root);
    UploadArises(env, s, 0, es[0]);
    s := System(AfterUpload(env, s.gate, "d", es[0], NO_FILES, 0), s.sessions);
    var r1 := s.gate.refs["d"];
    NextHeadIs(env, root, es[0]);
    ZeroStaysInside(r1);
    UploadArises(env, s, 0, es[1]);
    s := System(AfterUpload(env, s.gate, "d", es[1], NO_FILES, 0), s.sessions);
    var r2 := s.gate.refs["d"];
    NextHeadIs(env, r1, es[1]);
    ZeroStaysInside(r2);
    UploadArises(env, s, 0, es[2]);
    s := System(AfterUpload(env, s.gate, "d", es[2], NO_FILES, 0), s.sessions);
    NextHeadIs(env, r2, es[2]);
  }

  lemma NextHeadIs(env: Env, p: Release, e: Entry)
    ensures var c := NextHead(env, p, e);
            && Chain(c) == [c] + Chain(p) && c.index == [e] + p.index && c.config == p.config
            && c.trimAfter == if TrimFires(p) then p.config.autoTrimLength + 1 else p.trimAfter
  {
    GrowChain(p, [e] + p.index, MergeLog(RulesOf(env, p), p.index, e), NO_FILES, 0);
  }

  /** Then the session ends, the collector sweeps, the length becomes 3 and another
    * session begins. */
  function Raised(env: Env): Step {
    ChangeConfig("d", env.defaultConfig.(autoTrimLength := 3), [], NO_FILES, 0)
  }

  lemma SweptAndRaised(env: Env, es: Index, s0: System, more: set<StoreID>) returns (s: System)
    requires Arises(env, s0) && s0.sessions.Keys == {0} && s0.gate.lockCount == 1 && s0.gate.runGC
    requires TrimsToZero(env) && |es| >= 3 && s0.gate.refs.Keys == {"d"} && ThreeDeep(env, s0.gate.refs["d"], es)
    requires forall x <- more :: x.Blob?
    ensures Arises(env, s) && s.sessions == map[1 := more] && s.gate.lockCount == 1 && "d" in s.gate.refs
    ensures var p := s.gate.refs["d"];
            && |Chain(p)| == 5 && p.trimAfter == 1 && p.config == env.defaultConfig.(autoTrimLength := 3)
            && p.index == [es[2], es[1], es[0]] && Chain(p)[3].index == [es[0]]
    ensures IndexBlob([es[0]]) !in s.gate.blobs
  {
    hide Arises, InWindow, Swept, FilesBlobs, KeyBlobs;
    var r := s0.gate.refs["d"];
    NextArises(env, s0, CloseSession(0));
    var s1 := Apply(env, s0, CloseSession(0));
    assert s1.gate.blobs == Swept(s0.gate.blobs, s0.gate.refs) && s1.gate.refs == s0.gate.refs && s1.gate.lockCount == 0;
    FirstIsGone(env, es, s0.gate);
    AddedAreBlobs(NO_FILES, env.defaultConfig.(autoTrimLength := 3));
    NextArises(env, s1, Raised(env));
    var s2 := Apply(env, s1, Raised(env));
    var p := s2.gate.refs["d"];
    assert Chain(p) == [p] + Chain(r);
    NextArises(env, s2, OpenSession(1, more));
    s := Apply(env, s2, OpenSession(1, more));
  }

  lemma AddedAreBlobs(files: ReleaseFiles, config: Config)
    ensures forall x <- FilesBlobs(files) + KeyBlobs(config) :: x.Blob?
  {
  }

  lemma FirstIsGone(env: Env, es: Index, g: GateState)
    requires |es| >= 3 && g.refs.Keys == {"d"} && ThreeDeep(env, g.refs["d"], es)
    ensures IndexBlob([es[0]]) !in Swept(g.blobs, g.refs)
  {
    hide Swept, InWindow;
    FirstAtHead(g.refs["d"]);
    forall n, k | n in g.refs && InWindow(g.refs[n], k) ensures Chain(g.refs[n])[k].index != [es[0]] {
      assert k == 0 || k == 1;
    }
    UnseenIsSwept(g.blobs, g.refs, [es[0]]);
  }

  /** Theorem: whatever the rules, four uploads under descending names, with the length
    * raised before the last, make a run that is enabled but for the guard of the last
    * merge, after which the collector's walk would open an index that is gone. */
  lemma RaisedLengthRun(env: Env, es: Index) returns (s: System)
    requires env.Usable() && TrimsToZero(env) && |es| == 4 && Descending(es)
    ensures Arises(env, s) && MayMerge(env, s, 1, "d", es[3])
    ensures !ReopensOnlyHeld(env, s.gate, "d", es[3], NO_FILES, 0)
    ensures var g := AfterUpload(env, s.gate, "d", es[3], NO_FILES, 0);
            !AllIntact(g.blobs, g.refs)
  {
    hide Arises, EntryAssets, IndexAssets, AfterUpload, AllIntact, BytesCompare, ReopensOnlyHeld, GoodStore, ThreeDeep;
    var assets := IndexAssets(es);
    forall e <- es ensures EntryAssets(e) <= assets {
      AssetsOfEntry(es, e);
    }
    IndexedAreBlobs(es);
    s := ThreeUploads(env, es, assets);
    s := SweptAndRaised(env, es, s, assets);
    assert EntryAssets(es[3]) <= assets;
    LastUploadBreaks(env, es, s);
    ArisesKeeps(env, s);
    if ReopensOnlyHeld(env, s.gate, "d", es[3], NO_FILES, 0) {
      UploadKeeps(env, s.gate, "d", es[3], NO_FILES, 0);
      GoodIsIntact(AfterUpload(env, s.gate, "d", es[3], NO_FILES, 0));
    }
  }

  lemma AssetsOfEntry(es: Index, e: Entry)
    requires e in es
    ensures EntryAssets(e) <= IndexAssets(es)
  {
    hide EntryAssets;
  }

  lemma LastUploadBreaks(env: Env, es: Index, s: System)
    requires TrimsToZero(env) && |es| == 4 && Descending(es) && Ready(s, 1, es[3]) && "d" in s.gate.refs
    requires var p := s.gate.refs["d"];
             && |Chain(p)| == 5 && p.trimAfter == 1 && p.config == env.defaultConfig.(autoTrimLength := 3)
             && p.index == [es[2], es[1], es[0]] && Chain(p)[3].index == [es[0]]
    requires IndexBlob([es[0]]) !in s.gate.blobs
    ensures MayMerge(env, s, 1, "d", es[3])
    ensures var g := AfterUpload(env, s.gate, "d", es[3], NO_FILES, 0);
            !AllIntact(g.blobs, g.refs)
  {
    hide AfterUpload, EntryAssets, Grow, Intact, MayMerge, MergeLog, MergeOf, InWindow;
    var p := s.gate.refs["d"];
    UploadCommits(env, s, 1, es[3]);
    FirstIsMerged(RulesOf(env, p), p.index, es[3]);
    FirstAtHead(p);
    var g := AfterUpload(env, s.gate, "d", es[3], NO_FILES, 0);
    assert |[es[3]] + p.index| != |[es[0]]|;
    assert IndexBlob([es[0]]) !in g.blobs;
    RaisedLengthBreaksTheWalk(g.blobs, p, [es[3]] + p.index, MergeLog(RulesOf(env, p), p.index, es[3]), NO_FILES, 0);
    assert g.refs["d"] == NextHead(env, p, es[3]);
  }
}
