/** Distributions over the blob store: creating, uploading to, reconfiguring and
  * deleting them (archive.go, release.go), and the invariant these steps keep. */
module Archive {
  import opened ReleaseIndex
  import opened Prune
  import opened Merge
  import opened MergeLaws
  import opened History
  import opened Collector
  import opened ArchiveStore

  /** How rule strings parse, and the config given at start-up, which has no keys. */
  datatype Env = Env(parseRules: string -> RuleSet, defaultConfig: Config) {
    predicate Usable() {
      defaultConfig.signingKeyID == NoAsset && defaultConfig.publicKeyIDs == []
    }
  }

  // -------------------------------------------------------------------- the steps

  function FilesBlobs(f: ReleaseFiles): set<StoreID> {
    {Blob(f.inRelease), Blob(f.releaseFile), Blob(f.releaseGPG)} + ComponentsAssets(f.components) - {Blob(NoAsset)}
  }

  function KeyBlobs(c: Config): set<StoreID> {
    (set k | k in KeyIDs(c) :: Blob(k)) - {Blob(NoAsset)}
  }

  /** GetReleaseRoot: a release without parent, packages or files. */
  function Root(name: string, config: Config, date: int): Release {
    Release(NoParent, [], name, date, [], NoAsset, NoAsset, NoAsset, [], 0, config)
  }

  function AddRoot(s: GateState, name: string, config: Config, date: int): GateState {
    var root := Root(name, config, date);
    s.(blobs := s.blobs + {ConfigBlob(config), EMPTY_FILE, ReleaseBlob(root)}, refs := s.refs[name := root])
  }

  function AddHead(s: GateState, name: string, r: Release, others: set<StoreID>): GateState {
    s.(blobs := s.blobs + others + {ReleaseBlob(r)}, refs := s.refs[name := r])
  }

  /** PUT on a distribution that does not exist. */
  function CreateDist(env: Env, s: GateState, name: string, files: ReleaseFiles, date: int): GateState {
    var s1 := AddRoot(s, name, env.defaultConfig, date);
    AddHead(s1, name, Grow(s1.refs[name], [], [], files, date), FilesBlobs(files))
  }

  /** A change of configuration puts a child on the head. */
  function ConfigChild(p: Release, config: Config, actions: seq<Action>, files: ReleaseFiles, date: int): Release {
    WithFiles(NewChild(p, date).(config := config, actions := actions), files)
  }

  function Reconfigure(s: GateState, name: string, config: Config, actions: seq<Action>, files: ReleaseFiles, date: int): GateState
    requires name in s.refs
  {
    AddHead(s, name, ConfigChild(s.refs[name], config, actions, files, date),
            FilesBlobs(files) + KeyBlobs(config) + {ConfigBlob(config)})
  }

  function DeleteDist(s: GateState, name: string): GateState {
    s.(refs := s.refs - {name})
  }

  function EnsureBranch(env: Env, s: GateState, branch: string, date: int): GateState {
    if branch in s.refs then s else AddRoot(s, branch, env.defaultConfig, date)
  }

  function RulesOf(env: Env, r: Release): RuleSet {
    env.parseRules(r.config.pruneRules)
  }

  /** The first half of AddUpload: the branch exists and the merged index is stored. */
  function MergedIn(env: Env, s: GateState, branch: string, entry: Entry, date: int): GateState {
    var s1 := EnsureBranch(env, s, branch, date);
    var head := s1.refs[branch];
    s1.(blobs := s1.blobs + {IndexBlob(MergeOf(RulesOf(env, head), head.index, entry))})
  }

  /** The second half: a new head over the merged index. */
  function HeadSet(env: Env, s: GateState, branch: string, entry: Entry, files: ReleaseFiles, date: int): GateState {
    var s2 := MergedIn(env, s, branch, entry, date);
    var head := s2.refs[branch];
    var rs := RulesOf(env, head);
    AddHead(s2, branch, Grow(head, MergeOf(rs, head.index, entry), MergeLog(rs, head.index, entry), files, date), FilesBlobs(files))
  }

  /** Will AddUpload commit? */
  ghost predicate Commits(env: Env, s: GateState, branch: string, entry: Entry, date: int) {
    var head := EnsureBranch(env, s, branch, date).refs[branch];
    RealChange(MergeLog(RulesOf(env, head), head.index, entry))
  }

  /** AddUpload: merge, and unless nothing changed set a new head and ask for a sweep. */
  ghost function AfterUpload(env: Env, s: GateState, branch: string, entry: Entry, files: ReleaseFiles, date: int): GateState {
    if Commits(env, s, branch, entry, date) then HeadSet(env, s, branch, entry, files, date).Request()
    else MergedIn(env, s, branch, entry, date)
  }

  // ---------------------------------------------------------------- the invariant

  /** Every release of the chain is stored, and inside the window with all it uses. */
  ghost predicate Stored(blobs: set<StoreID>, h: Release) {
    forall k :: 0 <= k < |Chain(h)| ==> StoredAt(blobs, h, k)
  }

  ghost predicate StoredAt(blobs: set<StoreID>, h: Release, k: nat)
    requires k < |Chain(h)|
  {
    && ReleaseBlob(Chain(h)[k]) in blobs
    && (InWindow(h, k) ==> HasAssets(blobs, Chain(h)[k]))
  }

  predicate HasAssets(blobs: set<StoreID>, r: Release) {
    Assets(blobs, r) <= blobs + {Blob(NoAsset)}
  }

  predicate Belongs(name: string, h: Release) {
    forall k :: 0 <= k < |Chain(h)| ==> Chain(h)[k].codeName == name
  }

  ghost predicate GoodHead(blobs: set<StoreID>, name: string, h: Release) {
    && Stored(blobs, h)
    && Belongs(name, h)
    && (h.trimAfter == 0 ==> Untrimmed(h))
  }

  ghost predicate GoodStore(s: GateState) {
    forall n :: n in s.refs ==> GoodHead(s.blobs, n, s.refs[n])
  }

  // ------------------------------------------------- the invariant serves the GC

  lemma GoodIsIntact(s: GateState)
    requires GoodStore(s)
    ensures AllIntact(s.blobs, s.refs)
  {
    forall n, k | n in s.refs && 0 <= k < |Chain(s.refs[n])|
      ensures ReleaseBlob(Chain(s.refs[n])[k]) in s.blobs
      ensures InWindow(s.refs[n], k) ==> IndexBlob(Chain(s.refs[n])[k].index) in s.blobs
    {
      assert GoodHead(s.blobs, n, s.refs[n]);
      assert StoredAt(s.blobs, s.refs[n], k);
    }
  }

  /** Distributions never share a release: the code name tells them apart. */
  lemma GoodIsOrderly(s: GateState)
    requires GoodStore(s)
    ensures Orderly(s.refs)
  {
  }

  lemma SweepKeepsStored(blobs: set<StoreID>, refs: map<string, Release>, n: string)
    requires n in refs && Stored(blobs, refs[n])
    ensures Stored(Swept(blobs, refs), refs[n])
  {
    var h := refs[n];
    forall k: nat | k < |Chain(h)| ensures StoredAt(Swept(blobs, refs), h, k) {
      assert StoredAt(blobs, h, k);
      KeptBySweep(blobs, refs, n, k, ReleaseBlob(Chain(h)[k]));
      if InWindow(h, k) {
        AssetsAfterSweep(blobs, refs, n, k);
        forall x | x in Assets(blobs, Chain(h)[k]) && x != Blob(NoAsset) ensures x in Swept(blobs, refs) {
          KeptBySweep(blobs, refs, n, k, x);
        }
      }
    }
  }

  lemma KeptBySweep(blobs: set<StoreID>, refs: map<string, Release>, n: string, k: nat, x: StoreID)
    requires n in refs && x in blobs && KeepsAt(blobs, refs[n], k, x)
    ensures x in Swept(blobs, refs)
  {
  }

  lemma SettleKeeps(s: GateState)
    requires GoodStore(s)
    ensures GoodStore(s.Settle())
  {
    forall n | n in s.refs ensures GoodHead(s.Settle().blobs, n, s.refs[n]) {
      assert GoodHead(s.blobs, n, s.refs[n]);
      SweepKeepsStored(s.blobs, s.refs, n);
    }
  }

  // ----------------------------------------------------- the steps keep the invariant

  lemma MoreBlobs(blobs: set<StoreID>, more: set<StoreID>, r: Release)
    requires blobs <= more && HasAssets(blobs, r)
    ensures HasAssets(more, r)
  {
  }

  lemma StoredGrows(blobs: set<StoreID>, more: set<StoreID>, h: Release)
    requires blobs <= more && Stored(blobs, h)
    ensures Stored(more, h)
  {
    forall k: nat | k < |Chain(h)| ensures StoredAt(more, h, k) {
      assert StoredAt(blobs, h, k);
      if InWindow(h, k) {
        MoreBlobs(blobs, more, Chain(h)[k]);
      }
    }
  }

  /** A head whose window, moved down by one, lies in its parent's. */
  ghost predicate Covered(c: Release, p: Release) {
    forall k :: k >= 0 && InWindow(c, k + 1) ==> InWindow(p, k)
  }

  /** All that the window of `c` reaches of its parent's chain has its assets. */
  ghost predicate Held(blobs: set<StoreID>, c: Release, p: Release) {
    forall k :: 0 <= k < |Chain(p)| && InWindow(c, k + 1) ==> HasAssets(blobs, Chain(p)[k])
  }

  /** A child is as good as its parent iff what its window reaches is there. */
  lemma StoredChild(blobs: set<StoreID>, more: set<StoreID>, p: Release, c: Release)
    requires blobs <= more && Stored(blobs, p)
    requires c.parent == Parent(p) && ReleaseBlob(c) in more && HasAssets(more, c)
    ensures Stored(more, c) <==> Held(more, c, p)
    ensures Covered(c, p) ==> Held(more, c, p)
  {
    hide HasAssets, InWindow;
    StoredGrows(blobs, more, p);
    assert Chain(c) == [c] + Chain(p);
    forall k | 0 <= k < |Chain(p)| ensures StoredAt(more, c, k + 1) <==> (InWindow(c, k + 1) ==> HasAssets(more, Chain(p)[k])) {
      assert StoredAt(more, p, k);
    }
    assert StoredAt(more, c, 0);
    if Held(more, c, p) {
      forall k: nat | k < |Chain(c)| ensures StoredAt(more, c, k) {
        if k > 0 {
          assert StoredAt(more, c, k - 1 + 1);
        }
      }
    }
    if Stored(more, c) {
      forall k | 0 <= k < |Chain(p)| && InWindow(c, k + 1) ensures HasAssets(more, Chain(p)[k]) {
        assert StoredAt(more, c, k + 1);
      }
    }
    if Covered(c, p) {
      forall k | 0 <= k < |Chain(p)| && InWindow(c, k + 1) ensures HasAssets(more, Chain(p)[k]) {
        assert StoredAt(more, p, k);
      }
    }
  }

  /** Trimming fires when `p` grows. */
  predicate TrimFires(p: Release) {
    p.config.autoTrim && p.config.autoTrimLength >= 0 && |Chain(p)| >= p.config.autoTrimLength + 2
  }

  /** The next trim of `p`, if it fires, asks for nothing outside the window of `p`. */
  ghost predicate TrimStaysInside(p: Release) {
    TrimFires(p) ==> InWindow(p, p.config.autoTrimLength)
  }

  /** Theorem: that is the exact condition for a new head to ask for no more than its
    * parent kept. */
  lemma CoveredIff(p: Release, index: Index, actions: seq<Action>, files: ReleaseFiles, date: int)
    requires p.trimAfter == 0 ==> Untrimmed(p)
    ensures Covered(Grow(p, index, actions, files, date), p) <==> TrimStaysInside(p)
  {
  }

  /** Depth `k` of `p` is outside its window, and comes back into that of the next head. */
  ghost predicate Reopens(p: Release, k: int) {
    TrimFires(p) && 0 <= k <= p.config.autoTrimLength && !InWindow(p, k)
  }

  ghost predicate ReopenedHeld(blobs: set<StoreID>, p: Release) {
    forall k :: Reopens(p, k) ==> HasAssets(blobs, Chain(p)[k])
  }

  lemma InsideReopensNothing(p: Release)
    ensures TrimStaysInside(p) <==> forall k :: !Reopens(p, k)
  {
    if TrimFires(p) && !TrimStaysInside(p) {
      assert Reopens(p, p.config.autoTrimLength);
    }
  }

  /** What the window of the next head reaches is there iff what it reopens is. */
  lemma HeldIff(blobs: set<StoreID>, p: Release, index: Index, actions: seq<Action>, files: ReleaseFiles, date: int)
    requires Stored(blobs, p) && (p.trimAfter == 0 ==> Untrimmed(p))
    ensures Held(blobs, Grow(p, index, actions, files, date), p) <==> ReopenedHeld(blobs, p)
  {
    hide HasAssets, InWindow, Grow, Stored;
    var c := Grow(p, index, actions, files, date);
    GrowChain(p, index, actions, files, date);
    CoveredIff(p, index, actions, files, date);
    InsideReopensNothing(p);
    forall k | 0 <= k < |Chain(p)| ensures InWindow(p, k) ==> HasAssets(blobs, Chain(p)[k]) {
      StoredMeans(blobs, p, k);
    }
    if TrimFires(p) {
      forall k | 0 <= k < |Chain(p)|
        ensures (InWindow(c, k + 1) ==> HasAssets(blobs, Chain(p)[k])) <==> (Reopens(p, k) ==> HasAssets(blobs, Chain(p)[k]))
      {
        ChildWindow(c, p, k);
      }
    }
  }

  lemma StoredMeans(blobs: set<StoreID>, p: Release, k: nat)
    requires Stored(blobs, p) && k < |Chain(p)|
    ensures InWindow(p, k) ==> HasAssets(blobs, Chain(p)[k])
  {
    assert StoredAt(blobs, p, k);
  }

  /** A commit, if there is one, puts nothing back into the window whose assets are gone. */
  ghost predicate ReopensOnlyHeld(env: Env, s: GateState, branch: string, entry: Entry, files: ReleaseFiles, date: int) {
    Commits(env, s, branch, entry, date) ==>
      ReopenedHeld(HeadSet(env, s, branch, entry, files, date).blobs, EnsureBranch(env, s, branch, date).refs[branch])
  }

  lemma FirstAtHead(p: Release)
    requires p.trimAfter > 0
    ensures forall k :: InWindow(p, k) <==> 0 <= k < |Chain(p)| && k <= p.trimAfter
  {
  }

  /** Raising the length after a trim: the next head's window reaches a release whose
    * index may be gone, and the walk would open it. */
  lemma RaisedLengthBreaksTheWalk(blobs: set<StoreID>, p: Release, index: Index, actions: seq<Action>, files: ReleaseFiles, date: int)
    requires !TrimStaysInside(p)
    requires IndexBlob(Chain(p)[p.config.autoTrimLength].index) !in blobs
    ensures !Intact(blobs, Grow(p, index, actions, files, date))
  {
    var c := Grow(p, index, actions, files, date);
    var n := p.config.autoTrimLength;
    GrowChain(p, index, actions, files, date);
    ChildWindow(c, p, n);
    assert InWindow(c, n + 1) && Chain(c)[n + 1] == Chain(p)[n];
  }

  /** A sweep leaves no index that no window shows. */
  lemma UnseenIsSwept(blobs: set<StoreID>, refs: map<string, Release>, index: Index)
    requires forall n, k :: n in refs && InWindow(refs[n], k) ==> Chain(refs[n])[k].index != index
    ensures IndexBlob(index) !in Swept(blobs, refs)
  {
    hide Assets, InWindow;
    if IndexBlob(index) in Swept(blobs, refs) {
      var n :| n in refs && Keeps(blobs, refs[n], IndexBlob(index));
      var k :| k >= 0 && KeepsAt(blobs, refs[n], k, IndexBlob(index));
      KeepsInChain(blobs, refs[n], k, IndexBlob(index));
      OnlyOneIndex(blobs, Chain(refs[n])[k], IndexBlob(index));
    }
  }

  lemma GrowMarks(p: Release, index: Index, actions: seq<Action>, files: ReleaseFiles, date: int)
    requires p.trimAfter == 0 ==> Untrimmed(p)
    ensures var c := Grow(p, index, actions, files, date);
            (c.trimAfter == 0 ==> Untrimmed(c)) && (TrimStaysInside(p) ==> Covered(c, p))
  {
    GrowChain(p, index, actions, files, date);
    CoveredIff(p, index, actions, files, date);
  }

  /** On top of a trimmed head `h`, `config` asks for no longer a history than `h` has. */
  predicate LengthAllowed(h: Release, config: Config) {
    h.trimAfter > 0 && config.autoTrim ==> config.autoTrimLength <= h.trimAfter
  }

  /** A caller who sets only allowed lengths keeps every later trim inside. */
  lemma AllowedStaysInside(p: Release, index: Index, actions: seq<Action>, files: ReleaseFiles, date: int)
    requires (p.trimAfter == 0 ==> Untrimmed(p)) && LengthAllowed(p, p.config)
    ensures TrimStaysInside(p)
    ensures var c := Grow(p, index, actions, files, date);
            LengthAllowed(c, c.config) && TrimStaysInside(c)
    ensures forall config: Config :: LengthAllowed(p, config) ==>
              var c := ConfigChild(p, config, actions, files, date);
              LengthAllowed(c, c.config) && TrimStaysInside(c)
  {
    GrowChain(p, index, actions, files, date);
    AllowedIsInside(p);
    GrowMarks(p, index, actions, files, date);
    AllowedIsInside(Grow(p, index, actions, files, date));
    forall config: Config | LengthAllowed(p, config)
      ensures var c := ConfigChild(p, config, actions, files, date);
              LengthAllowed(c, c.config) && TrimStaysInside(c)
    {
      ConfigMarks(p, config, actions, files, date);
      AllowedIsInside(ConfigChild(p, config, actions, files, date));
    }
  }

  lemma AllowedIsInside(p: Release)
    requires (p.trimAfter == 0 ==> Untrimmed(p)) && LengthAllowed(p, p.config)
    ensures TrimStaysInside(p)
  {
    if p.trimAfter > 0 {
      FirstAtHead(p);
    }
  }

  lemma ConfigMarks(p: Release, config: Config, actions: seq<Action>, files: ReleaseFiles, date: int)
    requires p.trimAfter == 0 ==> Untrimmed(p)
    ensures var c := ConfigChild(p, config, actions, files, date);
            Covered(c, p) && (c.trimAfter == 0 ==> Untrimmed(c))
  {
    var c := ConfigChild(p, config, actions, files, date);
    assert Chain(c) == [c] + Chain(p);
    forall k | k >= 0 && InWindow(c, k + 1) ensures InWindow(p, k) {
      ChildWindow(c, p, k);
      if p.trimAfter > 0 {
        FirstAtHead(p);
      }
    }
  }
}
