/** Each step on the archive keeps the invariant, and AddUpload as it runs. */
module ArchiveSteps {
  import opened ReleaseIndex
  import opened Prune
  import opened Merge
  import opened MergeLaws
  import opened History
  import opened Trim
  import opened Collector
  import opened ArchiveStore
  import opened Archive

  // -------------------------------------------------------------- building blocks

  lemma BlobsKeepGood(s: GateState, more: set<StoreID>)
    requires GoodStore(s)
    ensures GoodStore(s.(blobs := s.blobs + more))
  {
    forall n | n in s.refs ensures GoodHead(s.blobs + more, n, s.refs[n]) {
      assert GoodHead(s.blobs, n, s.refs[n]);
      StoredGrows(s.blobs, s.blobs + more, s.refs[n]);
    }
  }

  lemma RootIsGood(s: GateState, name: string, config: Config, date: int)
    requires GoodStore(s) && config.signingKeyID == NoAsset && config.publicKeyIDs == []
    ensures GoodStore(AddRoot(s, name, config, date))
  {
    var s' := AddRoot(s, name, config, date);
    var root := Root(name, config, date);
    BlobsKeepGood(s, {ConfigBlob(config), EMPTY_FILE, ReleaseBlob(root)});
    assert Chain(root) == [root];
    assert Assets(s'.blobs, root) <= {Blob(NoAsset), ConfigBlob(config), EMPTY_FILE};
    assert StoredAt(s'.blobs, root, 0);
    assert GoodHead(s'.blobs, name, root);
    forall n | n in s'.refs ensures GoodHead(s'.blobs, n, s'.refs[n]) {
      if n != name {
        assert GoodHead(s.blobs + {ConfigBlob(config), EMPTY_FILE, ReleaseBlob(root)}, n, s.refs[n]);
      }
    }
  }

  lemma OthersStayGood(s: GateState, name: string, c: Release, others: set<StoreID>, n: string)
    requires GoodStore(s) && n in s.refs && n != name
    ensures n in AddHead(s, name, c, others).refs
    ensures GoodHead(AddHead(s, name, c, others).blobs, n, AddHead(s, name, c, others).refs[n])
  {
    BlobsKeepGood(s, others + {ReleaseBlob(c)});
    assert AddHead(s, name, c, others).blobs == s.blobs + (others + {ReleaseBlob(c)});
    assert GoodHead(s.blobs + (others + {ReleaseBlob(c)}), n, s.refs[n]);
  }

  lemma ChildIsGoodIff(s: GateState, name: string, c: Release, blobs: set<StoreID>)
    requires GoodStore(s) && name in s.refs && s.blobs <= blobs
    requires var p := s.refs[name];
             c.parent == Parent(p) && c.codeName == p.codeName && (c.trimAfter == 0 ==> Untrimmed(c))
    requires ReleaseBlob(c) in blobs && HasAssets(blobs, c)
    ensures GoodHead(blobs, name, c) <==> Held(blobs, c, s.refs[name])
    ensures Covered(c, s.refs[name]) ==> Held(blobs, c, s.refs[name])
  {
    hide HasAssets, Held, Stored, Covered, Untrimmed;
    var p := s.refs[name];
    assert GoodHead(s.blobs, name, p);
    StoredChild(s.blobs, blobs, p, c);
    assert Chain(c) == [c] + Chain(p);
    assert p == Chain(p)[0];
  }

  /** A child of a good head, stored with all it uses, makes a good head iff what its
    * window reaches is there. */
  lemma HeadIsGood(s: GateState, name: string, c: Release, others: set<StoreID>)
    requires GoodStore(s) && name in s.refs
    requires var p := s.refs[name];
             c.parent == Parent(p) && c.codeName == p.codeName && (c.trimAfter == 0 ==> Untrimmed(c))
    requires HasAssets(s.blobs + others, c)
    ensures var s' := AddHead(s, name, c, others);
            && (GoodStore(s') <==> Held(s'.blobs, c, s.refs[name]))
            && (Covered(c, s.refs[name]) ==> GoodStore(s'))
  {
    hide GoodHead, HasAssets, Held, Covered, Untrimmed;
    var s' := AddHead(s, name, c, others);
    MoreBlobs(s.blobs + others, s'.blobs, c);
    ChildIsGoodIff(s, name, c, s'.blobs);
    assert name in s'.refs && s'.refs[name] == c && s'.refs.Keys == s.refs.Keys;
    assert GoodStore(s') ==> GoodHead(s'.blobs, name, s'.refs[name]);
    forall n | n in s.refs && n != name ensures n in s'.refs && GoodHead(s'.blobs, n, s'.refs[n]) {
      OthersStayGood(s, name, c, others, n);
    }
  }

  /** What the head of a good store uses is there. */
  lemma HeadHasAssets(s: GateState, name: string)
    requires GoodStore(s) && name in s.refs
    ensures HasAssets(s.blobs, s.refs[name]) && ConfigBlob(s.refs[name].config) in s.blobs
  {
    var h := s.refs[name];
    assert GoodHead(s.blobs, name, h);
    assert StoredAt(s.blobs, h, 0);
    assert InWindow(h, 0);
    assert ConfigBlob(h.config) in Assets(s.blobs, h);
  }

  lemma AssetsOf(blobs: set<StoreID>, c: Release)
    requires FileAssets(c) <= blobs + {Blob(NoAsset)}
    requires ConfigBlob(c.config) in blobs && (set k | k in KeyIDs(c.config) :: Blob(k)) <= blobs + {Blob(NoAsset)}
    requires IndexBlob(c.index) in blobs && IndexAssets(c.index) <= blobs + {Blob(NoAsset)}
    ensures HasAssets(blobs, c)
  {
  }

  lemma ConfigOf(blobs: set<StoreID>, r: Release)
    requires HasAssets(blobs, r) && ConfigBlob(r.config) in blobs
    ensures (set k | k in KeyIDs(r.config) :: Blob(k)) <= blobs + {Blob(NoAsset)}
    ensures IndexBlob(r.index) in blobs && IndexAssets(r.index) <= blobs + {Blob(NoAsset)}
  {
  }

  lemma FilesOf(r: Release, files: ReleaseFiles)
    ensures FileAssets(WithFiles(r, files)) <= FilesBlobs(files) + {Blob(NoAsset)}
  {
  }

  /** An index made of old entries and one more uses nothing else. */
  lemma MergedAssets(blobs: set<StoreID>, before: Index, merged: Index, e: Entry)
    requires IndexAssets(before) <= blobs + {Blob(NoAsset)} && EntryAssets(e) <= blobs + {Blob(NoAsset)}
    requires forall f <- merged :: f in before || f == e
    ensures IndexAssets(merged) <= blobs + {Blob(NoAsset)}
  {
  }

  // --------------------------------------------------------------------- the steps

  lemma CreateKeeps(env: Env, s: GateState, name: string, files: ReleaseFiles, date: int)
    requires env.Usable() && GoodStore(s)
    ensures GoodStore(CreateDist(env, s, name, files, date))
  {
    hide FileAssets, FilesBlobs, IndexAssets, GoodHead, HasAssets;
    var s1 := AddRoot(s, name, env.defaultConfig, date);
    RootIsGood(s, name, env.defaultConfig, date);
    var root, c := s1.refs[name], Grow(s1.refs[name], [], [], files, date);
    HeadHasAssets(s1, name);
    RootChild(env, root, files, date);
    var blobs := s1.blobs + FilesBlobs(files);
    MoreBlobs(s1.blobs, blobs, root);
    ConfigOf(blobs, root);
    AssetsOf(blobs, c);
    HeadIsGood(s1, name, c, FilesBlobs(files));
  }

  lemma RootChild(env: Env, root: Release, files: ReleaseFiles, date: int)
    requires root == Root(root.codeName, root.config, root.date)
    ensures var c := Grow(root, [], [], files, date);
            && c.parent == Parent(root) && c.codeName == root.codeName && c.config == root.config && c.index == []
            && Covered(c, root) && (c.trimAfter == 0 ==> Untrimmed(c))
            && FileAssets(c) <= FilesBlobs(files) + {Blob(NoAsset)}
  {
    assert Chain(root) == [root];
    GrowMarks(root, [], [], files, date);
    GrowChain(root, [], [], files, date);
    GrowFiles(root, [], [], files, date);
  }

  lemma GrowFiles(p: Release, index: Index, actions: seq<Action>, files: ReleaseFiles, date: int)
    ensures var c := Grow(p, index, actions, files, date);
            c.parent == Parent(p) && FileAssets(c) <= FilesBlobs(files) + {Blob(NoAsset)}
  {
  }

  lemma ReconfigureKeeps(s: GateState, name: string, config: Config, actions: seq<Action>, files: ReleaseFiles, date: int)
    requires GoodStore(s) && name in s.refs
    ensures GoodStore(Reconfigure(s, name, config, actions, files, date))
  {
    hide FileAssets, FilesBlobs, IndexAssets, HasAssets;
    var p := s.refs[name];
    var c := ConfigChild(p, config, actions, files, date);
    assert GoodHead(s.blobs, name, p);
    ConfigMarks(p, config, actions, files, date);
    FilesOf(NewChild(p, date).(config := config, actions := actions), files);
    HeadHasAssets(s, name);
    var others := FilesBlobs(files) + KeyBlobs(config) + {ConfigBlob(config)};
    MoreBlobs(s.blobs, s.blobs + others, p);
    ConfigOf(s.blobs + others, p);
    AssetsOf(s.blobs + others, c);
    HeadIsGood(s, name, c, others);
  }

  lemma DeleteKeeps(s: GateState, name: string)
    requires GoodStore(s)
    ensures GoodStore(DeleteDist(s, name))
  {
  }

  /** What AddUpload needs of an entry: all it refers to is stored. */
  predicate UsableEntry(blobs: set<StoreID>, e: Entry) {
    EntryAssets(e) <= blobs + {Blob(NoAsset)}
  }

  lemma MergeKeeps(env: Env, s: GateState, branch: string, entry: Entry, date: int)
    requires env.Usable() && GoodStore(s)
    ensures GoodStore(MergedIn(env, s, branch, entry, date))
  {
    hide GoodStore, MergeOf;
    var s1 := EnsureBranch(env, s, branch, date);
    if branch !in s.refs {
      RootIsGood(s, branch, env.defaultConfig, date);
    }
    BlobsKeepGood(s1, {IndexBlob(MergeOf(RulesOf(env, s1.refs[branch]), s1.refs[branch].index, entry))});
  }

  /** Setting the new head keeps the state good iff the releases that come back into the
    * window still have their assets. */
  lemma HeadSetKeeps(env: Env, s: GateState, branch: string, entry: Entry, files: ReleaseFiles, date: int)
    requires env.Usable() && GoodStore(s) && UsableEntry(s.blobs, entry)
    ensures var s', p := HeadSet(env, s, branch, entry, files, date), EnsureBranch(env, s, branch, date).refs[branch];
            GoodStore(s') <==> ReopenedHeld(s'.blobs, p)
  {
    hide FileAssets, FilesBlobs, IndexAssets, EntryAssets, HasAssets, MergeOf, MergeLog, Held, ReopenedHeld, Untrimmed, Assets, Grow, Stored;
    var s2 := MergedIn(env, s, branch, entry, date);
    MergeKeeps(env, s, branch, entry, date);
    var head := s2.refs[branch];
    var rs := RulesOf(env, head);
    var merged, log := MergeOf(rs, head.index, entry), MergeLog(rs, head.index, entry);
    assert GoodHead(s2.blobs, branch, head);
    MergedFrom(rs, head.index, entry);
    GrowMarks(head, merged, log, files, date);
    GrowChain(head, merged, log, files, date);
    GrowFiles(head, merged, log, files, date);
    HeadHasAssets(s2, branch);
    var blobs := s2.blobs + FilesBlobs(files);
    MoreBlobs(s2.blobs, blobs, head);
    ConfigOf(blobs, head);
    MergedAssets(blobs, head.index, merged, entry);
    AssetsOf(blobs, Grow(head, merged, log, files, date));
    HeadIsGood(s2, branch, Grow(head, merged, log, files, date), FilesBlobs(files));
    var after := HeadSet(env, s, branch, entry, files, date).blobs;
    StoredGrows(s2.blobs, after, head);
    HeldIff(after, head, merged, log, files, date);
  }

  lemma UploadKeeps(env: Env, s: GateState, branch: string, entry: Entry, files: ReleaseFiles, date: int)
    requires env.Usable() && GoodStore(s) && UsableEntry(s.blobs, entry)
    requires ReopensOnlyHeld(env, s, branch, entry, files, date)
    ensures GoodStore(AfterUpload(env, s, branch, entry, files, date))
  {
    hide MergedIn, HeadSet, Commits, GoodHead, ReopenedHeld;
    MergeKeeps(env, s, branch, entry, date);
    if Commits(env, s, branch, entry, date) {
      HeadSetKeeps(env, s, branch, entry, files, date);
      SettleKeeps(HeadSet(env, s, branch, entry, files, date).(runGC := true));
    }
  }

  /** Theorem: that is the exact condition. While a session holds the collector off, an
    * upload keeps the state good iff a commit reopens only what is held. */
  lemma UploadKeepsIff(env: Env, s: GateState, branch: string, entry: Entry, files: ReleaseFiles, date: int)
    requires env.Usable() && GoodStore(s) && UsableEntry(s.blobs, entry) && s.lockCount > 0
    ensures GoodStore(AfterUpload(env, s, branch, entry, files, date)) <==>
            ReopensOnlyHeld(env, s, branch, entry, files, date)
  {
    hide Commits, GoodHead, ReopenedHeld, Grow, MergeOf, MergeLog;
    MergeKeeps(env, s, branch, entry, date);
    if Commits(env, s, branch, entry, date) {
      HeadSetKeeps(env, s, branch, entry, files, date);
    }
  }

  /** In particular when its trim stays inside the window of the head. */
  lemma InsideIsEnough(env: Env, s: GateState, branch: string, entry: Entry, files: ReleaseFiles, date: int)
    requires TrimStaysInside(EnsureBranch(env, s, branch, date).refs[branch])
    ensures ReopensOnlyHeld(env, s, branch, entry, files, date)
  {
    hide HeadSet, Commits, TrimStaysInside, Reopens;
    InsideReopensNothing(EnsureBranch(env, s, branch, date).refs[branch]);
  }

  // ---------------------------------------------------------------- AddUpload, run

  /** The merge that AddUpload would do does not hit a package without a rule. */
  predicate MergePanics(env: Env, s: GateState, branch: string, entry: Entry) {
    var es := if branch in s.refs then s.refs[branch].index else [];
    var rules := env.parseRules((if branch in s.refs then s.refs[branch].config else env.defaultConfig).pruneRules);
    PanicsFrom(rules, START, Insert(es, entry))
  }

  lemma ReadableToTheRoot(s: GateState, branch: string, date: int, n: int)
    requires GoodStore(s) && branch in s.refs
    ensures TrimReadable(s.blobs, NewChild(s.refs[branch], date), n)
    ensures ReleaseBlob(s.refs[branch]) in s.blobs
  {
    var h := s.refs[branch];
    assert GoodHead(s.blobs, branch, h);
    assert Ancestors(NewChild(h, date)) == Chain(h);
    forall k | 0 <= k < |Chain(h)| ensures ReleaseBlob(Chain(h)[k]) in s.blobs {
      assert StoredAt(s.blobs, h, k);
    }
  }

  /** AddUpload on a good store neither fails nor meets a missing object. */
  method AddUpload(store: ArchiveBlobStore, env: Env, branch: string, entry: Entry, files: ReleaseFiles, date: int)
    returns (ok: bool)
    requires env.Usable() && GoodStore(store.State()) && UsableEntry(store.blobs, entry)
    requires !MergePanics(env, store.State(), branch, entry)
    requires ReopensOnlyHeld(env, store.State(), branch, entry, files, date)
    modifies store
    ensures ok
    ensures store.State() == AfterUpload(env, old(store.State()), branch, entry, files, date)
    ensures GoodStore(store.State())
  {
    hide GoodStore, UsableEntry, MergeOf, MergeLog, Grow, FilesBlobs, RealChange, GateState.Settle, AllIntact, Orderly, TrimReadable;
    ghost var s0 := store.State();
    UploadKeeps(env, s0, branch, entry, files, date);
    if branch !in store.refs {
      var root := Root(branch, env.defaultConfig, date);
      store.blobs := store.blobs + {ConfigBlob(env.defaultConfig), EMPTY_FILE, ReleaseBlob(root)};
      store.refs := store.refs[branch := root];
    }
    assert store.State() == EnsureBranch(env, s0, branch, date);
    var head := store.refs[branch];
    var rules := RulesOf(env, head);
    var newidx, actions := MergeEntryIntoRelease(rules, head.index, entry);
    MergeIsKept(rules, head.index, entry);
    store.blobs := store.blobs + {IndexBlob(newidx)};
    assert store.State() == MergedIn(env, s0, branch, entry, date);
    MergeKeeps(env, s0, branch, entry, date);
    var realchange := FindRealChange(actions);
    if !realchange {
      return true;
    }
    ReadableToTheRoot(store.State(), branch, date, head.config.autoTrimLength);
    HeadHasAssets(store.State(), branch);
    var made, newhead := NewRelease(store.blobs, head, newidx, actions, files, date);
    if !made {
      return false;
    }
    store.blobs := store.blobs + FilesBlobs(files) + {ReleaseBlob(newhead)};
    store.refs := store.refs[branch := newhead];
    assert store.State() == HeadSet(env, s0, branch, entry, files, date);
    HeadSetKeeps(env, s0, branch, entry, files, date);
    GoodIsIntact(store.State());
    GoodIsOrderly(store.State());
    store.GarbageCollect();
    return true;
  }

  lemma MergeIsKept(rs: RuleSet, es: Index, e: Entry)
    ensures Kept(rs, Insert(es, e)) == MergeOf(rs, es, e)
  {
  }
}
