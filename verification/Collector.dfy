/** The mark phase of the garbage collector (archivestore.go, gcWalk*). */
module Collector {
  import opened ReleaseIndex
  import opened History

  // -------------------------------------------------------- what a release uses

  function ItemAssets(item: Item): set<StoreID> {
    {Blob(item.controlID)} + set f | f in item.files :: Blob(f.storeID)
  }

  function EntryAssets(e: Entry): set<StoreID> {
    {Blob(e.changesID)} + ItemAssets(e.sourceItem) + ItemsAssets(e.binaryItems)
  }

  function ItemsAssets(items: seq<Item>): set<StoreID> {
    set item, x | item in items && x in ItemAssets(item) :: x
  }

  function IndexAssets(es: Index): set<StoreID> {
    set e, x | e in es && x in EntryAssets(e) :: x
  }

  function KeyIDs(c: Config): set<AssetID> {
    {c.signingKeyID} + set k | k in c.publicKeyIDs
  }

  /** A config that is not in the store reads as one without keys. */
  function ConfigAssets(blobs: set<StoreID>, c: Config): set<StoreID> {
    {ConfigBlob(c)} + if ConfigBlob(c) in blobs then set k | k in KeyIDs(c) :: Blob(k) else {Blob(NoAsset)}
  }

  function ComponentAssets(c: Component): set<StoreID> {
    {Blob(c.sourcesGz)} + set p | p in c.packagesGz :: Blob(p)
  }

  function FileAssets(r: Release): set<StoreID> {
    {Blob(r.inRelease), Blob(r.releaseFile), Blob(r.releaseGPG)}
    + ComponentsAssets(r.components)
  }

  function ComponentsAssets(cs: seq<Component>): set<StoreID> {
    set c, x | c in cs && x in ComponentAssets(c) :: x
  }

  /** All a release refers to, save its parent. */
  function Assets(blobs: set<StoreID>, r: Release): set<StoreID> {
    FileAssets(r) + ConfigAssets(blobs, r.config) + {IndexBlob(r.index)} + IndexAssets(r.index)
  }

  // ------------------------------------------------ the same, over the fields

  predicate ItemNames(item: Item, id: AssetID) {
    id == item.controlID || exists f <- item.files :: id == f.storeID
  }

  predicate EntryNames(e: Entry, id: AssetID) {
    id == e.changesID || ItemNames(e.sourceItem, id) || exists b <- e.binaryItems :: ItemNames(b, id)
  }

  predicate ConfigNames(blobs: set<StoreID>, c: Config, id: AssetID) {
    if ConfigBlob(c) in blobs then id == c.signingKeyID || id in c.publicKeyIDs else id == NoAsset
  }

  predicate FilesName(r: Release, id: AssetID) {
    id == r.inRelease || id == r.releaseFile || id == r.releaseGPG ||
    exists c <- r.components :: id == c.sourcesGz || id in c.packagesGz
  }

  /** A release names the asset `id` by one of its fields, one of its config if that can
    * be read, or one of an entry of its index. */
  predicate Names(blobs: set<StoreID>, r: Release, id: AssetID) {
    FilesName(r, id) || ConfigNames(blobs, r.config, id) || exists e <- r.index :: EntryNames(e, id)
  }

  /** Theorem: what a release uses is its index, its config and the ids in these fields. */
  lemma AssetsOverFields(blobs: set<StoreID>, r: Release, x: StoreID)
    ensures x in Assets(blobs, r) <==>
              match x
              case IndexBlob(es) => es == r.index
              case ConfigBlob(c) => c == r.config
              case ReleaseBlob(_) => false
              case Blob(id) =>
                || id == r.inRelease || id == r.releaseFile || id == r.releaseGPG
                || (exists c <- r.components :: id == c.sourcesGz || id in c.packagesGz)
                || (if ConfigBlob(r.config) in blobs then id == r.config.signingKeyID || id in r.config.publicKeyIDs else id == NoAsset)
                || exists e <- r.index ::
                     || id == e.changesID || id == e.sourceItem.controlID
                     || (exists f <- e.sourceItem.files :: id == f.storeID)
                     || exists b <- e.binaryItems :: id == b.controlID || exists f <- b.files :: id == f.storeID
    ensures x.Blob? ==> (x in Assets(blobs, r) <==> Names(blobs, r, x.asset))
  {
    hide FileAssets, IndexAssets, ConfigAssets;
    FileFields(r, x);
    IndexFields(r.index, x);
    ConfigFields(blobs, r.config, x);
  }

  lemma FileFields(r: Release, x: StoreID)
    ensures x in FileAssets(r) <==> x.Blob? && FilesName(r, x.asset)
  {
    forall c | c in r.components
      ensures x in ComponentAssets(c) <==> x.Blob? && (x.asset == c.sourcesGz || x.asset in c.packagesGz)
    {
    }
  }

  lemma ConfigFields(blobs: set<StoreID>, c: Config, x: StoreID)
    ensures x in ConfigAssets(blobs, c) <==> x == ConfigBlob(c) || (x.Blob? && ConfigNames(blobs, c, x.asset))
  {
  }

  lemma ItemFields(item: Item, x: StoreID)
    ensures x in ItemAssets(item) <==> x.Blob? && ItemNames(item, x.asset)
  {
  }

  lemma EntryFields(e: Entry, x: StoreID)
    ensures x in EntryAssets(e) <==> x.Blob? && EntryNames(e, x.asset)
  {
    hide ItemAssets, ItemNames;
    ItemFields(e.sourceItem, x);
    forall b | b in e.binaryItems ensures x in ItemAssets(b) <==> x.Blob? && ItemNames(b, x.asset) {
      ItemFields(b, x);
    }
  }

  lemma IndexFields(es: Index, x: StoreID)
    ensures x in IndexAssets(es) <==> x.Blob? && exists e <- es :: EntryNames(e, x.asset)
  {
    hide EntryAssets, EntryNames;
    forall e | e in es ensures x in EntryAssets(e) <==> x.Blob? && EntryNames(e, x.asset) {
      EntryFields(e, x);
    }
  }

  // ------------------------------------------------------- what a ref keeps alive

  /** `x` is what depth `k` of the chain of `h` keeps. */
  ghost predicate KeepsAt(blobs: set<StoreID>, h: Release, k: int, x: StoreID) {
    0 <= k < |Chain(h)| && (x == ReleaseBlob(Chain(h)[k]) || (InWindow(h, k) && x in Assets(blobs, Chain(h)[k])))
  }

  /** Reachable from `h` at depth `from` or below: each release object, and the
    * assets of those inside the window. */
  ghost predicate KeepsFrom(blobs: set<StoreID>, h: Release, from: int, x: StoreID) {
    exists k :: k >= from && KeepsAt(blobs, h, k, x)
  }

  ghost predicate Keeps(blobs: set<StoreID>, h: Release, x: StoreID) {
    KeepsFrom(blobs, h, 0, x)
  }

  /** The objects the walk opens without looking at the error are there. */
  ghost predicate Intact(blobs: set<StoreID>, h: Release) {
    forall k :: 0 <= k < |Chain(h)| ==>
      ReleaseBlob(Chain(h)[k]) in blobs && (InWindow(h, k) ==> IndexBlob(Chain(h)[k].index) in blobs)
  }

  /** A marked index is marked with all it lists. */
  ghost predicate IndexClosed(used: set<StoreID>) {
    forall es: Index :: IndexBlob(es) in used ==> IndexAssets(es) <= used
  }

  /** The walk from `h` gets to depth `k`: no release on the way was marked before. */
  ghost predicate Reached(used: set<StoreID>, h: Release, k: int) {
    0 <= k < |Chain(h)| && forall i :: 0 < i <= k ==> ReleaseBlob(Chain(h)[i]) !in used
  }

  /** Where earlier walks have been on the chain of `h`, they have left nothing to do. */
  ghost predicate Settled(blobs: set<StoreID>, used: set<StoreID>, h: Release) {
    forall k, x :: 0 < k < |Chain(h)| && ReleaseBlob(Chain(h)[k]) in used && KeepsFrom(blobs, h, k, x) ==> x in used
  }

  // --------------------------------------------------------------- the mark phase

  method GcWalkReleaseConfig(blobs: set<StoreID>, used0: set<StoreID>, config: Config) returns (used: set<StoreID>)
    ensures used == used0 + ConfigAssets(blobs, config)
  {
    used := used0 + {ConfigBlob(config)};
    if ConfigBlob(config) in blobs {
      used := used + {Blob(config.signingKeyID)};
      for i := 0 to |config.publicKeyIDs|
        invariant used == used0 + {ConfigBlob(config), Blob(config.signingKeyID)} +
                          set j | 0 <= j < i :: Blob(config.publicKeyIDs[j])
      {
        used := used + {Blob(config.publicKeyIDs[i])};
      }
    } else {
      used := used + {Blob(NoAsset)};
    }
  }

  method GcWalkReleaseIndexEntryItem(used0: set<StoreID>, item: Item) returns (used: set<StoreID>)
    ensures used == used0 + ItemAssets(item)
  {
    used := used0 + {Blob(item.controlID)};
    for i := 0 to |item.files|
      invariant used == used0 + {Blob(item.controlID)} + set j | 0 <= j < i :: Blob(item.files[j].storeID)
    {
      used := used + {Blob(item.files[i].storeID)};
    }
    assert forall j :: 0 <= j < |item.files| ==> item.files[j] in item.files;
  }

  lemma OneMoreItem(items: seq<Item>, i: nat)
    requires i < |items|
    ensures ItemsAssets(items[..i + 1]) == ItemsAssets(items[..i]) + ItemAssets(items[i])
  {
  }

  lemma OneMoreEntry(es: Index, i: nat)
    requires i < |es|
    ensures IndexAssets(es[..i + 1]) == IndexAssets(es[..i]) + EntryAssets(es[i])
  {
  }

  lemma OneMoreComponent(cs: seq<Component>, i: nat)
    requires i < |cs|
    ensures ComponentsAssets(cs[..i + 1]) == ComponentsAssets(cs[..i]) + ComponentAssets(cs[i])
  {
  }

  method GcWalkReleaseIndex(blobs: set<StoreID>, used0: set<StoreID>, es: Index) returns (used: set<StoreID>)
    requires IndexBlob(es) in blobs
    ensures used == used0 + {IndexBlob(es)} + IndexAssets(es)
  {
    hide ItemsAssets, ItemAssets, IndexAssets;
    used := used0 + {IndexBlob(es)};
    assert IndexAssets([]) == {} by { IndexOfNothing(); }
    for i := 0 to |es|
      invariant used == used0 + {IndexBlob(es)} + IndexAssets(es[..i])
    {
      var entry := es[i];
      OneMoreEntry(es, i);
      used := used + {Blob(entry.changesID)};
      used := GcWalkReleaseIndexEntryItem(used, entry.sourceItem);
      used := GcWalkItems(used, entry.binaryItems);
    }
    assert es[..|es|] == es;
  }

  lemma IndexOfNothing()
    ensures IndexAssets([]) == {}
  {
  }

  /** The inner loop over the binary items of an entry. */
  method GcWalkItems(used0: set<StoreID>, items: seq<Item>) returns (used: set<StoreID>)
    ensures used == used0 + ItemsAssets(items)
  {
    used := used0;
    for j := 0 to |items|
      invariant used == used0 + ItemsAssets(items[..j])
    {
      OneMoreItem(items, j);
      used := GcWalkReleaseIndexEntryItem(used, items[j]);
    }
    assert items[..|items|] == items;
  }

  method GcWalkComponents(used0: set<StoreID>, cs: seq<Component>) returns (used: set<StoreID>)
    ensures used == used0 + ComponentsAssets(cs)
  {
    hide ComponentsAssets;
    used := used0;
    assert ComponentsAssets([]) == {} by { ComponentsOfNothing(); }
    for i := 0 to |cs|
      invariant used == used0 + ComponentsAssets(cs[..i])
    {
      OneMoreComponent(cs, i);
      var comp := cs[i];
      used := used + {Blob(comp.sourcesGz)};
      used := GcWalkArchitectures(used, comp.packagesGz);
    }
    assert cs[..|cs|] == cs;
  }

  lemma ComponentsOfNothing()
    ensures ComponentsAssets([]) == {}
  {
  }

  /** The inner loop over the architectures of a component. */
  method GcWalkArchitectures(used0: set<StoreID>, packagesGz: seq<AssetID>) returns (used: set<StoreID>)
    ensures used == used0 + set p | p in packagesGz :: Blob(p)
  {
    used := used0;
    for j := 0 to |packagesGz|
      invariant used == used0 + set p | p in packagesGz[..j] :: Blob(p)
    {
      assert packagesGz[..j + 1] == packagesGz[..j] + [packagesGz[j]];
      used := used + {Blob(packagesGz[j])};
    }
    assert packagesGz[..|packagesGz|] == packagesGz;
  }

  // ------------------------------------------------------------ walking one chain

  lemma OnlyOneIndex(blobs: set<StoreID>, r: Release, x: StoreID)
    requires x in Assets(blobs, r)
    ensures !x.ReleaseBlob? && (x.IndexBlob? ==> x == IndexBlob(r.index))
  {
    hide FileAssets, IndexAssets, ConfigAssets;
    FilesAreBlobs(r);
    IndexedAreBlobs(r.index);
    ConfigIsNoIndex(blobs, r.config);
  }

  lemma FilesAreBlobs(r: Release)
    ensures forall x <- FileAssets(r) :: x.Blob?
  {
  }

  lemma IndexedAreBlobs(es: Index)
    ensures forall x <- IndexAssets(es) :: x.Blob?
  {
  }

  lemma ConfigIsNoIndex(blobs: set<StoreID>, c: Config)
    ensures forall x <- ConfigAssets(blobs, c) :: x.Blob? || x.ConfigBlob?
  {
  }

  lemma AssetsKeepClosed(blobs: set<StoreID>, used: set<StoreID>, r: Release)
    requires IndexClosed(used)
    ensures IndexClosed(used + {ReleaseBlob(r)})
    ensures IndexClosed(used + {ReleaseBlob(r)} + Assets(blobs, r))
  {
    forall es: Index | IndexBlob(es) in used + {ReleaseBlob(r)} + Assets(blobs, r) && IndexBlob(es) !in used
      ensures es == r.index
    {
      OnlyOneIndex(blobs, r, IndexBlob(es));
    }
  }

  /** One turn of the walk: mark the release and, unless dropped, its assets. */
  method GcMarkRelease(blobs: set<StoreID>, used0: set<StoreID>, release: Release, dropAssets: bool)
    returns (used: set<StoreID>)
    requires IndexClosed(used0)
    requires ReleaseBlob(release) in blobs && (!dropAssets ==> IndexBlob(release.index) in blobs)
    ensures used == used0 + {ReleaseBlob(release)} + if dropAssets then {} else Assets(blobs, release)
    ensures IndexClosed(used)
  {
    hide IndexClosed, ConfigAssets, ComponentsAssets, IndexAssets;
    used := used0 + {ReleaseBlob(release)};
    AssetsKeepClosed(blobs, used0, release);
    if !dropAssets {
      used := used + {Blob(release.inRelease)};
      used := used + {Blob(release.releaseFile)};
      used := used + {Blob(release.releaseGPG)};
      used := GcWalkReleaseConfig(blobs, used, release.config);
      used := GcWalkComponents(used, release.components);
      if IndexBlob(release.index) !in used {
        used := GcWalkReleaseIndex(blobs, used, release.index);
      } else {
        IndexMarkedEarlier(blobs, used0, used, release);
      }
    }
  }

  lemma IndexMarkedEarlier(blobs: set<StoreID>, used0: set<StoreID>, used: set<StoreID>, r: Release)
    requires IndexClosed(used0) && IndexBlob(r.index) in used
    requires used == used0 + {ReleaseBlob(r)} + FileAssets(r) + ConfigAssets(blobs, r.config)
    ensures IndexAssets(r.index) <= used
  {
    hide FileAssets, ConfigAssets, IndexAssets;
    FilesAreBlobs(r);
    ConfigIsNoIndex(blobs, r.config);
    assert IndexBlob(r.index) in used0;
  }

  /** The walk's three variables before its turn at depth `k`. */
  ghost predicate WalkState(h: Release, k: int, trimmerActive: bool, trimAfter: int, dropAssets: bool) {
    if trimmerActive then
      exists d :: FirstTrimmed(h, d) && d < k &&
        (if dropAssets then trimAfter == 0 && k - 1 > d + Chain(h)[d].trimAfter
         else trimAfter == d + Chain(h)[d].trimAfter - (k - 1) >= 0)
    else !dropAssets && forall i :: 0 <= i < k && i < |Chain(h)| ==> Chain(h)[i].trimAfter == 0
  }

  /** The countdown drops exactly the releases beyond the window. */
  lemma CountdownIsWindow(h: Release, k: int, trimmerActive: bool, trimAfter: int, dropAssets: bool)
    requires 0 <= k < |Chain(h)| && WalkState(h, k, trimmerActive, trimAfter, dropAssets)
    ensures var dropped := dropAssets || (trimmerActive && trimAfter <= 0);
            && (dropped <==> !InWindow(h, k))
            && WalkState(h, k + 1,
                 trimmerActive || Chain(h)[k].trimAfter > 0,
                 if trimmerActive then (if trimAfter > 0 then trimAfter - 1 else trimAfter)
                 else if Chain(h)[k].trimAfter > 0 then Chain(h)[k].trimAfter else trimAfter,
                 dropped)
  {
  }

  /** What the walk from `h` marks on top of `used0`. */
  ghost predicate Marks(blobs: set<StoreID>, used0: set<StoreID>, h: Release, x: StoreID) {
    exists k :: Reached(used0, h, k) && KeepsAt(blobs, h, k, x)
  }

  /** gcWalkRelease, given the marks `used0` of earlier walks. */
  method GcWalkRelease(blobs: set<StoreID>, used0: set<StoreID>, head: Release) returns (used: set<StoreID>)
    requires Intact(blobs, head) && IndexClosed(used0)
    ensures IndexClosed(used)
    ensures forall x :: x in used <==> x in used0 || Marks(blobs, used0, head, x)
  {
    hide WalkState, Assets, InWindow, IndexClosed, Marks, Intact;
    used := used0;
    var curr := head;
    var trimmerActive, trimAfter, dropAssets := false, 0, false;
    ghost var k := 0;
    WalkStarts(head);
    while true
      invariant 0 <= k < |Chain(head)| && curr == Chain(head)[k] && Reached(used0, head, k)
      invariant trimAfter >= 0 && WalkState(head, k, trimmerActive, trimAfter, dropAssets)
      invariant IndexClosed(used)
      invariant forall x :: x in used <==> x in used0 || exists j :: 0 <= j < k && KeepsAt(blobs, head, j, x)
      decreases |Chain(head)| - k
    {
      CountdownIsWindow(head, k, trimmerActive, trimAfter, dropAssets);
      IntactAt(blobs, head, k);
      ChainSuffix(head, k);
      if trimmerActive {
        if trimAfter > 0 {
          trimAfter := trimAfter - 1;
        } else {
          dropAssets := true;
        }
      }
      ghost var used1 := used;
      used := GcMarkRelease(blobs, used, curr, dropAssets);
      MarkedTo(blobs, used0, used1, used, head, k, dropAssets);
      if curr.parent.NoParent? {
        break;
      }
      OnlyEarlierMarks(blobs, used0, used, head, k);
      if ParentID(curr) in used {
        break;
      }
      if curr.trimAfter > 0 && !trimmerActive {
        trimAfter := curr.trimAfter;
        trimmerActive := true;
      }
      curr := curr.parent.release;
      k := k + 1;
    }
    WalkIsOver(blobs, used0, head, k);
  }

  lemma WalkStarts(h: Release)
    ensures WalkState(h, 0, false, 0, false)
  {
  }

  lemma IntactAt(blobs: set<StoreID>, h: Release, k: int)
    requires Intact(blobs, h) && 0 <= k < |Chain(h)|
    ensures ReleaseBlob(Chain(h)[k]) in blobs && (InWindow(h, k) ==> IndexBlob(Chain(h)[k].index) in blobs)
  {
  }

  lemma MarkedTo(blobs: set<StoreID>, used0: set<StoreID>, used1: set<StoreID>, used: set<StoreID>, h: Release, k: int, drop: bool)
    requires 0 <= k < |Chain(h)| && (drop <==> !InWindow(h, k))
    requires forall x :: x in used1 <==> x in used0 || exists j :: 0 <= j < k && KeepsAt(blobs, h, j, x)
    requires used == used1 + {ReleaseBlob(Chain(h)[k])} + if drop then {} else Assets(blobs, Chain(h)[k])
    ensures forall x :: x in used <==> x in used0 || exists j :: 0 <= j < k + 1 && KeepsAt(blobs, h, j, x)
  {
    hide Assets, InWindow;
    forall x ensures x in used <==> x in used1 || KeepsAt(blobs, h, k, x) {
    }
  }

  /** A parent found marked was not marked by this walk. */
  lemma OnlyEarlierMarks(blobs: set<StoreID>, used0: set<StoreID>, used: set<StoreID>, h: Release, k: int)
    requires 0 <= k && k + 1 < |Chain(h)|
    requires forall x :: x in used <==> x in used0 || exists j :: 0 <= j < k + 1 && KeepsAt(blobs, h, j, x)
    ensures ReleaseBlob(Chain(h)[k + 1]) in used <==> ReleaseBlob(Chain(h)[k + 1]) in used0
  {
    var p := ReleaseBlob(Chain(h)[k + 1]);
    forall j | 0 <= j < k + 1 ensures !KeepsAt(blobs, h, j, p) {
      ReleaseKeptAsRelease(blobs, h, j, Chain(h)[k + 1]);
      if Chain(h)[j] == Chain(h)[k + 1] {
        ChainDistinct(h, j, k + 1);
      }
    }
  }

  lemma ReleaseKeptAsRelease(blobs: set<StoreID>, h: Release, k: int, r: Release)
    requires 0 <= k < |Chain(h)|
    ensures KeepsAt(blobs, h, k, ReleaseBlob(r)) <==> r == Chain(h)[k]
  {
    if ReleaseBlob(r) in Assets(blobs, Chain(h)[k]) {
      OnlyOneIndex(blobs, Chain(h)[k], ReleaseBlob(r));
    }
  }

  lemma WalkIsOver(blobs: set<StoreID>, used0: set<StoreID>, h: Release, k: int)
    requires Reached(used0, h, k) && (k + 1 == |Chain(h)| || ReleaseBlob(Chain(h)[k + 1]) in used0)
    ensures forall x :: Marks(blobs, used0, h, x) <==> exists j :: 0 <= j < k + 1 && KeepsAt(blobs, h, j, x)
  {
  }

  /** On settled ground a walk ends with all its head keeps. */
  lemma SettledWalk(blobs: set<StoreID>, used0: set<StoreID>, h: Release, x: StoreID)
    requires Settled(blobs, used0, h)
    ensures x in used0 || Marks(blobs, used0, h, x) <==> x in used0 || Keeps(blobs, h, x)
  {
    hide KeepsAt;
    if Keeps(blobs, h, x) && x !in used0 {
      var k :| k >= 0 && KeepsAt(blobs, h, k, x);
      KeepsInChain(blobs, h, k, x);
      forall i | 0 < i <= k ensures ReleaseBlob(Chain(h)[i]) !in used0 {
        assert KeepsFrom(blobs, h, i, x);
      }
      assert Reached(used0, h, k);
    }
    if Marks(blobs, used0, h, x) {
      var k :| Reached(used0, h, k) && KeepsAt(blobs, h, k, x);
      assert Keeps(blobs, h, x);
    }
  }

  lemma KeepsInChain(blobs: set<StoreID>, h: Release, k: int, x: StoreID)
    requires KeepsAt(blobs, h, k, x)
    ensures 0 <= k < |Chain(h)|
  {
  }

  // ------------------------------------------------------------- several refs

  ghost predicate Apart(g: Release, h: Release) {
    forall i, j :: 0 <= i < |Chain(g)| && 0 <= j < |Chain(h)| ==> Chain(g)[i] != Chain(h)[j]
  }

  ghost predicate Tolerates(g: Release, h: Release) {
    Apart(g, h) || (Untrimmed(g) && Untrimmed(h))
  }

  /** After walks from `heads`, a head that tolerates them all finds settled ground. */
  lemma TolerantIsSettled(blobs: set<StoreID>, used: set<StoreID>, heads: set<Release>, h: Release)
    requires forall x :: x in used <==> exists g :: g in heads && Keeps(blobs, g, x)
    requires forall g :: g in heads ==> Tolerates(g, h)
    ensures Settled(blobs, used, h)
  {
    hide KeepsAt;
    forall k, x | 0 < k < |Chain(h)| && ReleaseBlob(Chain(h)[k]) in used && KeepsFrom(blobs, h, k, x) ensures x in used {
      var g :| g in heads && Keeps(blobs, g, ReleaseBlob(Chain(h)[k]));
      var j :| j >= 0 && KeepsAt(blobs, g, j, ReleaseBlob(Chain(h)[k]));
      KeepsInChain(blobs, g, j, ReleaseBlob(Chain(h)[k]));
      ReleaseKeptAsRelease(blobs, g, j, Chain(h)[k]);
      assert Untrimmed(g) && Untrimmed(h);
      var m :| m >= k && KeepsAt(blobs, h, m, x);
      SharedTail(blobs, g, j, h, k, m, x);
      assert Keeps(blobs, g, x);
    }
  }

  lemma SharedTail(blobs: set<StoreID>, g: Release, j: int, h: Release, k: int, m: int, x: StoreID)
    requires 0 <= j < |Chain(g)| && 0 <= k < |Chain(h)| && Chain(g)[j] == Chain(h)[k]
    requires Untrimmed(g) && m >= k && KeepsAt(blobs, h, m, x)
    ensures KeepsAt(blobs, g, j + m - k, x)
  {
    ChainSuffix(g, j);
    ChainSuffix(h, k);
    assert Chain(h)[m] == Chain(h)[k..][m - k];
    assert |Chain(g)[j..]| == |Chain(h)[k..]|;
    assert Chain(g)[j + m - k] == Chain(g)[j..][m - k];
  }

  /** Theorem: under a head trimmed to `n`, the collector keeps every release object
    * of the chain and the assets of exactly the head and its n + 1 nearest ancestors. */
  lemma TrimmedHeadKeeps(blobs: set<StoreID>, r: Release, n: nat, x: StoreID)
    requires |Ancestors(r)| >= n + 2
    ensures var h := Trimmed(r, n);
            Keeps(blobs, h, x) <==>
              exists k :: 0 <= k < |Chain(h)| && (x == ReleaseBlob(Chain(h)[k]) || (k <= n + 1 && x in Assets(blobs, Chain(h)[k])))
  {
    hide Assets, InWindow;
    var h := Trimmed(r, n);
    forall k ensures InWindow(h, k) <==> 0 <= k <= n + 1 {
      TrimmedWindow(r, n, k);
    }
    if Keeps(blobs, h, x) {
      var k :| k >= 0 && KeepsAt(blobs, h, k, x);
      assert x == ReleaseBlob(Chain(h)[k]) || (k <= n + 1 && x in Assets(blobs, Chain(h)[k]));
    }
    if k :| 0 <= k < |Chain(h)| && (x == ReleaseBlob(Chain(h)[k]) || (k <= n + 1 && x in Assets(blobs, Chain(h)[k]))) {
      assert KeepsAt(blobs, h, k, x);
    }
  }
}
