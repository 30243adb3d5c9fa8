/** Releases and their parent chains (release.go), and what a chain retains. */
module History {
  import opened DebVersions
  import opened ReleaseIndex
  import opened Merge

  datatype Config = Config(
    autoTrim: bool,
    autoTrimLength: int,
    pruneRules: string,
    signingKeyID: AssetID,
    publicKeyIDs: seq<AssetID>)

  datatype Component = Component(name: string, sourcesGz: AssetID, packagesGz: seq<AssetID>)

  datatype Parent = NoParent | Parent(release: Release)

  /** A stored release. Ids are injective in the content, so a release holds its
    * parent, index and config where the program holds their ids. */
  datatype Release = Release(
    parent: Parent,
    index: Index,
    codeName: string,
    date: int,
    components: seq<Component>,
    inRelease: AssetID,
    releaseFile: AssetID,
    releaseGPG: AssetID,
    actions: seq<Action>,
    trimAfter: nat,
    config: Config)

  /** The id of a blob, which is its content. */
  datatype StoreID =
    | Blob(asset: AssetID)
    | IndexBlob(index: Index)
    | ConfigBlob(config: Config)
    | ReleaseBlob(release: Release)

  /** An index without entries is written as an empty file. */
  const EMPTY_FILE := IndexBlob([])

  function ParentID(r: Release): StoreID {
    match r.parent
    case NoParent => EMPTY_FILE
    case Parent(p) => ReleaseBlob(p)
  }

  /** The files updateReleasefiles produces for a release. */
  datatype ReleaseFiles = ReleaseFiles(components: seq<Component>, releaseFile: AssetID, inRelease: AssetID, releaseGPG: AssetID)

  function Chain(r: Release): (c: seq<Release>)
    ensures c != [] && c[0] == r
  {
    [r] + Ancestors(r)
  }

  function Ancestors(r: Release): seq<Release> {
    ChainOf(r.parent)
  }

  function ChainOf(p: Parent): seq<Release> {
    match p
    case NoParent => []
    case Parent(r) => [r] + ChainOf(r.parent)
  }

  /** Each release of a chain heads the rest of it. */
  lemma {:induction false} ChainSuffix(r: Release, k: nat)
    requires k < |Chain(r)|
    ensures Chain(Chain(r)[k]) == Chain(r)[k..]
    ensures Chain(r)[k].parent == if k + 1 < |Chain(r)| then Parent(Chain(r)[k + 1]) else NoParent
  {
    if k > 0 {
      ChainSuffix(r.parent.release, k - 1);
      assert Chain(r)[1..] == Chain(r.parent.release);
      assert Chain(r)[k..] == Chain(r.parent.release)[k - 1..];
    } else {
      assert Chain(r)[0..] == Chain(r);
    }
  }

  /** No release is its own ancestor. */
  lemma ChainDistinct(r: Release, i: nat, j: nat)
    requires i < |Chain(r)| && j < |Chain(r)| && Chain(r)[i] == Chain(r)[j]
    ensures i == j
  {
    ChainSuffix(r, i);
    ChainSuffix(r, j);
  }

  // ------------------------------------------------------- the retention window

  /** Depth `d` holds the trimmed release nearest to the head. */
  predicate FirstTrimmed(h: Release, d: int) {
    0 <= d < |Chain(h)| && Chain(h)[d].trimAfter > 0 && forall i :: 0 <= i < d ==> Chain(h)[i].trimAfter == 0
  }

  predicate Untrimmed(h: Release) {
    forall i :: 0 <= i < |Chain(h)| ==> Chain(h)[i].trimAfter == 0
  }

  /** The release at depth `k` keeps its assets: with a first trimmed release at
    * depth d, the window ends at depth d + TrimAfter; without one it has no end. */
  ghost predicate InWindow(h: Release, k: int) {
    0 <= k < |Chain(h)| && forall d :: FirstTrimmed(h, d) ==> k <= d + Chain(h)[d].trimAfter
  }

  lemma FirstTrimmedUnique(h: Release, d: int, e: int)
    requires FirstTrimmed(h, d) && FirstTrimmed(h, e)
    ensures d == e
  {
  }

  // ------------------------------------------------------------------ new releases

  /** NewChild copies every field, the trim mark included. */
  function NewChild(r: Release, date: int): Release {
    r.(parent := Parent(r), date := date)
  }

  function WithFiles(r: Release, files: ReleaseFiles): Release {
    r.(components := files.components, releaseFile := files.releaseFile, inRelease := files.inRelease, releaseGPG := files.releaseGPG)
  }

  function TrimNote(count: int): Action {
    Action(ActionTRIM, "Release history trimmed to " + FormatInt(count) + " revisions")
  }

  /** TrimHistory with a length trimmer of `n`. */
  function Trimmed(r: Release, n: int): Release {
    if n >= 0 && |Ancestors(r)| >= n + 2 then r.(trimAfter := n + 1, actions := r.actions + [TrimNote(n + 1)]) else r
  }

  /** A child with a new index, before any trim. */
  function Child(parent: Release, index: Index, actions: seq<Action>, files: ReleaseFiles, date: int): Release {
    WithFiles(NewChild(parent, date).(index := index, actions := actions), files)
  }

  /** What NewRelease stores. */
  function Grow(parent: Release, index: Index, actions: seq<Action>, files: ReleaseFiles, date: int): Release {
    var r := Child(parent, index, actions, files, date);
    if r.config.autoTrim then Trimmed(r, r.config.autoTrimLength) else r
  }

  /** How a new head's chain and mark follow from its parent's. */
  lemma GrowChain(parent: Release, index: Index, actions: seq<Action>, files: ReleaseFiles, date: int)
    ensures var c := Grow(parent, index, actions, files, date);
            && c.parent == Parent(parent) && Chain(c) == [c] + Chain(parent)
            && c.index == index && c.config == parent.config && c.codeName == parent.codeName && c.date == date
            && c.components == files.components && c.inRelease == files.inRelease
            && c.releaseFile == files.releaseFile && c.releaseGPG == files.releaseGPG
            && var length := parent.config.autoTrimLength;
               if parent.config.autoTrim && 0 <= length && length + 2 <= |Chain(parent)|
               then c.trimAfter == length + 1 &&
                    c.actions == actions + [Action(ActionTRIM, "Release history trimmed to " + FormatInt(length + 1) + " revisions")]
               else c.trimAfter == parent.trimAfter && c.actions == actions
  {
  }

  /** Theorem: when trimming fires the window is the head and its n + 1 nearest
    * ancestors, whatever marks lie below. */
  lemma TrimmedWindow(r: Release, n: nat, k: int)
    requires |Ancestors(r)| >= n + 2
    ensures Trimmed(r, n).trimAfter == n + 1
    ensures InWindow(Trimmed(r, n), k) <==> 0 <= k <= n + 1
  {
  }

  /** The window of a head put on top of `p`, in terms of `p`. */
  lemma ChildWindow(c: Release, p: Release, k: nat)
    requires c.parent == Parent(p)
    ensures InWindow(c, 0)
    ensures c.trimAfter > 0 ==> (InWindow(c, k + 1) <==> k < |Chain(p)| && k < c.trimAfter)
    ensures c.trimAfter == 0 ==> (InWindow(c, k + 1) <==> InWindow(p, k))
  {
    assert Chain(c) == [c] + Chain(p);
    if c.trimAfter > 0 {
      assert FirstTrimmed(c, 0);
    } else {
      forall d ensures FirstTrimmed(c, d + 1) <==> FirstTrimmed(p, d) {
        if FirstTrimmed(c, d + 1) {
          forall i | 0 <= i < d ensures Chain(p)[i].trimAfter == 0 {
            assert Chain(c)[i + 1] == Chain(p)[i];
          }
        }
      }
      if InWindow(c, k + 1) {
        forall d | FirstTrimmed(p, d) ensures k <= d + Chain(p)[d].trimAfter {
          assert FirstTrimmed(c, d + 1);
        }
      }
      if InWindow(p, k) {
        forall d | FirstTrimmed(c, d) ensures k + 1 <= d + Chain(c)[d].trimAfter {
          assert FirstTrimmed(p, d - 1);
        }
      }
    }
  }
}
