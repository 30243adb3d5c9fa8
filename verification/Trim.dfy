/** Building a release and trimming its history (trim.go, NewRelease in
  * release.go), against the functions of History. */
module Trim {
  import opened ReleaseIndex
  import opened Merge
  import opened History

  /** The closure MakeLengthTrimmer returns. */
  class LengthTrimmer {
    var count: int

    constructor (commitcount: int)
      ensures count == commitcount
    {
      count := commitcount;
    }

    method Trim() returns (trim: bool)
      modifies this
      ensures trim <==> old(count) < 0
      ensures count == if old(count) >= 0 then old(count) - 1 else old(count)
    {
      if count >= 0 {
        count := count - 1;
        return false;
      }
      return true;
    }
  }

  /** The ancestors TrimHistory opens are in the store. */
  predicate TrimReadable(blobs: set<StoreID>, r: Release, n: int) {
    forall i :: 0 <= i < |Ancestors(r)| && (i == 0 || i <= n + 1) ==> ReleaseBlob(Ancestors(r)[i]) in blobs
  }

  lemma TrimEnds(blobs: set<StoreID>, r: Release, n: int, count: nat)
    requires count == |Ancestors(r)| && (count == 0 || count <= n + 1)
    requires forall i :: 0 <= i < count ==> ReleaseBlob(Ancestors(r)[i]) in blobs
    ensures TrimReadable(blobs, r, n) && Trimmed(r, n) == r
  {
  }

  lemma TrimFails(blobs: set<StoreID>, r: Release, n: int, count: nat)
    requires count < |Ancestors(r)| && (count == 0 || count <= n + 1)
    requires ReleaseBlob(Ancestors(r)[count]) !in blobs
    ensures !TrimReadable(blobs, r, n)
  {
  }

  lemma TrimFires(blobs: set<StoreID>, r: Release, n: int, count: nat)
    requires count < |Ancestors(r)| && n - count < 0 && (count == 0 || count <= n + 1)
    requires forall i :: 0 <= i <= count ==> ReleaseBlob(Ancestors(r)[i]) in blobs
    ensures TrimReadable(blobs, r, n)
    ensures Trimmed(r, n) == if count > 0 then r.(trimAfter := count, actions := r.actions + [TrimNote(count)]) else r
  {
  }

  /** A release under construction. */
  class ReleaseDraft {
    var release: Release

    constructor (r: Release)
      ensures release == r
    {
      release := r;
    }

    method TrimHistory(blobs: set<StoreID>, trimmer: LengthTrimmer) returns (ok: bool)
      modifies this, trimmer
      ensures ok <==> forall i :: 0 <= i < |Ancestors(old(release))| && (i == 0 || i <= old(trimmer.count) + 1) ==>
                        ReleaseBlob(Ancestors(old(release))[i]) in blobs
      ensures release == if ok then Trimmed(old(release), old(trimmer.count)) else old(release)
    {
      hide Trimmed, TrimNote;
      var n := trimmer.count;
      var curr := release.parent;
      var trimCount := 0;
      var activeTrim: int := 0;
      ghost var all := Ancestors(release);
      while true
        invariant 0 <= trimCount <= |all|
        invariant trimCount == 0 || trimCount <= n + 1
        invariant trimmer.count == n - trimCount
        invariant activeTrim == 0
        invariant release == old(release)
        invariant all[trimCount..] == ChainOf(curr)
        invariant forall i :: 0 <= i < trimCount ==> ReleaseBlob(all[i]) in blobs
        decreases |all| - trimCount
      {
        if curr.NoParent? {
          TrimEnds(blobs, release, n, trimCount);
          return true;
        }
        if activeTrim == 1 {
          return true;
        }
        var c := curr.release;
        assert c == all[trimCount];
        if ReleaseBlob(c) !in blobs {
          TrimFails(blobs, release, n, trimCount);
          return false;
        }
        if c.trimAfter != 0 {
          if c.trimAfter < activeTrim {
            activeTrim := c.trimAfter;
          }
        }
        var trim := trimmer.Trim();
        if trim {
          TrimFires(blobs, release, n, trimCount);
          break;
        } else {
          trimCount := trimCount + 1;
        }
        if activeTrim > 1 {
          activeTrim := activeTrim - 1;
        }
        assert all[trimCount..] == all[trimCount - 1..][1..];
        curr := c.parent;
      }
      if trimCount > 0 {
        release := release.(actions := release.actions + [TrimNote(trimCount)]);
        release := release.(trimAfter := trimCount);
      }
      return true;
    }
  }

  /** A config that is not in the store reads as one that does not trim. */
  predicate Trims(blobs: set<StoreID>, config: Config) {
    ConfigBlob(config) in blobs && config.autoTrim
  }

  method NewRelease(blobs: set<StoreID>, parent: Release, index: Index, actions: seq<Action>,
                    files: ReleaseFiles, date: int)
    returns (ok: bool, release: Release)
    ensures ok <==> ReleaseBlob(parent) in blobs &&
                    (ConfigBlob(parent.config) in blobs && parent.config.autoTrim ==>
                      TrimReadable(blobs, NewChild(parent, date), parent.config.autoTrimLength))
    ensures ok ==> release == if ConfigBlob(parent.config) in blobs then Grow(parent, index, actions, files, date)
                              else Child(parent, index, actions, files, date)
  {
    if ReleaseBlob(parent) !in blobs {
      return false, parent;
    }
    var draft := new ReleaseDraft(NewChild(parent, date));
    draft.release := draft.release.(index := index);
    draft.release := draft.release.(actions := actions);
    draft.release := WithFiles(draft.release, files);
    ok := true;
    if Trims(blobs, draft.release.config) {
      var trimmer := new LengthTrimmer(draft.release.config.autoTrimLength);
      assert Ancestors(draft.release) == Ancestors(NewChild(parent, date));
      ok := draft.TrimHistory(blobs, trimmer);
    }
    release := draft.release;
  }

  /** Theorem: the comment on TrimHistory promises that a history already trimmed shorter
    * is left alone. It is not: exactly when the old window ends before depth n + 1 does
    * the trim reopen it, up to that depth. */
  lemma ShorterTrimIsOverridden(r: Release, n: nat)
    requires |Ancestors(r)| >= n + 2
    ensures !InWindow(r, n + 1) <==> exists k :: InWindow(Trimmed(r, n), k) && !InWindow(r, k)
    ensures InWindow(Trimmed(r, n), n + 1)
  {
    TrimmedWindow(r, n, n + 1);
    forall k | InWindow(Trimmed(r, n), k) && !InWindow(r, k) ensures !InWindow(r, n + 1) {
      TrimmedWindow(r, n, k);
    }
  }
}
