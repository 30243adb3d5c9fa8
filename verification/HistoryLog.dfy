/** The walk that prints a branch's history (log_handlers.go), against the
  * retention window of the collector. */
module HistoryLog {
  import opened ReleaseIndex
  import opened History
  import opened Collector

  /** The walk's countdown before it looks at depth `k`. */
  ghost predicate LogState(h: Release, k: int, trimmerActive: bool, trimAfter: int) {
    if trimmerActive then
      exists d :: FirstTrimmed(h, d) && d < k && trimAfter == d + Chain(h)[d].trimAfter - (k - 1) >= 0
    else forall i :: 0 <= i < k && i < |Chain(h)| ==> Chain(h)[i].trimAfter == 0
  }

  /** Depth `k` is shown if its walk comes that far. */
  ghost predicate Shown(blobs: set<StoreID>, h: Release, k: int) {
    InWindow(h, k) && ReleaseBlob(Chain(h)[k]) in blobs && Chain(h)[k].parent.Parent? && Chain(h)[k].releaseFile != NoAsset
  }

  lemma LogStarts(h: Release)
    ensures LogState(h, 1, Chain(h)[0].trimAfter != 0, Chain(h)[0].trimAfter)
  {
  }

  lemma LogCountdown(h: Release, k: int, trimmerActive: bool, trimAfter: int)
    requires 0 < k < |Chain(h)| && LogState(h, k, trimmerActive, trimAfter)
    ensures InWindow(h, k) <==> !(trimmerActive && trimAfter == 0)
    ensures !(trimmerActive && trimAfter == 0) ==>
              LogState(h, k + 1, trimmerActive || Chain(h)[k].trimAfter != 0,
                if trimmerActive then trimAfter - 1 else if Chain(h)[k].trimAfter != 0 then Chain(h)[k].trimAfter else trimAfter)
  {
  }

  /** The loop of doHTTPLogGetHandler; `printed` is what it writes. */
  method PrintLog(blobs: set<StoreID>, head: Release) returns (printed: seq<Release>)
    ensures 0 < |printed| <= |Chain(head)| && printed == Chain(head)[..|printed|]
    ensures forall k :: 0 < k < |printed| ==>
              InWindow(head, k) && ReleaseBlob(Chain(head)[k]) in blobs && Chain(head)[k].parent.Parent? && Chain(head)[k].releaseFile != NoAsset
    ensures |printed| < |Chain(head)| ==>
              var k := |printed|;
              !(InWindow(head, k) && ReleaseBlob(Chain(head)[k]) in blobs && Chain(head)[k].parent.Parent? && Chain(head)[k].releaseFile != NoAsset)
  {
    hide LogState, InWindow;
    var curr := head;
    var trimmerActive, trimAfter := false, 0;
    printed := [];
    ghost var k := 0;
    while true
      invariant 0 <= k < |Chain(head)| && curr == Chain(head)[k] && printed == Chain(head)[..k]
      invariant trimAfter >= 0
      invariant k > 0 ==> LogState(head, k + 1, trimmerActive || curr.trimAfter != 0,
                            if trimmerActive then trimAfter else if curr.trimAfter != 0 then curr.trimAfter else trimAfter)
      invariant k == 0 ==> !trimmerActive && trimAfter == 0
      invariant forall j :: 0 < j <= k ==>
                  InWindow(head, j) && ReleaseBlob(Chain(head)[j]) in blobs && Chain(head)[j].parent.Parent? && Chain(head)[j].releaseFile != NoAsset
      decreases |Chain(head)| - k
    {
      LogStarts(head);
      ChainSuffix(head, k);
      printed := printed + [curr];
      if !trimmerActive && curr.trimAfter != 0 {
        trimmerActive := true;
        trimAfter := curr.trimAfter;
      }
      if curr.parent.NoParent? || ParentID(curr) !in blobs {
        return;
      }
      curr := curr.parent.release;
      k := k + 1;
      LogCountdown(head, k, trimmerActive, trimAfter);
      if curr.parent.NoParent? || curr.releaseFile == NoAsset {
        ChainSuffix(head, k);
        return;
      }
      if trimmerActive {
        if trimAfter == 0 {
          return;
        }
        trimAfter := trimAfter - 1;
      }
    }
  }

  /** Theorem: what the log shows the collector keeps with all its assets. The head
    * aside, the log shows the releases above the first that is outside the window,
    * missing, a root or without a Release file. */
  lemma LogWithinWindow(blobs: set<StoreID>, h: Release, k: nat, x: StoreID)
    requires k == 0 || Shown(blobs, h, k)
    ensures InWindow(h, k)
    ensures x in Assets(blobs, Chain(h)[k]) ==> Keeps(blobs, h, x)
  {
    hide Assets;
    if x in Assets(blobs, Chain(h)[k]) {
      assert InWindow(h, k);
      assert KeepsAt(blobs, h, k, x);
    }
  }
}
