/** Whole runs of the server: upload sessions, uploads, administration and the
  * garbage collector, interleaved as atomic steps. */
module Runs {
  import opened ReleaseIndex
  import opened Merge
  import opened MergeLaws
  import opened History
  import opened Collector
  import opened ArchiveStore
  import opened Archive
  import opened ArchiveSteps

  /** The archive, and for each session inside its handler the blobs it has written. */
  datatype System = System(gate: GateState, sessions: map<nat, set<StoreID>>)

  const INIT := System(GateState({}, map[], 0, false), map[])

  datatype Step =
    | OpenSession(id: nat, changes: set<StoreID>)
    | Receive(id: nat, stored: set<StoreID>)
    | MergeSession(id: nat, branch: string, entry: Entry, files: ReleaseFiles, date: int)
    | CloseSession(id: nat)
    | CreateDistribution(name: string, files: ReleaseFiles, date: int)
    | ChangeConfig(name: string, config: Config, actions: seq<Action>, files: ReleaseFiles, date: int)
    | DeleteDistribution(name: string)
    | Collect

  /** The session is open, has stored what its entry needs, and no nil rule is met. */
  predicate MayMerge(env: Env, s: System, id: nat, branch: string, entry: Entry) {
    && id in s.sessions
    && EntryAssets(entry) <= s.sessions[id] + {Blob(NoAsset)}
    && !MergePanics(env, s.gate, branch, entry)
  }

  ghost predicate Enabled(env: Env, s: System, step: Step) {
    match step
    case OpenSession(id, changes) => id !in s.sessions
    case Receive(id, stored) => id in s.sessions
    case MergeSession(id, branch, entry, files, date) =>
      MayMerge(env, s, id, branch, entry) && ReopensOnlyHeld(env, s.gate, branch, entry, files, date)
    case CloseSession(id) => id in s.sessions
    case CreateDistribution(name, files, date) => name !in s.gate.refs
    case ChangeConfig(name, config, actions, files, date) => name in s.gate.refs
    case DeleteDistribution(name) => name in s.gate.refs
    case Collect => true
  }

  ghost function Apply(env: Env, s: System, step: Step): System
    requires Enabled(env, s, step)
  {
    match step
    case OpenSession(id, changes) =>
      System(s.gate.(blobs := s.gate.blobs + changes).Disable(), s.sessions[id := changes])
    case Receive(id, stored) =>
      System(s.gate.(blobs := s.gate.blobs + stored), s.sessions[id := s.sessions[id] + stored])
    case MergeSession(id, branch, entry, files, date) =>
      s.(gate := AfterUpload(env, s.gate, branch, entry, files, date))
    case CloseSession(id) =>
      System(s.gate.Enable(), s.sessions - {id})
    case CreateDistribution(name, files, date) =>
      s.(gate := CreateDist(env, s.gate, name, files, date))
    case ChangeConfig(name, config, actions, files, date) =>
      s.(gate := Reconfigure(s.gate, name, config, actions, files, date))
    case DeleteDistribution(name) =>
      s.(gate := DeleteDist(s.gate, name))
    case Collect =>
      s.(gate := s.gate.Request())
  }

  /** `trace` is a run of the system by `steps`, any number of them in any order. */
  ghost predicate Run(env: Env, trace: seq<System>, steps: seq<Step>) {
    |trace| == |steps| + 1 && trace[0] == INIT &&
    forall i :: 0 <= i < |steps| ==> Enabled(env, trace[i], steps[i]) && trace[i + 1] == Apply(env, trace[i], steps[i])
  }

  /** Some run ends in `s`. */
  ghost predicate Arises(env: Env, s: System) {
    exists trace, steps :: Run(env, trace, steps) && trace[|steps|] == s
  }

  lemma InitArises(env: Env)
    ensures Arises(env, INIT)
  {
    var steps: seq<Step> := [];
    assert Run(env, [INIT], steps) && [INIT][|steps|] == INIT;
  }

  lemma NextArises(env: Env, s: System, step: Step)
    requires Arises(env, s) && Enabled(env, s, step)
    ensures Arises(env, Apply(env, s, step))
  {
    hide Enabled, Apply;
    var trace, steps :| Run(env, trace, steps) && trace[|steps|] == s;
    assert Run(env, trace + [Apply(env, s, step)], steps + [step]);
  }

  ghost predicate Inv(s: System) {
    && GoodStore(s.gate)
    && s.gate.lockCount == |s.sessions|
    && (s.gate.runGC ==> s.gate.lockCount > 0)
    && forall id :: id in s.sessions ==> s.sessions[id] <= s.gate.blobs
  }

  // ------------------------------------------------------- every step keeps Inv

  lemma SettleWhileLocked(g: GateState)
    requires g.lockCount > 0
    ensures g.Settle() == g
  {
  }

  lemma UploadFrame(env: Env, g: GateState, branch: string, entry: Entry, files: ReleaseFiles, date: int)
    ensures var g' := AfterUpload(env, g, branch, entry, files, date);
            && g'.lockCount == g.lockCount
            && (g.lockCount > 0 ==> g.blobs <= g'.blobs)
  {
  }

  lemma OpenKeeps(env: Env, s: System, id: nat, changes: set<StoreID>)
    requires Inv(s) && id !in s.sessions
    ensures Inv(Apply(env, s, OpenSession(id, changes)))
  {
    BlobsKeepGood(s.gate, changes);
    var g := s.gate.(blobs := s.gate.blobs + changes);
    SettleWhileLocked(g.(lockCount := g.lockCount + 1));
  }

  lemma ReceiveKeeps(env: Env, s: System, id: nat, stored: set<StoreID>)
    requires Inv(s) && id in s.sessions
    ensures Inv(Apply(env, s, Receive(id, stored)))
  {
    BlobsKeepGood(s.gate, stored);
    assert s.sessions[id := s.sessions[id] + stored].Keys == s.sessions.Keys;
  }

  lemma CloseKeeps(env: Env, s: System, id: nat)
    requires Inv(s) && id in s.sessions
    ensures Inv(Apply(env, s, CloseSession(id)))
  {
    assert |s.sessions - {id}| == |s.sessions| - 1 by {
      assert (s.sessions - {id}).Keys == s.sessions.Keys - {id};
    }
    assert GoodStore(s.gate.(lockCount := s.gate.lockCount - 1));
    SettleKeeps(s.gate.(lockCount := s.gate.lockCount - 1));
  }

  lemma MergeSessionKeeps(env: Env, s: System, step: Step)
    requires env.Usable() && Inv(s) && step.MergeSession? && Enabled(env, s, step)
    ensures Inv(Apply(env, s, step))
  {
    hide GoodStore;
    assert s.sessions.Keys != {};
    UploadKeeps(env, s.gate, step.branch, step.entry, step.files, step.date);
    UploadFrame(env, s.gate, step.branch, step.entry, step.files, step.date);
  }

  lemma CollectKeeps(env: Env, s: System)
    requires Inv(s)
    ensures Inv(Apply(env, s, Collect))
  {
    assert GoodStore(s.gate.(runGC := true));
    SettleKeeps(s.gate.(runGC := true));
  }

  lemma StepKeeps(env: Env, s: System, step: Step)
    requires env.Usable() && Inv(s) && Enabled(env, s, step)
    ensures Inv(Apply(env, s, step))
  {
    match step
    case OpenSession(id, changes) => OpenKeeps(env, s, id, changes);
    case Receive(id, stored) => ReceiveKeeps(env, s, id, stored);
    case MergeSession(_, _, _, _, _) => MergeSessionKeeps(env, s, step);
    case CloseSession(id) => CloseKeeps(env, s, id);
    case CreateDistribution(name, files, date) => CreateKeeps(env, s.gate, name, files, date);
    case ChangeConfig(name, config, actions, files, date) =>
      ReconfigureKeeps(s.gate, name, config, actions, files, date);
    case DeleteDistribution(name) => DeleteKeeps(s.gate, name);
    case Collect => CollectKeeps(env, s);
  }

  // ------------------------------------------------------------------ the theorems

  lemma {:induction false} RunKeeps(env: Env, trace: seq<System>, steps: seq<Step>, i: nat)
    requires env.Usable() && Run(env, trace, steps) && i < |trace|
    ensures Inv(trace[i])
  {
    if i > 0 {
      RunKeeps(env, trace, steps, i - 1);
      StepKeeps(env, trace[i - 1], steps[i - 1]);
    }
  }

  lemma ArisesKeeps(env: Env, s: System)
    requires env.Usable() && Arises(env, s)
    ensures Inv(s)
  {
    hide Inv;
    var trace, steps :| Run(env, trace, steps) && trace[|steps|] == s;
    RunKeeps(env, trace, steps, |steps|);
  }

  /** Theorem: whenever a walk may start it finds every object it opens, and every
    * release inside a window has its index, config and files. */
  lemma RunIsSafe(env: Env, trace: seq<System>, steps: seq<Step>, i: nat, name: string, k: nat)
    requires env.Usable() && Run(env, trace, steps) && i < |trace|
    requires name in trace[i].gate.refs && k < |Chain(trace[i].gate.refs[name])|
    ensures var g := trace[i].gate;
            && AllIntact(g.blobs, g.refs)
            && ReleaseBlob(Chain(g.refs[name])[k]) in g.blobs
            && (InWindow(g.refs[name], k) ==>
                  var r := Chain(g.refs[name])[k];
                  && IndexBlob(r.index) in g.blobs && ConfigBlob(r.config) in g.blobs
                  && forall id :: Names(g.blobs, r, id) ==> id == NoAsset || Blob(id) in g.blobs)
  {
    hide Names, Assets, Inv;
    RunKeeps(env, trace, steps, i);
    var g := trace[i].gate;
    InvIsGood(trace[i]);
    GoodIsIntact(g);
    assert GoodHead(g.blobs, name, g.refs[name]);
    assert StoredAt(g.blobs, g.refs[name], k);
    HeldByName(g.blobs, Chain(g.refs[name])[k]);
  }

  lemma InvIsGood(s: System)
    requires Inv(s)
    ensures GoodStore(s.gate)
  {
  }

  /** A release has its assets iff its index, its config and all it names are there. */
  lemma HeldByName(blobs: set<StoreID>, r: Release)
    ensures HasAssets(blobs, r) <==>
              && IndexBlob(r.index) in blobs && ConfigBlob(r.config) in blobs
              && forall id :: Names(blobs, r, id) ==> id == NoAsset || Blob(id) in blobs
  {
    hide Names, Assets;
    forall x ensures x in Assets(blobs, r) <==>
                       match x
                       case IndexBlob(es) => es == r.index
                       case ConfigBlob(c) => c == r.config
                       case ReleaseBlob(_) => false
                       case Blob(id) => Names(blobs, r, id)
    {
      AssetsOverFields(blobs, r, x);
    }
    if HasAssets(blobs, r) {
      assert IndexBlob(r.index) in Assets(blobs, r) && ConfigBlob(r.config) in Assets(blobs, r);
      forall id | Names(blobs, r, id) ensures id == NoAsset || Blob(id) in blobs {
        assert Blob(id) in Assets(blobs, r);
      }
    }
  }

  /** Theorem: the lock counts the open sessions, no request waits at zero, and a
    * session's blobs stay in the store for as long as it is open. */
  lemma RunGate(env: Env, trace: seq<System>, steps: seq<Step>, i: nat)
    requires env.Usable() && Run(env, trace, steps) && i < |trace|
    ensures trace[i].gate.lockCount == |trace[i].sessions|
    ensures trace[i].gate.runGC ==> trace[i].sessions != map[]
    ensures forall id :: id in trace[i].sessions ==> trace[i].sessions[id] <= trace[i].gate.blobs
  {
    RunKeeps(env, trace, steps, i);
  }

  /** Theorem: what a session has stored stays, on its account and in the store, until
    * the session is closed. */
  lemma {:induction false} ReceivedStays(env: Env, trace: seq<System>, steps: seq<Step>, i: nat, j: nat, id: nat, stored: set<StoreID>)
    requires env.Usable() && Run(env, trace, steps) && i < j < |trace|
    requires steps[i] == Receive(id, stored) || steps[i] == OpenSession(id, stored)
    requires forall k :: i < k < j ==> steps[k] != CloseSession(id)
    ensures id in trace[j].sessions && stored <= trace[j].sessions[id] && stored <= trace[j].gate.blobs
    decreases j - i
  {
    RunKeeps(env, trace, steps, j);
    if i + 1 < j {
      ReceivedStays(env, trace, steps, i, j - 1, id, stored);
    }
  }

  /** Theorem: a step loses a blob only if it leaves no session open. */
  lemma LossOnlyUnlocked(env: Env, trace: seq<System>, steps: seq<Step>, i: nat)
    requires env.Usable() && Run(env, trace, steps) && i < |steps|
    requires !(trace[i].gate.blobs <= trace[i + 1].gate.blobs)
    ensures trace[i + 1].sessions == map[] && !trace[i + 1].gate.runGC
    ensures trace[i + 1].gate.blobs == Swept(trace[i].gate.blobs, trace[i].gate.refs)
  {
    RunKeeps(env, trace, steps, i);
    RunKeeps(env, trace, steps, i + 1);
    var s, step := trace[i], steps[i];
    match step
    case MergeSession(id, branch, entry, files, date) =>
      assert id in s.sessions;
      UploadFrame(env, s.gate, branch, entry, files, date);
    case _ =>
  }

  /** Theorem: a request sweeps at once if no session is open, and otherwise only waits. */
  lemma RequestSweepsOrWaits(env: Env, trace: seq<System>, steps: seq<Step>, i: nat)
    requires env.Usable() && Run(env, trace, steps) && i < |steps| && steps[i] == Collect
    ensures trace[i + 1].sessions == trace[i].sessions && trace[i + 1].gate.refs == trace[i].gate.refs
    ensures if trace[i].sessions == map[]
            then trace[i + 1].gate.blobs == Swept(trace[i].gate.blobs, trace[i].gate.refs) && !trace[i + 1].gate.runGC
            else trace[i + 1].gate.blobs == trace[i].gate.blobs && trace[i + 1].gate.runGC
  {
    RunKeeps(env, trace, steps, i);
  }

  /** What the steps of a session do: opening and receiving store, closing sweeps if it
    * is the last and a request waits, and no step of these touches a distribution. */
  lemma SessionEffect(env: Env, trace: seq<System>, steps: seq<Step>, i: nat)
    requires env.Usable() && Run(env, trace, steps) && i < |steps|
    ensures match steps[i]
            case OpenSession(id, changes) =>
              trace[i + 1] == System(trace[i].gate.(blobs := trace[i].gate.blobs + changes, lockCount := |trace[i].sessions| + 1),
                                     trace[i].sessions[id := changes])
            case Receive(id, stored) =>
              trace[i + 1] == System(trace[i].gate.(blobs := trace[i].gate.blobs + stored),
                                     trace[i].sessions[id := trace[i].sessions[id] + stored])
            case CloseSession(id) =>
              && trace[i + 1].sessions == trace[i].sessions - {id} && trace[i + 1].gate.refs == trace[i].gate.refs
              && trace[i + 1].gate.lockCount == |trace[i].sessions| - 1
              && trace[i + 1].gate.blobs == (if trace[i].sessions.Keys == {id} && trace[i].gate.runGC
                                             then Swept(trace[i].gate.blobs, trace[i].gate.refs) else trace[i].gate.blobs)
            case _ => true
  {
    hide Swept, GoodStore;
    RunKeeps(env, trace, steps, i);
    if steps[i].CloseSession? {
      var id := steps[i].id;
      assert |trace[i].sessions| == 1 <==> trace[i].sessions.Keys == {id} by {
        assert id in trace[i].sessions.Keys;
        assert trace[i].sessions.Keys == {id} + (trace[i].sessions.Keys - {id});
      }
    }
  }

  /** A waiting request is taken back only by the sweep it asked for. */
  lemma RequestCleared(env: Env, trace: seq<System>, steps: seq<Step>, i: nat)
    requires env.Usable() && Run(env, trace, steps) && i < |steps|
    requires trace[i].gate.runGC && !trace[i + 1].gate.runGC
    ensures SweptAt(trace, steps, i)
  {
    RunKeeps(env, trace, steps, i);
    RunKeeps(env, trace, steps, i + 1);
  }

  /** Step `i` closes the last session, and the collector sweeps. */
  ghost predicate SweptAt(trace: seq<System>, steps: seq<Step>, i: int)
    requires |trace| == |steps| + 1
  {
    0 <= i < |steps| && steps[i].CloseSession? && trace[i + 1].sessions == map[] &&
    trace[i + 1].gate.blobs == Swept(trace[i].gate.blobs, trace[i].gate.refs)
  }

  /** Theorem: a sweep asked for while sessions are open has run, as the last of them
    * closed, by the time none is open. */
  lemma {:induction false} DeferredSweepRuns(env: Env, trace: seq<System>, steps: seq<Step>, i: nat, j: nat)
    requires env.Usable() && Run(env, trace, steps) && i < j < |trace|
    requires trace[i].gate.runGC && trace[j].sessions == map[]
    ensures exists k :: i <= k < j && SweptAt(trace, steps, k)
    decreases j - i
  {
    hide SweptAt, Inv, Enabled, Apply;
    if !trace[i + 1].gate.runGC {
      RequestCleared(env, trace, steps, i);
    } else {
      NoRequestWaits(env, trace, steps, j);
      DeferredSweepRuns(env, trace, steps, i + 1, j);
    }
  }

  lemma NoRequestWaits(env: Env, trace: seq<System>, steps: seq<Step>, i: nat)
    requires env.Usable() && Run(env, trace, steps) && i < |trace| && trace[i].sessions == map[]
    ensures !trace[i].gate.runGC
  {
    RunKeeps(env, trace, steps, i);
  }

  // ----------------------------------------------------------------- what steps do

  predicate EndsIn<T(==)>(c: seq<T>, b: seq<T>) {
    |b| <= |c| && c[|c| - |b|..] == b
  }

  lemma EndsInTransitive<T>(c: seq<T>, b: seq<T>, a: seq<T>)
    requires EndsIn(c, b) && EndsIn(b, a)
    ensures EndsIn(c, a)
  {
  }

  /** The chain of `h` ends in the chain of `before`. */
  predicate Continues(h: Release, before: Release) {
    EndsIn(Chain(h), Chain(before))
  }

  lemma ChildContinues(c: Release, p: Release)
    requires c.parent == Parent(p)
    ensures Continues(c, p)
  {
  }

  /** AddUpload touches no branch but its own, which it may create empty. On a commit it
    * puts one release on that head, whose index is the head's with the entry inserted
    * and pruned, and inside a session asks for a sweep. */
  lemma UploadEffect(env: Env, g: GateState, branch: string, entry: Entry, files: ReleaseFiles, date: int)
    ensures var g', p := AfterUpload(env, g, branch, entry, files, date), EnsureBranch(env, g, branch, date).refs[branch];
            var rs := env.parseRules(p.config.pruneRules);
            var es, log := MergeOf(rs, p.index, entry), MergeLog(rs, p.index, entry);
            && (if branch in g.refs then p == g.refs[branch]
                else p == Release(NoParent, [], branch, date, [], NoAsset, NoAsset, NoAsset, [], 0, env.defaultConfig))
            && g'.refs.Keys == g.refs.Keys + {branch}
            && (forall n :: n in g.refs && n != branch ==> g'.refs[n] == g.refs[n])
            && (Commits(env, g, branch, entry, date) <==> RealChange(log))
            && (if Commits(env, g, branch, entry, date)
                then g'.refs[branch] == Grow(p, es, log, files, date) && g'.refs[branch].parent == Parent(p) && g'.refs[branch].index == es
                else g'.refs[branch] == p)
            && (g.lockCount > 0 ==> (g'.runGC <==> g.runGC || Commits(env, g, branch, entry, date)))
  {
    hide MergeOf, MergeLog, RealChange, Grow, FilesBlobs, Swept;
    var p := EnsureBranch(env, g, branch, date).refs[branch];
    var rs := env.parseRules(p.config.pruneRules);
    GrowChain(p, MergeOf(rs, p.index, entry), MergeLog(rs, p.index, entry), files, date);
  }

  lemma UploadContinues(env: Env, g: GateState, branch: string, entry: Entry, files: ReleaseFiles, date: int, name: string)
    requires name in g.refs
    ensures var g' := AfterUpload(env, g, branch, entry, files, date);
            name in g'.refs && Continues(g'.refs[name], g.refs[name])
  {
    hide Continues, AddHead, Commits;
    var p := g.refs[name];
    ContinuesItself(p);
    UploadEffect(env, g, branch, entry, files, date);
    var c := AfterUpload(env, g, branch, entry, files, date).refs[name];
    if c != p {
      ChildContinues(c, p);
    }
  }

  lemma StepContinues(env: Env, s: System, step: Step, name: string)
    requires Enabled(env, s, step) && name in s.gate.refs && step != DeleteDistribution(name)
    ensures name in Apply(env, s, step).gate.refs
    ensures Continues(Apply(env, s, step).gate.refs[name], s.gate.refs[name])
  {
    hide Continues, AfterUpload;
    var p := s.gate.refs[name];
    ContinuesItself(p);
    match step
    case MergeSession(_, branch, entry, files, date) =>
      UploadContinues(env, s.gate, branch, entry, files, date, name);
    case ChangeConfig(n, config, actions, files, date) =>
      if n == name {
        ChildContinues(ConfigChild(p, config, actions, files, date), p);
      }
    case _ =>
  }

  lemma ContinuesItself(h: Release)
    ensures Continues(h, h)
  {
  }

  lemma {:induction false} RunContinues(env: Env, trace: seq<System>, steps: seq<Step>, i: nat, j: nat, name: string)
    requires Run(env, trace, steps) && i <= j < |trace|
    requires name in trace[i].gate.refs && forall k :: i <= k < j ==> steps[k] != DeleteDistribution(name)
    ensures name in trace[j].gate.refs && Continues(trace[j].gate.refs[name], trace[i].gate.refs[name])
    decreases j - i
  {
    hide Chain, EndsIn, Apply, Enabled;
    if i == j {
      ContinuesItself(trace[i].gate.refs[name]);
    } else {
      RunContinues(env, trace, steps, i, j - 1, name);
      StepContinues(env, trace[j - 1], steps[j - 1], name);
      EndsInTransitive(Chain(trace[j].gate.refs[name]), Chain(trace[j - 1].gate.refs[name]), Chain(trace[i].gate.refs[name]));
    }
  }

  lemma StoredThroughout(blobs: set<StoreID>, h: Release, before: Release)
    requires Stored(blobs, h) && Continues(h, before)
    ensures forall k :: 0 <= k < |Chain(before)| ==> ReleaseBlob(Chain(before)[k]) in blobs
  {
    hide Chain;
    var m := |Chain(h)| - |Chain(before)|;
    forall k | 0 <= k < |Chain(before)| ensures ReleaseBlob(Chain(before)[k]) in blobs {
      assert StoredAt(blobs, h, m + k);
      assert Chain(before)[k] == Chain(h)[m + k];
    }
  }

  /** Theorem: history only grows. As long as a distribution is not deleted, each
    * release it ever had stays on its chain, and stored, whatever is trimmed or swept. */
  lemma HistoryOnlyGrows(env: Env, trace: seq<System>, steps: seq<Step>, i: nat, j: nat, name: string)
    requires env.Usable() && Run(env, trace, steps) && i <= j < |trace|
    requires name in trace[i].gate.refs && forall k :: i <= k < j ==> steps[k] != DeleteDistribution(name)
    ensures name in trace[j].gate.refs && Continues(trace[j].gate.refs[name], trace[i].gate.refs[name])
    ensures forall k :: 0 <= k < |Chain(trace[i].gate.refs[name])| ==>
              ReleaseBlob(Chain(trace[i].gate.refs[name])[k]) in trace[j].gate.blobs
  {
    hide Continues, Apply, Enabled, Stored, Chain;
    RunContinues(env, trace, steps, i, j, name);
    RunKeeps(env, trace, steps, j);
    var g := trace[j].gate;
    assert GoodHead(g.blobs, name, g.refs[name]);
    StoredThroughout(g.blobs, g.refs[name], trace[i].gate.refs[name]);
  }

  /** The administrative steps touch only the distribution they name: a new one has an
    * empty head over an empty root, a new configuration is a child of the old head. */
  lemma AdminEffect(env: Env, s: System, step: Step, name: string)
    requires Enabled(env, s, step)
    requires step.CreateDistribution? || step.ChangeConfig? || step.DeleteDistribution?
    ensures var s' := Apply(env, s, step);
            && s'.sessions == s.sessions && s.gate.blobs <= s'.gate.blobs
            && s'.gate.lockCount == s.gate.lockCount && s'.gate.runGC == s.gate.runGC
            && (name != step.name ==> (name in s'.gate.refs <==> name in s.gate.refs))
            && (name != step.name && name in s.gate.refs ==> s'.gate.refs[name] == s.gate.refs[name])
            && (step.DeleteDistribution? <==> step.name !in s'.gate.refs)
            && (step.DeleteDistribution? ==> s'.gate.blobs == s.gate.blobs)
            && (!step.DeleteDistribution? ==>
                  var h := s'.gate.refs[step.name];
                  && h.components == step.files.components && h.inRelease == step.files.inRelease
                  && h.releaseFile == step.files.releaseFile && h.releaseGPG == step.files.releaseGPG
                  && h.date == step.date)
            && (step.CreateDistribution? ==>
                  var h := s'.gate.refs[step.name];
                  && h.parent == Parent(Release(NoParent, [], step.name, step.date, [], NoAsset, NoAsset, NoAsset, [], 0, env.defaultConfig))
                  && h.index == [] && h.codeName == step.name && h.actions == [] && h.trimAfter == 0
                  && h.config == env.defaultConfig)
            && (step.ChangeConfig? ==>
                  var p, h := s.gate.refs[step.name], s'.gate.refs[step.name];
                  && h.parent == Parent(p) && h.index == p.index && h.codeName == p.codeName
                  && h.trimAfter == p.trimAfter && h.config == step.config && h.actions == step.actions)
  {
    hide FilesBlobs, KeyBlobs, Inv, InWindow, Intact, Keeps, Swept, Live;
    match step
    case CreateDistribution(n, files, date) =>
      var root := Root(n, env.defaultConfig, date);
      assert Chain(root) == [root];
      GrowChain(root, [], [], files, date);
    case _ =>
  }

  // ---------------------------------------------------------------- sorted indexes

  predicate UsableIndex(es: Index) {
    Sorted(es) && CleanIndex(es)
  }

  /** All that the first `i` steps merge into `name` has regular versions. */
  predicate MergedClean(steps: seq<Step>, i: nat, name: string) {
    forall j :: 0 <= j < i && j < |steps| && steps[j].MergeSession? && steps[j].branch == name ==> CleanEntry(steps[j].entry)
  }

  lemma StepKeepsSorted(env: Env, s: System, step: Step, name: string)
    requires Enabled(env, s, step) && (step.MergeSession? && step.branch == name ==> CleanEntry(step.entry))
    requires name in s.gate.refs ==> UsableIndex(s.gate.refs[name].index)
    ensures var g' := Apply(env, s, step).gate;
            name in g'.refs ==> UsableIndex(g'.refs[name].index)
  {
    hide UsableIndex, CleanEntry, AfterUpload, CreateDist, Reconfigure;
    match step
    case MergeSession(_, branch, entry, files, date) =>
      UploadKeepsSorted(env, s.gate, branch, entry, files, date, name);
    case CreateDistribution(_, _, _) => AdminKeepsSorted(env, s, step, name);
    case ChangeConfig(_, _, _, _, _) => AdminKeepsSorted(env, s, step, name);
    case DeleteDistribution(_) => AdminKeepsSorted(env, s, step, name);
    case _ =>
  }

  lemma UploadKeepsSorted(env: Env, g: GateState, branch: string, entry: Entry, files: ReleaseFiles, date: int, name: string)
    requires branch == name ==> CleanEntry(entry)
    requires name in g.refs ==> UsableIndex(g.refs[name].index)
    ensures var g' := AfterUpload(env, g, branch, entry, files, date);
            name in g'.refs ==> UsableIndex(g'.refs[name].index)
  {
    hide Sorted, CleanIndex, CleanEntry, AfterUpload, MergeOf;
    UploadEffect(env, g, branch, entry, files, date);
    if branch == name {
      var p := EnsureBranch(env, g, branch, date).refs[branch];
      EmptyIsUsable();
      MergeSorted(RulesOf(env, p), p.index, entry);
    }
  }

  lemma AdminKeepsSorted(env: Env, s: System, step: Step, name: string)
    requires Enabled(env, s, step)
    requires step.CreateDistribution? || step.ChangeConfig? || step.DeleteDistribution?
    requires name in s.gate.refs ==> UsableIndex(s.gate.refs[name].index)
    ensures var g' := Apply(env, s, step).gate;
            name in g'.refs ==> UsableIndex(g'.refs[name].index)
  {
    hide UsableIndex, Apply;
    EmptyIsUsable();
    AdminEffect(env, s, step, name);
  }

  lemma EmptyIsUsable()
    ensures UsableIndex([])
  {
  }

  lemma {:induction false} RunIsSorted(env: Env, trace: seq<System>, steps: seq<Step>, i: nat, name: string)
    requires Run(env, trace, steps) && i < |trace| && name in trace[i].gate.refs && MergedClean(steps, i, name)
    ensures UsableIndex(trace[i].gate.refs[name].index)
  {
    hide Enabled, Apply, UsableIndex, CleanEntry;
    if i > 0 {
      if name in trace[i - 1].gate.refs {
        RunIsSorted(env, trace, steps, i - 1, name);
      }
      StepKeepsSorted(env, trace[i - 1], steps[i - 1], name);
    }
  }

  /** Theorem: the refs of a reachable state are orderly, so a sweep there leaves
    * exactly what they keep, in whatever order they are visited. A branch is sorted if
    * all that was merged into it has regular versions. */
  lemma RunIsOrderly(env: Env, trace: seq<System>, steps: seq<Step>, i: nat)
    requires env.Usable() && Run(env, trace, steps) && i < |trace|
    ensures Orderly(trace[i].gate.refs)
    ensures forall n :: n in trace[i].gate.refs && MergedClean(steps, i, n) ==> UsableIndex(trace[i].gate.refs[n].index)
  {
    RunKeeps(env, trace, steps, i);
    GoodIsOrderly(trace[i].gate);
    forall n | n in trace[i].gate.refs && MergedClean(steps, i, n) ensures UsableIndex(trace[i].gate.refs[n].index) {
      RunIsSorted(env, trace, steps, i, n);
    }
  }
}
