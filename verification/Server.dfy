/** Upload sessions inside the running server: what the handlers of upload_session.go
  * store is what the archive needs when they merge. */
module Server {
  import opened Basics
  import opened DebVersions
  import opened ReleaseIndex
  import opened History
  import opened Collector
  import opened ArchiveStore
  import opened Archive
  import opened ArchiveSteps
  import Changes
  import Session
  import opened ReleaseEntry
  import opened Runs

  /** What a changes file says of its upload, and its id. */
  datatype Heading = Heading(branch: string, source: string, sourceVersion: DebVersion, binVersion: DebVersion, changesID: AssetID)

  datatype Handler = Handler(heading: Heading, state: Session.State)

  /** The archive with its gate, and the handlers that are running. */
  datatype State = State(sys: System, handlers: map<nat, Handler>)

  datatype Context = Context(env: Env, hashers: Session.Hashers)

  const START := State(INIT, map[])

  datatype Event =
    | Begin(id: nat, heading: Heading, fileHashes: Changes.HashMap, verifyDebs: bool)
    | Send(id: nat, upload: Session.Upload, key: Option<Changes.Key>, entry: Option<Entry>, files: ReleaseFiles, date: int)
    | End(id: nat)
    | Administer(step: Step)

  // ------------------------------------------------------------ what a message stores

  /** doAddFile stores the control data it has read. */
  predicate StoresControl(u: Session.Upload) {
    u.controlRead && u.controlStored &&
    if HasSuffix(u.name, ".deb") then u.pkg.name.Some? else HasSuffix(u.name, ".dsc")
  }

  /** The blobs doAddFile puts into the store, whether or not it accepts the file. */
  function Written(s: Session.State, u: Session.Upload, key: Option<Changes.Key>): set<StoreID> {
    if u.name in s.expecting && !s.expecting[u.name].received && key.Some? && u.stored then
      {Blob(u.blob)} + if StoresControl(u) then {Blob(u.controlID)} else {}
    else {}
  }

  /** The ids in one entry are among `blobs`. */
  predicate FileAccounted(uf: Session.UploadFile, blobs: set<StoreID>) {
    {Blob(uf.storeID), Blob(uf.controlID)} <= blobs + {Blob(NoAsset)}
  }

  /** All that the handler may put into an entry is among `blobs`. */
  predicate Accounted(h: Handler, blobs: set<StoreID>) {
    && Blob(h.heading.changesID) in blobs
    && forall n :: n in h.state.expecting ==> FileAccounted(h.state.expecting[n], blobs)
  }

  lemma ContentsAccounted(verifyDebs: bool, uf: Session.UploadFile, u: Session.Upload)
    ensures var (read, failure) := Session.ReadContents(verifyDebs, uf, u);
            && read.storeID == uf.storeID
            && (read.controlID == uf.controlID || read.controlID == NoAsset || (StoresControl(u) && read.controlID == u.controlID))
  {
  }

  lemma SentAccounted(hs: Session.Hashers, s: Session.State, u: Session.Upload, key: Option<Changes.Key>, blobs: set<StoreID>)
    requires Session.Lists(s, u.name, key) && u.name in s.expecting && FileAccounted(s.expecting[u.name], blobs)
    ensures var s' := Session.AddFile(hs, s, u, key).0;
            u.name in s'.expecting && FileAccounted(s'.expecting[u.name], blobs + Written(s, u, key))
  {
    hide Session.ReadContents, Session.AddFile, Session.Lists, StoresControl;
    Session.AddFileChanges(hs, s, u, key);
    Session.AddFileIDs(hs, s, u, key);
    ContentsAccounted(s.verifyDebs, s.expecting[u.name], u);
  }

  lemma HandleAccounted(hs: Session.Hashers, h: Handler, u: Session.Upload, key: Option<Changes.Key>, blobs: set<StoreID>)
    requires Accounted(h, blobs) && Session.Lists(h.state, u.name, key)
    ensures Accounted(h.(state := Session.Handle(hs, h.state, u, key)), blobs + Written(h.state, u, key))
  {
    hide Session.AddFile, Session.Lists, Written;
    Session.AddFileChanges(hs, h.state, u, key);
    if u.name in h.state.expecting {
      SentAccounted(hs, h.state, u, key, blobs);
    }
  }

  // ---------------------------------------------------------------------- the steps

  /** The handler has just received its last file. */
  predicate Completes(hs: Session.Hashers, s: Session.State, u: Session.Upload, key: Option<Changes.Key>)
    requires Session.Lists(s, u.name, key)
  {
    Session.Handle(hs, s, u, key).merges > s.merges
  }

  /** What NewReleaseIndexEntry returns for the files of a handler. */
  ghost predicate Collated(h: Handler, entry: Option<Entry>) {
    && (entry.Some? <==> forall n :: n in h.state.expecting ==> Acceptable(h.state.expecting[n], h.heading.binVersion))
    && (entry.Some? ==> MadeFrom(h.state.expecting, h.heading.source, h.heading.sourceVersion, h.heading.changesID, entry.value))
  }

  /** The merge neither meets a package without a rule nor reopens what is gone. */
  ghost predicate MergeIsSafe(env: Env, g: GateState, branch: string, entry: Entry, files: ReleaseFiles, date: int) {
    !MergePanics(env, g, branch, entry) && ReopensOnlyHeld(env, g, branch, entry, files, date)
  }

  ghost predicate Sends(c: Context, v: State, ev: Event, v': State)
    requires ev.Send?
  {
    ev.id in v.handlers && ev.id in v.sys.sessions &&
    var h := v.handlers[ev.id];
    Session.Lists(h.state, ev.upload.name, ev.key) &&
    var h' := h.(state := Session.Handle(c.hashers, h.state, ev.upload, ev.key));
    var sys := Apply(c.env, v.sys, Receive(ev.id, Written(h.state, ev.upload, ev.key)));
    v'.handlers == v.handlers[ev.id := h'] &&
    if Completes(c.hashers, h.state, ev.upload, ev.key) then
      Collated(h', ev.entry) &&
      if ev.entry.Some? then
        && MergeIsSafe(c.env, sys.gate, h.heading.branch, ev.entry.value, ev.files, ev.date)
        && v'.sys == sys.(gate := AfterUpload(c.env, sys.gate, h.heading.branch, ev.entry.value, ev.files, ev.date))
      else v'.sys == sys
    else v'.sys == sys
  }

  predicate Administrative(step: Step) {
    step.CreateDistribution? || step.ChangeConfig? || step.DeleteDistribution? || step.Collect?
  }

  ghost predicate Next(c: Context, v: State, ev: Event, v': State) {
    match ev
    case Begin(id, heading, fileHashes, verifyDebs) =>
      && id !in v.sys.sessions
      && v'.sys == Apply(c.env, v.sys, OpenSession(id, {Blob(heading.changesID)}))
      && v'.handlers == v.handlers[id := Handler(heading, Session.Opened(fileHashes, verifyDebs))]
    case Send(_, _, _, _, _, _) => Sends(c, v, ev, v')
    case End(id) =>
      && id in v.sys.sessions
      && v'.sys == Apply(c.env, v.sys, CloseSession(id)) && v'.handlers == v.handlers - {id}
    case Administer(step) =>
      && Administrative(step) && Enabled(c.env, v.sys, step)
      && v' == v.(sys := Apply(c.env, v.sys, step))
  }

  // ------------------------------------------------------------------ the invariant

  ghost predicate Sound(c: Context, v: State) {
    && v.handlers.Keys == v.sys.sessions.Keys
    && forall id :: id in v.handlers ==> SoundHandler(c, v.handlers[id], v.sys.sessions[id])
  }

  predicate SoundHandler(c: Context, h: Handler, blobs: set<StoreID>) {
    Session.Inv(c.hashers, h.state) && Accounted(h, blobs)
  }

  /** A finished handler has read every package it hands to NewReleaseIndexEntry. */
  lemma FinishedHasReaders(hs: Session.Hashers, s: Session.State)
    requires Session.Inv(hs, s) && s.merges == 1
    ensures forall n :: n in s.expecting ==> HasReader(s.expecting[n])
  {
    forall n | n in s.expecting ensures HasReader(s.expecting[n]) {
      assert Session.WellRead(n, s.expecting[n]);
    }
  }

  /** The entry a handler makes needs only what its session has stored. */
  lemma EntryAccounted(h: Handler, blobs: set<StoreID>, e: Entry)
    requires Accounted(h, blobs)
    requires MadeFrom(h.state.expecting, h.heading.source, h.heading.sourceVersion, h.heading.changesID, e)
    ensures EntryAssets(e) <= blobs + {Blob(NoAsset)}
  {
    hide MadeFrom, EntryAssets;
    forall x | x in EntryAssets(e) ensures x in blobs + {Blob(NoAsset)} {
      EntryUsesOnlyReceived(h.state.expecting, h.heading.source, h.heading.sourceVersion, h.heading.changesID, e, x);
    }
  }

  // ---------------------------------------------- the server refines the runs of Runs

  /** `steps`, each enabled when its turn comes, lead from `s` to `s'`. */
  ghost predicate Takes(env: Env, s: System, steps: seq<Step>, s': System)
    decreases |steps|
  {
    if steps == [] then s == s' else Enabled(env, s, steps[0]) && Takes(env, Apply(env, s, steps[0]), steps[1..], s')
  }

  lemma TakesOne(env: Env, s: System, a: Step)
    requires Enabled(env, s, a)
    ensures Takes(env, s, [a], Apply(env, s, a))
  {
    hide Enabled, Apply;
    assert [a][1..] == [];
  }

  lemma TakesTwo(env: Env, s: System, a: Step, b: Step)
    requires Enabled(env, s, a) && Enabled(env, Apply(env, s, a), b)
    ensures Takes(env, s, [a, b], Apply(env, Apply(env, s, a), b))
  {
    hide Enabled, Apply;
    TakesOne(env, Apply(env, s, a), b);
    assert [a, b][1..] == [b];
  }

  lemma SendRefines(c: Context, v: State, ev: Event, v': State) returns (steps: seq<Step>)
    requires Sound(c, v) && ev.Send? && Sends(c, v, ev, v')
    ensures Takes(c.env, v.sys, steps, v'.sys) && Sound(c, v')
  {
    hide Accounted, Session.Inv, Session.Handle, Session.Lists, Written, Completes, Collated;
    hide MergePanics, ReopensOnlyHeld, AfterUpload, EntryAssets;
    var h := v.handlers[ev.id];
    var h' := h.(state := Session.Handle(c.hashers, h.state, ev.upload, ev.key));
    var receive := Receive(ev.id, Written(h.state, ev.upload, ev.key));
    var sys := Apply(c.env, v.sys, receive);
    assert SoundHandler(c, h, v.sys.sessions[ev.id]);
    Session.HandleKeeps(c.hashers, h.state, ev.upload, ev.key);
    HandleAccounted(c.hashers, h, ev.upload, ev.key, v.sys.sessions[ev.id]);
    assert SoundHandler(c, h', sys.sessions[ev.id]);
    steps := [receive];
    TakesOne(c.env, v.sys, receive);
    if Completes(c.hashers, h.state, ev.upload, ev.key) && ev.entry.Some? {
      var merge := MergeSession(ev.id, h.heading.branch, ev.entry.value, ev.files, ev.date);
      MergeIsEnabled(c, sys, h', merge);
      TakesTwo(c.env, v.sys, receive, merge);
      steps := [receive, merge];
    }
  }

  /** Theorem: when the last file has come in, the entry made of the files is one the
    * archive may merge. */
  lemma MergeIsEnabled(c: Context, sys: System, h: Handler, merge: Step)
    requires merge.MergeSession? && merge.id in sys.sessions && SoundHandler(c, h, sys.sessions[merge.id])
    requires Collated(h, Some(merge.entry)) && merge.branch == h.heading.branch
    requires MergeIsSafe(c.env, sys.gate, merge.branch, merge.entry, merge.files, merge.date)
    ensures Enabled(c.env, sys, merge)
    ensures Apply(c.env, sys, merge) ==
            sys.(gate := AfterUpload(c.env, sys.gate, merge.branch, merge.entry, merge.files, merge.date))
  {
    hide Accounted, Session.Inv, MergePanics, ReopensOnlyHeld, AfterUpload, EntryAssets;
    EntryAccounted(h, sys.sessions[merge.id], merge.entry);
  }

  lemma OpenedIsSound(c: Context, heading: Heading, fileHashes: Changes.HashMap, verifyDebs: bool)
    ensures SoundHandler(c, Handler(heading, Session.Opened(fileHashes, verifyDebs)), {Blob(heading.changesID)})
  {
  }

  lemma BeginRefines(c: Context, v: State, ev: Event, v': State) returns (steps: seq<Step>)
    requires Sound(c, v) && ev.Begin? && Next(c, v, ev, v')
    ensures Takes(c.env, v.sys, steps, v'.sys) && Sound(c, v')
  {
    hide SoundHandler, Takes, GateState.Disable;
    OpenedIsSound(c, ev.heading, ev.fileHashes, ev.verifyDebs);
    steps := [OpenSession(ev.id, {Blob(ev.heading.changesID)})];
    TakesOne(c.env, v.sys, steps[0]);
  }

  lemma EndRefines(c: Context, v: State, ev: Event, v': State) returns (steps: seq<Step>)
    requires Sound(c, v) && ev.End? && Next(c, v, ev, v')
    ensures Takes(c.env, v.sys, steps, v'.sys) && Sound(c, v')
  {
    hide SoundHandler, Takes, GateState.Enable;
    steps := [CloseSession(ev.id)];
    TakesOne(c.env, v.sys, steps[0]);
  }

  lemma AdministerRefines(c: Context, v: State, ev: Event, v': State) returns (steps: seq<Step>)
    requires Sound(c, v) && ev.Administer? && Next(c, v, ev, v')
    ensures Takes(c.env, v.sys, steps, v'.sys) && Sound(c, v')
  {
    hide SoundHandler, Takes, CreateDist, Reconfigure, DeleteDist, GateState.Request;
    steps := [ev.step];
    TakesOne(c.env, v.sys, steps[0]);
  }

  /** A run of the server: handlers begin, get files and end, and administrators act, in
    * any order. */
  ghost predicate Serves(c: Context, trace: seq<State>, events: seq<Event>) {
    |trace| == |events| + 1 && trace[0] == START &&
    forall i :: 0 <= i < |events| ==> Next(c, trace[i], events[i], trace[i + 1])
  }

  lemma {:induction false} TakingArises(env: Env, s: System, steps: seq<Step>, s': System)
    requires Arises(env, s) && Takes(env, s, steps, s')
    ensures Arises(env, s')
    decreases |steps|
  {
    hide Enabled, Apply, Arises;
    if steps != [] {
      NextArises(env, s, steps[0]);
      TakingArises(env, Apply(env, s, steps[0]), steps[1..], s');
    }
  }

  /** Theorem: every run of the server is a run of the system of Runs, so all that is
    * proved there holds of it. What a MergeSession step asks of its entry is no demand
    * on the uploader; the handlers see to it. */
  lemma {:induction false} ServerRefines(c: Context, trace: seq<State>, events: seq<Event>, i: nat)
    requires Serves(c, trace, events) && i < |trace|
    ensures Sound(c, trace[i]) && Arises(c.env, trace[i].sys)
  {
    hide Sound, Next, Run, Takes, Sends;
    if i == 0 {
      StartIsSound(c);
      InitArises(c.env);
    } else {
      ServerRefines(c, trace, events, i - 1);
      var v, ev, v' := trace[i - 1], events[i - 1], trace[i];
      var steps := NextRefines(c, v, ev, v');
      TakingArises(c.env, v.sys, steps, v'.sys);
    }
  }

  lemma StartIsSound(c: Context)
    ensures Sound(c, START)
  {
  }

  lemma NextRefines(c: Context, v: State, ev: Event, v': State) returns (steps: seq<Step>)
    requires Sound(c, v) && Next(c, v, ev, v')
    ensures Takes(c.env, v.sys, steps, v'.sys) && Sound(c, v')
  {
    hide Sound, Sends, Takes;
    match ev
    case Begin(_, _, _, _) => steps := BeginRefines(c, v, ev, v');
    case Send(_, _, _, _, _, _) => steps := SendRefines(c, v, ev, v');
    case End(_) => steps := EndRefines(c, v, ev, v');
    case Administer(_) => steps := AdministerRefines(c, v, ev, v');
  }

  /** Theorem: as long as a handler runs, the bytes and the control data of every file it
    * has accepted are in the store. */
  lemma AcceptedFilesStay(c: Context, trace: seq<State>, events: seq<Event>, i: nat, id: nat, n: string)
    requires c.env.Usable() && Serves(c, trace, events) && i < |trace|
    requires id in trace[i].handlers && n in trace[i].handlers[id].state.expecting
    ensures var uf, blobs := trace[i].handlers[id].state.expecting[n], trace[i].sys.gate.blobs;
            {Blob(uf.storeID), Blob(uf.controlID)} <= blobs + {Blob(NoAsset)}
  {
    hide Session.Inv, Enabled, Apply, Next;
    ServerRefines(c, trace, events, i);
    var strace, steps :| Run(c.env, strace, steps) && strace[|steps|] == trace[i].sys;
    RunGate(c.env, strace, steps, |steps|);
    assert SoundHandler(c, trace[i].handlers[id], trace[i].sys.sessions[id]);
  }
}
