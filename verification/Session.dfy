/** An upload session driven by a changes file (upload_session.go): the message
  * loop of its handler as a state machine. */
module Session {
  import opened Basics
  import opened DebVersions
  import opened ReleaseIndex
  import opened Changes

  /** What the hashers compute from the bytes of a blob. */
  datatype Hashers = Hashers(md5: AssetID -> Digest, sha1: AssetID -> Digest, sha256: AssetID -> Digest)

  /** What the package reader says of a .deb; without a name it is unreadable. */
  datatype Package = Package(name: Option<string>, version: DebVersion, architecture: string)

  datatype HookResult = HookResult(output: string, failed: bool)

  datatype UploadFile = UploadFile(
    name: string,
    received: bool,
    size: int,
    storeID: AssetID,
    controlID: AssetID,
    pkg: Option<Package>,
    signedBy: seq<string>,
    hook: Option<HookResult>)

  /** One file sent to the session, with what the store, the readers and the hook answer. */
  datatype Upload = Upload(
    name: string,
    blob: AssetID,        // the id of the bytes received
    size: int,
    stored: bool,         // storing the bytes succeeded
    pkg: Package,         // what the package reader makes of a .deb
    controlRead: bool,    // the control data of a .deb or .dsc could be read
    controlID: AssetID,   // its id
    controlStored: bool,  // and storing it succeeded
    verified: bool,       // a .deb is signed by a known key
    signers: seq<string>, // the identities of that key
    linked: bool,         // linking into the session directory succeeded
    hook: HookResult)     // what the upload hook did

  datatype Failure =
    | NotExpected | AlreadyUploaded | NotListed | StoreFailed | Unreadable | NoControl
    | ControlFailed | Unverified | HashMismatch | LinkFailed

  datatype State = State(
    expecting: map<string, UploadFile>,
    fileHashes: HashMap,
    verifyDebs: bool,
    complete: bool,
    err: Option<Failure>,
    merges: nat)          // merges requested so far

  /** A missing digest reads as the empty one. */
  function Lookup(h: HashSet, tag: string): Digest {
    if tag in h then h[tag] else []
  }

  predicate Matches(hs: Hashers, h: HashSet, blob: AssetID) {
    Lookup(h, "md5") == hs.md5(blob) && Lookup(h, "sha1") == hs.sha1(blob) && Lookup(h, "sha256") == hs.sha256(blob)
  }

  function Awaited(name: string): UploadFile {
    UploadFile(name, false, 0, NoAsset, NoAsset, None, [], None)
  }

  /** The session made for a changes file that lists `fileHashes`. */
  function Opened(fileHashes: HashMap, verifyDebs: bool): State {
    State(map n | n in (set k | k in fileHashes :: k.name) :: Awaited(n), fileHashes, verifyDebs, false, None, 0)
  }

  predicate Lists(s: State, name: string, key: Option<Key>) {
    match key
    case Some(k) => k in s.fileHashes && k.name == name
    case None => forall k :: k in s.fileHashes ==> k.name != name
  }

  // ------------------------------------------------------------------- one message

  /** What reading a .deb or .dsc leaves in its entry, and how it ends. */
  function ReadContents(verifyDebs: bool, uf: UploadFile, u: Upload): (UploadFile, Option<Failure>) {
    if HasSuffix(u.name, ".deb") then
      if u.pkg.name.None? then (uf, Some(Unreadable))
      else if !u.controlRead then (uf.(pkg := Some(u.pkg)), Some(NoControl))
      else if !u.controlStored then (uf.(pkg := Some(u.pkg), controlID := NoAsset), Some(ControlFailed))
      else
        var read := uf.(pkg := Some(u.pkg), controlID := u.controlID);
        if !verifyDebs then (read, None)
        else if u.verified then (read.(signedBy := uf.signedBy + u.signers), None)
        else (read, Some(Unverified))
    else if HasSuffix(u.name, ".dsc") then
      if !u.controlRead then (uf, Some(Unreadable))
      else if !u.controlStored then (uf.(controlID := NoAsset), Some(ControlFailed))
      else (uf.(controlID := u.controlID), None)
    else (uf, None)
  }

  /** doAddFile. Of several listed keys with the name, `key` is the one the program's
    * map iteration meets first. */
  function AddFile(hs: Hashers, s: State, u: Upload, key: Option<Key>): (State, Option<Failure>)
    requires Lists(s, u.name, key)
  {
    if u.name !in s.expecting then (s, Some(NotExpected))
    else
      var uf := s.expecting[u.name];
      if uf.received then (s, Some(AlreadyUploaded))
      else if key.None? then (s, Some(NotListed))
      else if !u.stored then (s, Some(StoreFailed))
      else
        var (read, failure) := ReadContents(s.verifyDebs, uf, u);
        var s1 := s.(expecting := s.expecting[u.name := read]);
        if failure.Some? then (s1, failure)
        else if !Matches(hs, s.fileHashes[key.value], u.blob) then (s1, Some(HashMismatch))
        else if !u.linked then (s1, Some(LinkFailed))
        else
          // The hook's failure is recorded and goes no further.
          var done := read.(storeID := u.blob, size := u.size, hook := Some(u.hook), received := true);
          (s.(expecting := s.expecting[u.name := done]), None)
  }

  predicate AllReceived(s: State) {
    forall n :: n in s.expecting ==> s.expecting[n].received
  }

  /** The handler's turn for one added file. */
  function Handle(hs: Hashers, s: State, u: Upload, key: Option<Key>): State
    requires Lists(s, u.name, key)
  {
    var (s1, failure) := AddFile(hs, s, u, key);
    var s2 := s1.(err := failure);
    if failure.Some? || !AllReceived(s2) then s2
    else s2.(complete := true, merges := s2.merges + 1)
  }

  // ---------------------------------------------------------- the handler as it runs

  class UploadSession {
    const hashers: Hashers
    const fileHashes: HashMap
    const verifyDebs: bool
    var expecting: map<string, UploadFile>
    var complete: bool
    var err: Option<Failure>
    var merges: nat

    function Current(): State
      reads this
    {
      State(expecting, fileHashes, verifyDebs, complete, err, merges)
    }

    constructor (hs: Hashers, hashes: HashMap, verify: bool)
      ensures Current() == Opened(hashes, verify) && hashers == hs
    {
      hashers, fileHashes, verifyDebs := hs, hashes, verify;
      complete, err, merges := false, None, 0;
      expecting := Opened(hashes, verify).expecting;
    }

    /** The search for an upload slot. */
    method FindKey(name: string) returns (key: Option<Key>)
      ensures Lists(Current(), name, key)
    {
      var todo := fileHashes.Keys;
      while todo != {}
        invariant todo <= fileHashes.Keys
        invariant forall k :: k in fileHashes && k !in todo ==> k.name != name
        decreases todo
      {
        var k :| k in todo;
        if name == k.name {
          return Some(k);
        }
        todo := todo - {k};
      }
      return None;
    }

    /** The part of doAddFile that depends on the kind of file; it updates the entry. */
    method DoReadContents(u: Upload) returns (failure: Option<Failure>)
      requires u.name in expecting
      modifies this`expecting
      ensures var (read, end) := ReadContents(verifyDebs, old(expecting)[u.name], u);
              expecting == old(expecting)[u.name := read] && failure == end
    {
      var uf := expecting[u.name];
      if HasSuffix(u.name, ".deb") {
        if u.pkg.name.None? {
          return Some(Unreadable);
        }
        uf := uf.(pkg := Some(u.pkg));
        expecting := expecting[u.name := uf];
        if !u.controlRead {
          return Some(NoControl);
        }
        if !u.controlStored {
          expecting := expecting[u.name := uf.(controlID := NoAsset)];
          return Some(ControlFailed);
        }
        uf := uf.(controlID := u.controlID);
        expecting := expecting[u.name := uf];
        if verifyDebs {
          if u.verified {
            uf := uf.(signedBy := uf.signedBy + u.signers);
            expecting := expecting[u.name := uf];
          } else {
            return Some(Unverified);
          }
        }
      } else if HasSuffix(u.name, ".dsc") {
        if !u.controlRead {
          return Some(Unreadable);
        }
        if !u.controlStored {
          expecting := expecting[u.name := uf.(controlID := NoAsset)];
          return Some(ControlFailed);
        }
        uf := uf.(controlID := u.controlID);
        expecting := expecting[u.name := uf];
      }
      return None;
    }

    method DoAddFile(u: Upload) returns (failure: Option<Failure>)
      modifies this`expecting
      ensures exists key :: Lists(old(Current()), u.name, key) &&
                (Current(), failure) == AddFile(hashers, old(Current()), u, key)
    {
      hide ReadContents, Matches;
      var key := FindKey(u.name);
      assert Lists(Current(), u.name, key);
      if u.name !in expecting {
        return Some(NotExpected);
      }
      if expecting[u.name].received {
        return Some(AlreadyUploaded);
      }
      if key.None? {
        return Some(NotListed);
      }
      if !u.stored {
        return Some(StoreFailed);
      }
      failure := DoReadContents(u);
      if failure.Some? {
        return;
      }
      if !Matches(hashers, fileHashes[key.value], u.blob) {
        return Some(HashMismatch);
      }
      if !u.linked {
        return Some(LinkFailed);
      }
      var uf := expecting[u.name];
      uf := uf.(storeID := u.blob, size := u.size);
      uf := uf.(hook := Some(u.hook));
      uf := uf.(received := true);
      expecting := expecting[u.name := uf];
      assert expecting == old(expecting)[u.name := uf];
      return None;
    }

    /** One message on the incoming channel. */
    method HandleIncoming(u: Upload)
      modifies this`expecting, this`err, this`complete, this`merges
      ensures exists key :: Lists(old(Current()), u.name, key) && Current() == Handle(hashers, old(Current()), u, key)
    {
      hide Lists, AddFile;
      err := DoAddFile(u);
      if err.Some? {
        return;
      }
      var all := true;
      var todo := expecting.Keys;
      while todo != {}
        invariant todo <= expecting.Keys
        invariant all <==> forall n :: n in expecting && n !in todo ==> expecting[n].received
        decreases todo
      {
        var n :| n in todo;
        if !expecting[n].received {
          all := false;
        }
        todo := todo - {n};
      }
      if all {
        complete := true;
        merges := merges + 1;
      }
    }
  }

  // ---------------------------------------------------------------- runs of a session

  /** A run: files sent one after the other, whatever their names and contents. */
  ghost predicate Run(hs: Hashers, fileHashes: HashMap, verifyDebs: bool, trace: seq<State>, sent: seq<Upload>) {
    |trace| == |sent| + 1 && trace[0] == Opened(fileHashes, verifyDebs) &&
    forall i :: 0 <= i < |sent| ==>
      exists key :: Lists(trace[i], sent[i].name, key) && trace[i + 1] == Handle(hs, trace[i], sent[i], key)
  }

  /** The bytes kept for `name` have all three digests of a listed entry of that name. */
  predicate Checked(hs: Hashers, s: State, name: string)
    requires name in s.expecting
  {
    exists k :: k in s.fileHashes && k.name == name && Matches(hs, s.fileHashes[k], s.expecting[name].storeID)
  }

  /** An entry stands under its name, and a .deb that came in could be read. */
  predicate WellRead(name: string, uf: UploadFile) {
    && uf.name == name
    && (uf.received && HasSuffix(name, ".deb") ==> uf.pkg.Some? && uf.pkg.value.name.Some?)
  }

  predicate Inv(hs: Hashers, s: State) {
    && (forall n :: n in s.expecting ==> exists k :: k in s.fileHashes && k.name == n)
    && (forall n :: n in s.expecting ==> WellRead(n, s.expecting[n]))
    && (forall n :: n in s.expecting && s.expecting[n].received ==> Checked(hs, s, n))
    && s.merges == (if s.expecting != map[] && AllReceived(s) then 1 else 0)
    && (s.complete <==> s.merges == 1)
  }

  lemma ContentsChange(verifyDebs: bool, uf: UploadFile, u: Upload)
    ensures var (read, failure) := ReadContents(verifyDebs, uf, u);
            && read.name == uf.name && read.received == uf.received && read.storeID == uf.storeID
            && (failure.None? && HasSuffix(u.name, ".deb") ==> read.pkg.Some? && read.pkg.value.name.Some?)
  {
  }

  /** What one call of doAddFile can change. */
  lemma AddFileChanges(hs: Hashers, s: State, u: Upload, key: Option<Key>)
    requires Lists(s, u.name, key)
    ensures var (s', failure) := AddFile(hs, s, u, key);
            && s' == s.(expecting := s'.expecting) && s'.expecting.Keys == s.expecting.Keys
            && (forall n :: n in s.expecting && (n != u.name || s.expecting[n].received) ==> s'.expecting[n] == s.expecting[n])
            && (failure.Some? ==> forall n :: n in s.expecting ==> s'.expecting[n].received == s.expecting[n].received)
            && (failure.None? ==>
                  && key.Some? && u.name in s.expecting && !s.expecting[u.name].received && s'.expecting[u.name].received
                  && Matches(hs, s.fileHashes[key.value], s'.expecting[u.name].storeID))
  {
    hide ReadContents, Matches;
    if u.name in s.expecting {
      ContentsChange(s.verifyDebs, s.expecting[u.name], u);
    }
  }

  /** Theorem: exactly when a file is accepted. */
  lemma AcceptedIff(hs: Hashers, s: State, u: Upload, key: Option<Key>)
    requires Lists(s, u.name, key)
    ensures Handle(hs, s, u, key).err == AddFile(hs, s, u, key).1
    ensures AddFile(hs, s, u, key).1.None? <==>
              && u.name in s.expecting && !s.expecting[u.name].received
              && key.Some? && key.value in s.fileHashes && key.value.name == u.name
              && u.stored
              && (HasSuffix(u.name, ".deb") ==>
                    u.pkg.name.Some? && u.controlRead && u.controlStored && (s.verifyDebs ==> u.verified))
              && (HasSuffix(u.name, ".dsc") ==> u.controlRead && u.controlStored)
              && (var h := s.fileHashes[key.value];
                  && (if "md5" in h then h["md5"] else []) == hs.md5(u.blob)
                  && (if "sha1" in h then h["sha1"] else []) == hs.sha1(u.blob)
                  && (if "sha256" in h then h["sha256"] else []) == hs.sha256(u.blob))
              && u.linked
  {
    OneSuffix(u.name);
  }

  lemma OneSuffix(name: string)
    ensures !(HasSuffix(name, ".deb") && HasSuffix(name, ".dsc"))
  {
    assert ".deb"[2] != ".dsc"[2];
  }

  /** Each refusal has the reason it gives. */
  lemma RefusedBecause(hs: Hashers, s: State, u: Upload, key: Option<Key>)
    requires Lists(s, u.name, key) && AddFile(hs, s, u, key).1.Some?
    ensures var deb, dsc := HasSuffix(u.name, ".deb"), HasSuffix(u.name, ".dsc");
            match AddFile(hs, s, u, key).1.value
            case NotExpected => u.name !in s.expecting
            case AlreadyUploaded => u.name in s.expecting && s.expecting[u.name].received
            case NotListed => forall k :: k in s.fileHashes ==> k.name != u.name
            case StoreFailed => !u.stored
            case Unreadable => (deb && u.pkg.name.None?) || (dsc && !u.controlRead)
            case NoControl => deb && !u.controlRead
            case ControlFailed => (deb || dsc) && !u.controlStored
            case Unverified => deb && s.verifyDebs && !u.verified
            case HashMismatch =>
              && key.Some?
              && var h := s.fileHashes[key.value];
                 || (if "md5" in h then h["md5"] else []) != hs.md5(u.blob)
                 || (if "sha1" in h then h["sha1"] else []) != hs.sha1(u.blob)
                 || (if "sha256" in h then h["sha256"] else []) != hs.sha256(u.blob)
            case LinkFailed => !u.linked
  {
  }

  /** What is on record of a file that was accepted; one that was refused leaves no
    * bytes, size or hook result there. */
  lemma RecordOf(hs: Hashers, s: State, u: Upload, key: Option<Key>)
    requires Lists(s, u.name, key) && u.name in s.expecting
    ensures var (s', failure) := AddFile(hs, s, u, key);
            var uf, uf' := s.expecting[u.name], s'.expecting[u.name];
            && uf'.name == uf.name
            && (failure.Some? ==>
                  uf'.storeID == uf.storeID && uf'.size == uf.size && uf'.hook == uf.hook && uf'.received == uf.received)
            && (failure.None? ==>
                  && uf'.storeID == u.blob && uf'.size == u.size && uf'.hook == Some(u.hook) && uf'.received
                  && (if HasSuffix(u.name, ".deb")
                      then uf'.pkg == Some(u.pkg) && uf'.signedBy == uf.signedBy + if s.verifyDebs then u.signers else []
                      else uf'.pkg == uf.pkg && uf'.signedBy == uf.signedBy)
                  && uf'.controlID == if HasSuffix(u.name, ".deb") || HasSuffix(u.name, ".dsc") then u.controlID else uf.controlID)
  {
    hide Matches, ReadContents, HasSuffix;
    ReadRecord(s.verifyDebs, s.expecting[u.name], u);
    var read := ReadContents(s.verifyDebs, s.expecting[u.name], u).0;
    if AddFile(hs, s, u, key).1.None? {
      assert AddFile(hs, s, u, key).0.expecting[u.name] ==
             read.(storeID := u.blob, size := u.size, hook := Some(u.hook), received := true);
    }
  }

  lemma ReadRecord(verifyDebs: bool, uf: UploadFile, u: Upload)
    ensures var (read, failure) := ReadContents(verifyDebs, uf, u);
            && read.name == uf.name && read.received == uf.received
            && read.storeID == uf.storeID && read.size == uf.size && read.hook == uf.hook
            && (failure.None? ==>
                  && (if HasSuffix(u.name, ".deb")
                      then read.pkg == Some(u.pkg) && read.signedBy == uf.signedBy + if verifyDebs then u.signers else []
                      else read.pkg == uf.pkg && read.signedBy == uf.signedBy)
                  && read.controlID == if HasSuffix(u.name, ".deb") || HasSuffix(u.name, ".dsc") then u.controlID else uf.controlID)
  {
    hide HasSuffix;
  }

  /** The upload hook decides nothing: whatever it does, failing included, a file is
    * accepted or refused as before, and its result is put on record if accepted. */
  lemma HookDecidesNothing(hs: Hashers, s: State, u: Upload, key: Option<Key>, hook: HookResult)
    requires Lists(s, u.name, key)
    ensures var (a, failure) := AddFile(hs, s, u, key);
            AddFile(hs, s, u.(hook := hook), key) ==
              if failure.Some? then (a, failure)
              else (a.(expecting := a.expecting[u.name := a.expecting[u.name].(hook := Some(hook))]), None)
  {
    hide ReadContents, Matches;
    if u.name in s.expecting {
      HookIsNotRead(s.verifyDebs, s.expecting[u.name], u, hook);
      var (a, failure) := AddFile(hs, s, u, key);
      var (b, _) := AddFile(hs, s, u.(hook := hook), key);
      if failure.None? {
        assert b.expecting == a.expecting[u.name := a.expecting[u.name].(hook := Some(hook))];
      }
    }
  }

  lemma HookIsNotRead(verifyDebs: bool, uf: UploadFile, u: Upload, hook: HookResult)
    ensures ReadContents(verifyDebs, uf, u.(hook := hook)) == ReadContents(verifyDebs, uf, u)
  {
  }

  /** Which ids doAddFile can put into an entry. */
  lemma AddFileIDs(hs: Hashers, s: State, u: Upload, key: Option<Key>)
    requires Lists(s, u.name, key) && u.name in s.expecting
    ensures var uf, uf' := s.expecting[u.name], AddFile(hs, s, u, key).0.expecting[u.name];
            if uf.received || key.None? || !u.stored then uf' == uf
            else (uf'.storeID == uf.storeID || uf'.storeID == u.blob) &&
                 uf'.controlID == ReadContents(s.verifyDebs, uf, u).0.controlID
  {
    hide ReadContents, Matches;
    ContentsChange(s.verifyDebs, s.expecting[u.name], u);
  }

  lemma StillWellRead(hs: Hashers, s: State, u: Upload, key: Option<Key>)
    requires Lists(s, u.name, key) && forall n :: n in s.expecting ==> WellRead(n, s.expecting[n])
    ensures var s' := AddFile(hs, s, u, key).0;
            forall n :: n in s'.expecting ==> WellRead(n, s'.expecting[n])
  {
    hide ReadContents, Matches, HasSuffix;
    AddFileChanges(hs, s, u, key);
    var s' := AddFile(hs, s, u, key).0;
    if u.name in s.expecting {
      ContentsChange(s.verifyDebs, s.expecting[u.name], u);
      assert WellRead(u.name, s.expecting[u.name]);
      if s'.expecting[u.name].received && !s.expecting[u.name].received {
        assert ReadContents(s.verifyDebs, s.expecting[u.name], u).1.None?;
      }
      assert WellRead(u.name, s'.expecting[u.name]);
    }
    forall n | n in s'.expecting ensures WellRead(n, s'.expecting[n]) {
      if n != u.name {
        assert s'.expecting[n] == s.expecting[n];
      }
    }
  }

  lemma StillChecked(hs: Hashers, s: State, u: Upload, key: Option<Key>)
    requires Lists(s, u.name, key) && forall n :: n in s.expecting && s.expecting[n].received ==> Checked(hs, s, n)
    ensures var s' := Handle(hs, s, u, key);
            forall n :: n in s'.expecting && s'.expecting[n].received ==> Checked(hs, s', n)
  {
    hide AddFile, Matches;
    AddFileChanges(hs, s, u, key);
    var s' := Handle(hs, s, u, key);
    forall n | n in s'.expecting && s'.expecting[n].received ensures Checked(hs, s', n) {
      if s.expecting[n].received {
        assert Checked(hs, s, n);
      } else {
        assert key.value in s'.fileHashes && key.value.name == n;
      }
    }
  }

  lemma HandleKeeps(hs: Hashers, s: State, u: Upload, key: Option<Key>)
    requires Inv(hs, s) && Lists(s, u.name, key)
    ensures var s' := Handle(hs, s, u, key);
            && Inv(hs, s') && s'.fileHashes == s.fileHashes && s'.expecting.Keys == s.expecting.Keys
            && forall n :: n in s.expecting && s.expecting[n].received ==> s'.expecting[n] == s.expecting[n]
  {
    hide AddFile, Matches, Checked, Lists, WellRead, AllReceived;
    AddFileChanges(hs, s, u, key);
    StillWellRead(hs, s, u, key);
    StillChecked(hs, s, u, key);
    CountsOneMerge(hs, s, u, key);
  }

  lemma CountsOneMerge(hs: Hashers, s: State, u: Upload, key: Option<Key>)
    requires Inv(hs, s) && Lists(s, u.name, key)
    ensures var s' := Handle(hs, s, u, key);
            && s'.merges == (if s'.expecting != map[] && AllReceived(s') then 1 else 0)
            && (s'.complete <==> s'.merges == 1)
  {
    hide AddFile, Matches, Checked, Lists, WellRead;
    AddFileChanges(hs, s, u, key);
    var s' := Handle(hs, s, u, key);
    assert s'.expecting != map[] <==> s.expecting != map[] by {
      assert s'.expecting.Keys == s.expecting.Keys;
    }
  }

  lemma {:induction false} RunKeeps(hs: Hashers, fileHashes: HashMap, verifyDebs: bool, trace: seq<State>, sent: seq<Upload>, i: nat)
    requires Run(hs, fileHashes, verifyDebs, trace, sent) && i < |trace|
    ensures Inv(hs, trace[i]) && trace[i].fileHashes == fileHashes
    ensures trace[i].expecting.Keys == set k | k in fileHashes :: k.name
  {
    if i > 0 {
      RunKeeps(hs, fileHashes, verifyDebs, trace, sent, i - 1);
      var key :| Lists(trace[i - 1], sent[i - 1].name, key) && trace[i] == Handle(hs, trace[i - 1], sent[i - 1], key);
      HandleKeeps(hs, trace[i - 1], sent[i - 1], key);
    }
  }

  /** A session awaits one file for each name listed, of which it knows only the name. */
  lemma OpenedAwaits(fileHashes: HashMap, verifyDebs: bool)
    ensures var s := Opened(fileHashes, verifyDebs);
            && (forall n :: n in s.expecting <==> exists k :: k in fileHashes && k.name == n)
            && (forall n :: n in s.expecting ==> s.expecting[n] == UploadFile(n, false, 0, NoAsset, NoAsset, None, [], None))
            && s.fileHashes == fileHashes && s.verifyDebs == verifyDebs && !s.complete && s.merges == 0
  {
  }

  lemma CheckedMeans(hs: Hashers, s: State, n: string)
    requires n in s.expecting && Checked(hs, s, n)
    ensures exists k ::
              && k in s.fileHashes && k.name == n
              && var h, id := s.fileHashes[k], s.expecting[n].storeID;
                 && (if "md5" in h then h["md5"] else []) == hs.md5(id)
                 && (if "sha1" in h then h["sha1"] else []) == hs.sha1(id)
                 && (if "sha256" in h then h["sha256"] else []) == hs.sha256(id)
  {
    var k :| k in s.fileHashes && k.name == n && Matches(hs, s.fileHashes[k], s.expecting[n].storeID);
    assert k in s.fileHashes && k.name == n;
  }

  /** Theorem: a session asks for a merge at most once, namely when the last of the
    * files it expects has come in, and each has the digests listed for its name. */
  lemma MergedOnce(hs: Hashers, fileHashes: HashMap, verifyDebs: bool, trace: seq<State>, sent: seq<Upload>, i: nat)
    requires Run(hs, fileHashes, verifyDebs, trace, sent) && i < |trace|
    ensures trace[i].merges <= 1 && (trace[i].complete <==> trace[i].merges == 1)
    ensures trace[i].merges == 1 <==> fileHashes != map[] && forall n :: n in trace[i].expecting ==> trace[i].expecting[n].received
    ensures trace[i].merges == 1 ==>
              forall n :: n in (set k | k in fileHashes :: k.name) ==>
                n in trace[i].expecting && exists k ::
                  && k in fileHashes && k.name == n
                  && var h, id := fileHashes[k], trace[i].expecting[n].storeID;
                     && (if "md5" in h then h["md5"] else []) == hs.md5(id)
                     && (if "sha1" in h then h["sha1"] else []) == hs.sha1(id)
                     && (if "sha256" in h then h["sha256"] else []) == hs.sha256(id)
  {
    hide Run, WellRead, Checked;
    RunKeeps(hs, fileHashes, verifyDebs, trace, sent, i);
    forall n | trace[i].merges == 1 && n in (set k | k in fileHashes :: k.name)
      ensures n in trace[i].expecting && exists k ::
                && k in fileHashes && k.name == n
                && var h, id := fileHashes[k], trace[i].expecting[n].storeID;
                   && (if "md5" in h then h["md5"] else []) == hs.md5(id)
                   && (if "sha1" in h then h["sha1"] else []) == hs.sha1(id)
                   && (if "sha256" in h then h["sha256"] else []) == hs.sha256(id)
    {
      assert n in trace[i].expecting;
      CheckedMeans(hs, trace[i], n);
    }
    if fileHashes != map[] {
      var k :| k in fileHashes;
      assert k.name in trace[i].expecting;
    }
  }

  /** A received file is never replaced. */
  lemma {:induction false} ReceivedStays(hs: Hashers, fileHashes: HashMap, verifyDebs: bool, trace: seq<State>, sent: seq<Upload>,
                                         i: nat, j: nat, n: string)
    requires Run(hs, fileHashes, verifyDebs, trace, sent) && i <= j < |trace|
    requires n in trace[i].expecting && trace[i].expecting[n].received
    ensures n in trace[j].expecting && trace[j].expecting[n] == trace[i].expecting[n]
    decreases j - i
  {
    if i < j {
      RunKeeps(hs, fileHashes, verifyDebs, trace, sent, i);
      var key :| Lists(trace[i], sent[i].name, key) && trace[i + 1] == Handle(hs, trace[i], sent[i], key);
      HandleKeeps(hs, trace[i], sent[i], key);
      ReceivedStays(hs, fileHashes, verifyDebs, trace, sent, i + 1, j, n);
    }
  }
}
