/** Turning a finished session into an index entry (NewReleaseIndexEntry in
  * releaseindex.go). */
module ReleaseEntry {
  import opened Basics
  import opened DebVersions
  import opened ReleaseIndex
  import opened History
  import opened Collector
  import opened Session

  type Files = map<string, UploadFile>

  predicate IsDeb(f: UploadFile) {
    HasSuffix(f.name, ".deb")
  }

  predicate IsDsc(f: UploadFile) {
    !IsDeb(f) && HasSuffix(f.name, ".dsc")
  }

  /** The package reader of a .deb is at hand. */
  predicate HasReader(f: UploadFile) {
    IsDeb(f) ==> f.pkg.Some?
  }

  function FileOf(f: UploadFile): ItemFile {
    ItemFile(f.name, f.storeID, f.size, f.signedBy)
  }

  predicate Named(f: UploadFile) {
    f.pkg.Some? && f.pkg.value.name.Some?
  }

  function BinaryItem(f: UploadFile): Item
    requires Named(f)
  {
    var pkg := f.pkg.value;
    Item(pkg.name.value, pkg.version, pkg.architecture, "main", f.controlID, [FileOf(f)])
  }

  /** A binary package the session may contain. */
  predicate Acceptable(f: UploadFile, version: DebVersion) {
    IsDeb(f) ==> Named(f) && f.pkg.value.version == version
  }

  function Debs(files: Files, done: set<string>): set<string>
    requires done <= files.Keys
  {
    set n | n in done && IsDeb(files[n])
  }

  /** The binary items are those of the .debs, one for each. */
  ghost predicate HasBinaries(files: Files, done: set<string>, binItems: seq<Item>)
    requires done <= files.Keys
    requires forall n :: n in done && IsDeb(files[n]) ==> Named(files[n])
  {
    && (forall b :: b in binItems <==> exists n :: n in done && IsDeb(files[n]) && b == BinaryItem(files[n]))
    && |binItems| == |Debs(files, done)|
  }

  /** The source files are all the others, once for each. */
  ghost predicate HasSources(files: Files, done: set<string>, srcFiles: seq<ItemFile>)
    requires done <= files.Keys
  {
    && (forall x :: x in srcFiles <==> exists n :: n in done && !IsDeb(files[n]) && x == FileOf(files[n]))
    && |srcFiles| == |done - Debs(files, done)|
  }

  /** The control data is that of a .dsc, if there is one. */
  ghost predicate HasControl(files: Files, done: set<string>, controlID: AssetID)
    requires done <= files.Keys
  {
    if exists n :: n in done && IsDsc(files[n])
    then exists n :: n in done && IsDsc(files[n]) && controlID == files[n].controlID
    else controlID == NoAsset
  }

  /** Every file is in the entry once, in its place, and nothing else is. */
  ghost predicate Collates(files: Files, done: set<string>, srcFiles: seq<ItemFile>, binItems: seq<Item>, controlID: AssetID)
    requires done <= files.Keys
    requires forall n :: n in done && IsDeb(files[n]) ==> Named(files[n])
  {
    HasSources(files, done, srcFiles) && HasBinaries(files, done, binItems) && HasControl(files, done, controlID)
  }

  /** `e` is an entry for `files` under the names given by the changes file. */
  ghost predicate MadeFrom(files: Files, source: string, sourceVersion: DebVersion, changesID: AssetID, e: Entry) {
    && (forall n :: n in files && IsDeb(files[n]) ==> Named(files[n]))
    && e.sourceItem.name == source && e.sourceItem.version == sourceVersion && e.changesID == changesID
    && e.sourceItem.architecture == "source" && e.sourceItem.component == "main"
    && Collates(files, files.Keys, e.sourceItem.files, e.binaryItems, e.sourceItem.controlID)
  }

  /** The map of files is visited in any order. */
  method NewReleaseIndexEntry(files: Files, source: string, sourceVersion: DebVersion,
                              binVersion: DebVersion, changesID: AssetID)
    returns (entry: Option<Entry>)
    requires forall n :: n in files ==> HasReader(files[n])
    ensures entry.Some? <==> forall n :: n in files && HasSuffix(files[n].name, ".deb") ==>
                               files[n].pkg.Some? && files[n].pkg.value.name.Some? && files[n].pkg.value.version == binVersion
    ensures entry.Some? ==> MadeFrom(files, source, sourceVersion, changesID, entry.value)
  {
    hide HasSuffix, BinaryItem, FileOf, Collates;
    var srcFiles: seq<ItemFile>, binItems: seq<Item>, controlID := [], [], NoAsset;
    NothingCollated(files);
    var todo := files.Keys;
    ghost var done: set<string> := {};
    while todo != {}
      invariant todo <= files.Keys && done == files.Keys - todo
      invariant forall n :: n in done ==> Acceptable(files[n], binVersion)
      invariant Collates(files, done, srcFiles, binItems, controlID)
      decreases todo
    {
      var name :| name in todo;
      var f := files[name];
      if HasSuffix(f.name, ".deb") {
        if f.pkg.value.name.None? {
          return None;
        }
        if f.pkg.value.version != binVersion {
          return None;
        }
        CollateBinary(files, done, name, srcFiles, binItems, controlID);
        binItems := binItems + [BinaryItem(f)];
      } else if HasSuffix(f.name, ".dsc") {
        CollateSource(files, done, name, srcFiles, binItems, controlID);
        srcFiles := srcFiles + [FileOf(f)];
        controlID := f.controlID;
      } else {
        CollateSource(files, done, name, srcFiles, binItems, controlID);
        srcFiles := srcFiles + [FileOf(f)];
      }
      todo, done := todo - {name}, done + {name};
    }
    assert done == files.Keys;
    return Some(Entry(Item(source, sourceVersion, "source", "main", controlID, srcFiles), binItems, changesID));
  }

  lemma NothingCollated(files: Files)
    ensures Collates(files, {}, [], [], NoAsset)
  {
  }

  lemma DebsStep(files: Files, done: set<string>, name: string)
    requires done <= files.Keys && name in files && name !in done
    ensures name !in Debs(files, done)
    ensures Debs(files, done + {name}) == if IsDeb(files[name]) then Debs(files, done) + {name} else Debs(files, done)
    ensures done + {name} - Debs(files, done + {name}) ==
            if IsDeb(files[name]) then done - Debs(files, done) else done - Debs(files, done) + {name}
  {
    hide HasSuffix;
  }

  lemma CollateBinary(files: Files, done: set<string>, name: string,
                      srcFiles: seq<ItemFile>, binItems: seq<Item>, controlID: AssetID)
    requires done <= files.Keys && name in files && name !in done
    requires forall n :: n in done + {name} && IsDeb(files[n]) ==> Named(files[n])
    requires Collates(files, done, srcFiles, binItems, controlID) && IsDeb(files[name])
    ensures Collates(files, done + {name}, srcFiles, binItems + [BinaryItem(files[name])], controlID)
  {
    hide HasSources, HasBinaries;
    SourcesStep(files, done, name, srcFiles);
    BinariesStep(files, done, name, binItems);
  }

  lemma CollateSource(files: Files, done: set<string>, name: string,
                      srcFiles: seq<ItemFile>, binItems: seq<Item>, controlID: AssetID)
    requires done <= files.Keys && name in files && name !in done
    requires forall n :: n in done + {name} && IsDeb(files[n]) ==> Named(files[n])
    requires Collates(files, done, srcFiles, binItems, controlID) && !IsDeb(files[name])
    ensures Collates(files, done + {name}, srcFiles + [FileOf(files[name])], binItems,
                     if IsDsc(files[name]) then files[name].controlID else controlID)
  {
    hide HasSources, HasBinaries, HasSuffix;
    SourcesStep(files, done, name, srcFiles);
    BinariesStep(files, done, name, binItems);
  }

  lemma SourcesStep(files: Files, done: set<string>, name: string, srcFiles: seq<ItemFile>)
    requires done <= files.Keys && name in files && name !in done && HasSources(files, done, srcFiles)
    ensures HasSources(files, done + {name}, if IsDeb(files[name]) then srcFiles else srcFiles + [FileOf(files[name])])
  {
    hide IsDeb, FileOf, Debs;
    DebsStep(files, done, name);
    var next := if IsDeb(files[name]) then srcFiles else srcFiles + [FileOf(files[name])];
    forall x ensures x in next <==>
                     exists n :: n in done + {name} && !IsDeb(files[n]) && x == FileOf(files[n]) {
      if !IsDeb(files[name]) && x == FileOf(files[name]) {
        assert name in done + {name};
      }
    }
  }

  lemma BinariesStep(files: Files, done: set<string>, name: string, binItems: seq<Item>)
    requires done <= files.Keys && name in files && name !in done
    requires forall n :: n in done + {name} && IsDeb(files[n]) ==> Named(files[n])
    requires HasBinaries(files, done, binItems)
    ensures HasBinaries(files, done + {name}, if IsDeb(files[name]) then binItems + [BinaryItem(files[name])] else binItems)
  {
    hide IsDeb, BinaryItem, Debs, Named;
    DebsStep(files, done, name);
    if IsDeb(files[name]) {
      var next := binItems + [BinaryItem(files[name])];
      forall b ensures b in next <==> exists n :: n in done + {name} && IsDeb(files[n]) && b == BinaryItem(files[n]) {
        if b == BinaryItem(files[name]) {
          assert name in done + {name};
        }
      }
    }
  }

  /** Theorem: each .deb is one binary item, under the package's own name, version and
    * architecture, with its control data and that one file; each other file is one of the
    * source files; and the control data of the source is that of a .dsc. */
  lemma EntryOverFields(files: Files, source: string, sourceVersion: DebVersion, changesID: AssetID, e: Entry)
    requires MadeFrom(files, source, sourceVersion, changesID, e)
    ensures forall n :: n in files && HasSuffix(files[n].name, ".deb") ==> files[n].pkg.Some? && files[n].pkg.value.name.Some?
    ensures forall b :: b in e.binaryItems <==>
              exists n :: n in files && HasSuffix(files[n].name, ".deb") &&
                b == Item(name := files[n].pkg.value.name.value, version := files[n].pkg.value.version,
                          architecture := files[n].pkg.value.architecture, component := "main", controlID := files[n].controlID,
                          files := [ItemFile(name := files[n].name, storeID := files[n].storeID,
                                             size := files[n].size, signedBy := files[n].signedBy)])
    ensures |e.binaryItems| == |set n | n in files && HasSuffix(files[n].name, ".deb")|
    ensures forall x :: x in e.sourceItem.files <==>
              exists n :: n in files && !HasSuffix(files[n].name, ".deb") &&
                x == ItemFile(name := files[n].name, storeID := files[n].storeID,
                              size := files[n].size, signedBy := files[n].signedBy)
    ensures |e.sourceItem.files| == |set n | n in files && !HasSuffix(files[n].name, ".deb")|
    ensures e.sourceItem.architecture == "source" && e.sourceItem.component == "main"
    ensures if exists n :: n in files && HasSuffix(files[n].name, ".dsc")
            then exists n :: n in files && HasSuffix(files[n].name, ".dsc") && e.sourceItem.controlID == files[n].controlID
            else e.sourceItem.controlID == NoAsset
  {
    hide HasSuffix;
    forall n | n in files ensures IsDsc(files[n]) <==> HasSuffix(files[n].name, ".dsc") {
      OneSuffix(files[n].name);
    }
    assert (set n | n in files && HasSuffix(files[n].name, ".deb")) == Debs(files, files.Keys);
    assert (set n | n in files && !HasSuffix(files[n].name, ".deb")) == files.Keys - Debs(files, files.Keys);
  }

  /** Theorem: the entry refers to the changes file, to what the session stored for
    * its files, and to nothing else. */
  lemma EntryUsesOnlyReceived(files: Files, source: string, version: DebVersion, changesID: AssetID, e: Entry, x: StoreID)
    requires MadeFrom(files, source, version, changesID, e) && x in EntryAssets(e)
    ensures x == Blob(changesID) || x == Blob(NoAsset) ||
            exists n :: n in files && (x == Blob(files[n].storeID) || x == Blob(files[n].controlID))
  {
    hide Collates, ItemAssets, BinaryItem, FileOf;
    if x in ItemsAssets(e.binaryItems) {
      var b :| b in e.binaryItems && x in ItemAssets(b);
      BinaryUses(files, source, version, changesID, e, b, x);
    } else if x in ItemAssets(e.sourceItem) {
      SourceUses(files, source, version, changesID, e, x);
    }
  }

  lemma BinaryUses(files: Files, source: string, version: DebVersion, changesID: AssetID, e: Entry, b: Item, x: StoreID)
    requires MadeFrom(files, source, version, changesID, e)
    requires b in e.binaryItems && x in ItemAssets(b)
    ensures exists n :: n in files && (x == Blob(files[n].storeID) || x == Blob(files[n].controlID))
  {
    var n :| n in files && IsDeb(files[n]) && b == BinaryItem(files[n]);
    assert x == Blob(files[n].storeID) || x == Blob(files[n].controlID);
  }

  lemma SourceUses(files: Files, source: string, version: DebVersion, changesID: AssetID, e: Entry, x: StoreID)
    requires MadeFrom(files, source, version, changesID, e)
    requires x in ItemAssets(e.sourceItem)
    ensures x == Blob(NoAsset) || exists n :: n in files && (x == Blob(files[n].storeID) || x == Blob(files[n].controlID))
  {
    if f :| f in e.sourceItem.files && x == Blob(f.storeID) {
      var n :| n in files && !IsDeb(files[n]) && f == FileOf(files[n]);
      assert x == Blob(files[n].storeID);
    }
  }
}
