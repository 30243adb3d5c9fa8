/** Entries of a release index and the order they are kept in (releaseindex.go). */
module ReleaseIndex {
  import opened DebVersions
  import opened VersionOrder

  /** The id of a blob whose content is not interpreted; `NoAsset` is the empty id. */
  datatype AssetID = NoAsset | Asset(content: nat)

  datatype ItemFile = ItemFile(name: string, storeID: AssetID, size: int, signedBy: seq<string>)

  datatype Item = Item(
    name: string,
    version: DebVersion,
    architecture: string,
    component: string,
    controlID: AssetID,
    files: seq<ItemFile>)

  datatype Entry = Entry(sourceItem: Item, binaryItems: seq<Item>, changesID: AssetID) {
    function Name(): string { sourceItem.name }
    function Version(): DebVersion { sourceItem.version }
  }

  type Index = seq<Entry>

  /** bytes.Compare. */
  function BytesCompare(a: string, b: string): (c: int)
    ensures c == 0 <==> a == b
  {
    if a == "" then if b == "" then 0 else -1
    else if b == "" then 1
    else if a[0] < b[0] then -1
    else if a[0] > b[0] then 1
    else BytesCompare(a[1..], b[1..])
  }

  /** Name ascending, version descending. */
  function EntryOrder(a: Entry, b: Entry): int {
    var names := BytesCompare(a.Name(), b.Name());
    if names != 0 then names else Compare(b.Version(), a.Version())
  }

  predicate CleanEntry(e: Entry) {
    Clean(e.Version())
  }

  predicate CleanIndex(es: Index) {
    forall e <- es :: CleanEntry(e)
  }

  /** Strictly increasing in `EntryOrder`. */
  predicate Sorted(es: Index) {
    forall i, j :: 0 <= i < j < |es| ==> EntryOrder(es[i], es[j]) < 0
  }

  predicate AgreeUpTo(a: string, b: string, k: nat) {
    k <= |a| && k <= |b| && a[..k] == b[..k]
  }

  /** bytes.Compare is lexicographic: a proper prefix comes first, else the first difference decides. */
  lemma {:induction false} BytesLexicographic(a: string, b: string)
    ensures BytesCompare(a, b) < 0 ==>
              exists k: nat :: AgreeUpTo(a, b, k) && k < |b| && (k == |a| || a[k] < b[k])
    ensures BytesCompare(a, b) > 0 ==>
              exists k: nat :: AgreeUpTo(a, b, k) && k < |a| && (k == |b| || a[k] > b[k])
  {
    if a == "" || b == "" || a[0] != b[0] {
      assert AgreeUpTo(a, b, 0);
    } else {
      BytesLexicographic(a[1..], b[1..]);
      if BytesCompare(a, b) != 0 {
        var k: nat :| AgreeUpTo(a[1..], b[1..], k) && (k < |b| - 1 || k < |a| - 1) &&
                      (k == |a| - 1 || k == |b| - 1 || a[1..][k] != b[1..][k]) &&
                      (BytesCompare(a, b) < 0 ==> k < |b| - 1 && (k == |a| - 1 || a[1..][k] < b[1..][k])) &&
                      (BytesCompare(a, b) > 0 ==> k < |a| - 1 && (k == |b| - 1 || a[1..][k] > b[1..][k]));
        assert a[..k + 1] == [a[0]] + a[1..][..k] && b[..k + 1] == [b[0]] + b[1..][..k];
        assert AgreeUpTo(a, b, k + 1);
      }
    }
  }

  lemma {:induction false} BytesMirror(a: string, b: string)
    ensures BytesCompare(b, a) == -BytesCompare(a, b)
  {
    if a != "" && b != "" && a[0] == b[0] {
      BytesMirror(a[1..], b[1..]);
    }
  }

  lemma {:induction false} BytesTransitive(a: string, b: string, c: string)
    requires BytesCompare(a, b) <= 0 && BytesCompare(b, c) <= 0
    ensures BytesCompare(a, c) <= 0
    ensures BytesCompare(a, c) == 0 <==> BytesCompare(a, b) == 0 && BytesCompare(b, c) == 0
  {
    if a != "" && b != "" && c != "" && a[0] == b[0] == c[0] {
      BytesTransitive(a[1..], b[1..], c[1..]);
    }
  }

  lemma EntryMirror(a: Entry, b: Entry)
    ensures EntryOrder(b, a) == -EntryOrder(a, b)
    ensures a == b ==> EntryOrder(a, b) == 0
  {
    BytesMirror(a.Name(), b.Name());
    VersionMirror(a.Version(), b.Version());
  }

  /** Theorem: with EntryMirror, `EntryOrder` is a total preorder on clean entries. */
  lemma EntryTransitive(a: Entry, b: Entry, c: Entry)
    requires CleanEntry(a) && CleanEntry(b) && CleanEntry(c)
    requires EntryOrder(a, b) <= 0 && EntryOrder(b, c) <= 0
    ensures EntryOrder(a, c) <= 0
    ensures EntryOrder(a, c) == 0 <==> EntryOrder(a, b) == 0 && EntryOrder(b, c) == 0
  {
    BytesTransitive(a.Name(), b.Name(), c.Name());
    if a.Name() == b.Name() == c.Name() {
      VersionTransitive(c.Version(), b.Version(), a.Version());
    }
  }

  /** Theorem: an entry comes before another iff its name is smaller, or the names are equal
    * and its version is the larger; they tie iff names, epochs and keys agree. */
  lemma EntryOrderMeaning(a: Entry, b: Entry)
    requires CleanEntry(a) && CleanEntry(b)
    ensures var v, w := a.sourceItem.version, b.sourceItem.version;
            && (EntryOrder(a, b) < 0 <==>
                 BytesCompare(a.sourceItem.name, b.sourceItem.name) < 0 ||
                 (a.sourceItem.name == b.sourceItem.name &&
                  (v.epoch > w.epoch ||
                   (v.epoch == w.epoch &&
                    (KeyLess(Key(w.version), Key(v.version)) ||
                     (KeySame(Key(v.version), Key(w.version)) && KeyLess(Key(w.revision), Key(v.revision))))))))
            && (EntryOrder(a, b) == 0 <==>
                 a.sourceItem.name == b.sourceItem.name && v.epoch == w.epoch &&
                 KeySame(Key(v.version), Key(w.version)) && KeySame(Key(v.revision), Key(w.revision)))
  {
    hide Key, KeyLess, KeySame, Compare, Regular;
    CompareMeaning(a.Version(), b.Version());
    VersionMirror(a.Version(), b.Version());
  }

  /** No two entries of a sorted index share a name and an equal-comparing version. */
  lemma SortedHasNoTwins(es: Index, i: nat, j: nat)
    requires Sorted(es) && i < |es| && j < |es|
    requires es[i].Name() == es[j].Name() && Compare(es[i].Version(), es[j].Version()) == 0
    ensures i == j
  {
    VersionMirror(es[i].Version(), es[j].Version());
  }
}
