/** The three digest tables of a changes file (changesFileHashes in changes.go). */
module Changes {
  import opened Basics
  import opened Control

  type Digest = seq<int>

  /** ChangesFilesIndex. */
  datatype Key = Key(name: string, size: int)

  type HashSet = map<string, Digest>
  type HashMap = map<Key, HashSet>

  /** strings.Fields, hex.DecodeString and strconv.ParseInt with its error ignored. */
  datatype Library = Library(fields: string -> seq<string>, hex: string -> Option<Digest>, size: string -> int)

  type Table = map<Key, Digest>

  /** One row: digest, size, maybe section and priority, and last the file name. */
  function Row(lib: Library, row: string): Option<(Key, Digest)> {
    var desc := lib.fields(row);
    if !(|desc| == 3 || |desc| == 5) then None
    else
      match lib.hex(desc[0])
      case None => None
      case Some(h) => Some((Key(desc[|desc| - 1], lib.size(desc[1])), h))
  }

  /** All rows; of rows with one key the last counts. */
  function Rows(lib: Library, rows: seq<string>): Option<Table> {
    if rows == [] then Some(map[])
    else
      match (Rows(lib, rows[..|rows| - 1]), Row(lib, rows[|rows| - 1]))
      case (Some(t), Some((k, h))) => Some(t[k := h])
      case _ => None
  }

  /** Row `i` is well formed and the last of those for file `k`. */
  predicate LastFor(lib: Library, rows: seq<string>, k: Key, i: int) {
    && 0 <= i < |rows| && Row(lib, rows[i]).Some? && Row(lib, rows[i]).value.0 == k
    && forall j :: i < j < |rows| && Row(lib, rows[j]).Some? ==> Row(lib, rows[j]).value.0 != k
  }

  predicate AllWellFormed(lib: Library, rows: seq<string>) {
    forall row <- rows :: Row(lib, row).Some?
  }

  /** `t` lists the files of the rows, each with the digest of its last row. */
  ghost predicate Reads(lib: Library, rows: seq<string>, t: Table) {
    && (forall k :: k in t ==> exists i :: LastFor(lib, rows, k, i))
    && (forall k, i :: LastFor(lib, rows, k, i) ==> k in t && t[k] == Row(lib, rows[i]).value.1)
  }

  lemma LastForStep(lib: Library, rows: seq<string>, k: Key, i: int)
    requires rows != [] && Row(lib, rows[|rows| - 1]).Some?
    ensures LastFor(lib, rows, k, i) <==>
            if Row(lib, rows[|rows| - 1]).value.0 == k then i == |rows| - 1 else LastFor(lib, rows[..|rows| - 1], k, i)
  {
    hide Row;
  }

  lemma ReadsStep(lib: Library, rows: seq<string>, t: Table)
    requires rows != [] && Row(lib, rows[|rows| - 1]).Some? && Reads(lib, rows[..|rows| - 1], t)
    ensures var (key, h) := Row(lib, rows[|rows| - 1]).value;
            Reads(lib, rows, t[key := h])
  {
    hide Row;
    var n := |rows| - 1;
    var (key, h) := Row(lib, rows[n]).value;
    var t' := t[key := h];
    forall k | k in t' ensures exists i :: LastFor(lib, rows, k, i) {
      if k == key {
        assert LastFor(lib, rows, k, n);
      } else {
        var i :| LastFor(lib, rows[..n], k, i);
        LastForStep(lib, rows, k, i);
      }
    }
    forall k, i | LastFor(lib, rows, k, i) ensures k in t' && t'[k] == Row(lib, rows[i]).value.1 {
      LastForStep(lib, rows, k, i);
    }
  }

  /** Theorem: there is a table iff every row is well formed, and the rows are what it reads. */
  lemma {:induction false} RowsMeaning(lib: Library, rows: seq<string>)
    ensures Rows(lib, rows).Some? <==> AllWellFormed(lib, rows)
    ensures Rows(lib, rows).Some? ==> Reads(lib, rows, Rows(lib, rows).value)
  {
    hide Row, Reads, LastFor;
    if rows == [] {
      NothingRead(lib);
    } else {
      var n := |rows| - 1;
      RowsMeaning(lib, rows[..n]);
      assert rows == rows[..n] + [rows[n]];
      if Rows(lib, rows).Some? {
        ReadsStep(lib, rows, Rows(lib, rows[..n]).value);
      }
    }
  }

  lemma NothingRead(lib: Library)
    ensures Reads(lib, [], map[])
  {
  }

  /** The table under `field`, which starts on its second line. */
  function TableOf(lib: Library, para: Paragraph, field: string): Option<Table>
    requires Printable(para)
  {
    if field in para then Rows(lib, para[field][1..]) else Some(map[])
  }

  function Labelled(t: Table, tag: string): HashMap {
    map k | k in t :: map[tag := t[k]]
  }

  lemma {:induction false} OneBadRow(lib: Library, rows: seq<string>, i: nat)
    requires i < |rows| && Row(lib, rows[i]).None?
    ensures Rows(lib, rows).None?
  {
    if i < |rows| - 1 {
      OneBadRow(lib, rows[..|rows| - 1], i);
    }
  }

  /** The inner function f2hs. */
  method FieldHashes(lib: Library, para: Paragraph, field: string, hName: string) returns (r: Option<HashMap>)
    requires Printable(para)
    ensures r == match TableOf(lib, para, field) case None => None case Some(t) => Some(Labelled(t, hName))
  {
    if field !in para {
      return Some(map[]);
    }
    var hStrings := para[field][1..];
    var records: HashMap := map[];
    ghost var t: Table := map[];
    for i := 0 to |hStrings|
      invariant Rows(lib, hStrings[..i]) == Some(t) && records == Labelled(t, hName)
    {
      assert hStrings[..i + 1][..i] == hStrings[..i];
      var fileDesc := lib.fields(hStrings[i]);
      if !(|fileDesc| == 3 || |fileDesc| == 5) {
        OneBadRow(lib, hStrings, i);
        return None;
      }
      var h := lib.hex(fileDesc[0]);
      if h.None? {
        OneBadRow(lib, hStrings, i);
        return None;
      }
      var k := Key(fileDesc[|fileDesc| - 1], lib.size(fileDesc[1]));
      records := records[k := map[hName := h.value]];
      t := t[k := h.value];
    }
    assert hStrings[..|hStrings|] == hStrings;
    return Some(records);
  }

  lemma {:induction false} SmallerInside(a: set<Key>, b: set<Key>)
    requires a <= b
    ensures |a| <= |b| && (|a| == |b| ==> a == b)
  {
    if a != {} {
      var x :| x in a;
      SmallerInside(a - {x}, b - {x});
    }
  }

  /** The count check and the membership loop for one more table. */
  method Agrees(md5s: HashMap, others: HashMap) returns (ok: bool)
    ensures ok <==> md5s.Keys == others.Keys
  {
    if md5s.Keys <= others.Keys {
      SmallerInside(md5s.Keys, others.Keys);
    }
    if |others| != 0 && |others| != |md5s| {
      return false;
    }
    var todo := md5s.Keys;
    while todo != {}
      invariant todo <= md5s.Keys && md5s.Keys - todo <= others.Keys
      decreases todo
    {
      var i :| i in todo;
      if i !in others {
        return false;
      }
      todo := todo - {i};
    }
    return true;
  }

  /** The three digests of one file. */
  function Digests(a: Table, b: Table, c: Table, k: Key): HashSet
    requires k in a && k in b && k in c
  {
    map["md5" := a[k], "sha1" := b[k], "sha256" := c[k]]
  }

  function AllDigests(a: Table, b: Table, c: Table): HashMap
    requires a.Keys == b.Keys == c.Keys
  {
    map k | k in a :: Digests(a, b, c, k)
  }

  /** The digests of file `i` joined from the three labelled tables. */
  function Joined(md5s: HashMap, sha1s: HashMap, sha256s: HashMap, i: Key): HashSet
    requires i in md5s && i in sha1s && "sha1" in sha1s[i] && i in sha256s && "sha256" in sha256s[i]
  {
    md5s[i]["sha1" := sha1s[i]["sha1"]]["sha256" := sha256s[i]["sha256"]]
  }

  lemma JoinedIsDigests(a: Table, b: Table, c: Table, md5s: HashMap, sha1s: HashMap, sha256s: HashMap, i: Key)
    requires md5s == Labelled(a, "md5") && sha1s == Labelled(b, "sha1") && sha256s == Labelled(c, "sha256")
    requires i in a && i in b && i in c
    ensures i in md5s && i in sha1s && "sha1" in sha1s[i] && i in sha256s && "sha256" in sha256s[i]
    ensures Joined(md5s, sha1s, sha256s, i) == Digests(a, b, c, i)
  {
  }

  lemma LabelledKeys(t: Table, tag: string)
    ensures Labelled(t, tag).Keys == t.Keys
  {
  }

  /** The last loop: gather the digests of each file. */
  method GatherDigests(ghost a: Table, ghost b: Table, ghost c: Table, md5s: HashMap, sha1s: HashMap, sha256s: HashMap)
    returns (merged: HashMap)
    requires md5s == Labelled(a, "md5") && sha1s == Labelled(b, "sha1") && sha256s == Labelled(c, "sha256")
    requires a.Keys == b.Keys == c.Keys
    ensures merged == AllDigests(a, b, c)
  {
    hide Digests, Joined, Labelled;
    LabelledKeys(a, "md5");
    merged := md5s;
    var todo := merged.Keys;
    while todo != {}
      invariant todo <= a.Keys && merged.Keys == a.Keys
      invariant forall k :: k in a ==> merged[k] == if k in todo then md5s[k] else Digests(a, b, c, k)
      decreases todo
    {
      var i :| i in todo;
      JoinedIsDigests(a, b, c, md5s, sha1s, sha256s, i);
      merged := merged[i := Joined(md5s, sha1s, sha256s, i)];
      todo := todo - {i};
    }
  }

  predicate SameFiles(a: Option<Table>, b: Option<Table>, c: Option<Table>) {
    a.Some? && b.Some? && c.Some? && a.value.Keys == b.value.Keys == c.value.Keys
  }

  /** The hashes of a changes file whose three tables parse and list the same files. */
  function HashesOf(lib: Library, para: Paragraph): Option<HashMap>
    requires Printable(para)
  {
    var a, b, c := TableOf(lib, para, "Files"), TableOf(lib, para, "Checksums-Sha1"), TableOf(lib, para, "Checksums-Sha256");
    if SameFiles(a, b, c) then Some(AllDigests(a.value, b.value, c.value)) else None
  }

  method ChangesFileHashes(lib: Library, para: Paragraph) returns (r: Option<HashMap>)
    requires Printable(para)
    ensures r == HashesOf(lib, para)
  {
    hide TableOf, AllDigests;
    var md5s := FieldHashes(lib, para, "Files", "md5");
    if md5s.None? {
      return None;
    }
    var sha1s := FieldHashes(lib, para, "Checksums-Sha1", "sha1");
    if sha1s.None? {
      return None;
    }
    ghost var a, b := TableOf(lib, para, "Files").value, TableOf(lib, para, "Checksums-Sha1").value;
    assert md5s.value.Keys == a.Keys && sha1s.value.Keys == b.Keys;
    var ok := Agrees(md5s.value, sha1s.value);
    if !ok {
      return None;
    }
    var sha256s := FieldHashes(lib, para, "Checksums-Sha256", "sha256");
    if sha256s.None? {
      return None;
    }
    ghost var c := TableOf(lib, para, "Checksums-Sha256").value;
    assert sha256s.value.Keys == c.Keys;
    ok := Agrees(md5s.value, sha256s.value);
    if !ok {
      return None;
    }
    var merged := GatherDigests(a, b, c, md5s.value, sha1s.value, sha256s.value);
    return Some(merged);
  }

  // ------------------------------------------------------ the columns of the tables

  /** A row has three or five columns: first the digest, second the size, last the name. */
  lemma RowMeaning(lib: Library, row: string)
    ensures var desc := lib.fields(row);
            && (Row(lib, row).Some? <==> (|desc| == 3 || |desc| == 5) && lib.hex(desc[0]).Some?)
            && (Row(lib, row).Some? ==>
                  var (k, h) := Row(lib, row).value;
                  k.name == desc[|desc| - 1] && k.size == lib.size(desc[1]) && lib.hex(desc[0]) == Some(h))
  {
  }

  /** Line `i` of `field`, not its first, is for file `k`. */
  predicate ListedAt(lib: Library, para: Paragraph, field: string, k: Key, i: int) {
    && field in para && 0 < i < |para[field]|
    && var desc := lib.fields(para[field][i]);
       |desc| >= 2 && desc[|desc| - 1] == k.name && lib.size(desc[1]) == k.size
  }

  /** `d` is the first column of the last line of `field` for file `k`. */
  ghost predicate LastDigest(lib: Library, para: Paragraph, field: string, k: Key, d: Digest) {
    exists i :: ListedAt(lib, para, field, k, i) && (forall j :: i < j ==> !ListedAt(lib, para, field, k, j)) &&
                lib.hex(lib.fields(para[field][i])[0]) == Some(d)
  }

  ghost predicate Listed(lib: Library, para: Paragraph, field: string, k: Key) {
    exists i :: ListedAt(lib, para, field, k, i)
  }

  predicate LinesWellFormed(lib: Library, para: Paragraph, field: string) {
    field in para ==> forall i :: 0 < i < |para[field]| ==>
      var desc := lib.fields(para[field][i]); (|desc| == 3 || |desc| == 5) && lib.hex(desc[0]).Some?
  }

  lemma WellFormedLines(lib: Library, para: Paragraph, field: string)
    requires Printable(para)
    ensures TableOf(lib, para, field).Some? <==> LinesWellFormed(lib, para, field)
  {
    hide Row;
    if field in para {
      var rows := para[field][1..];
      RowsMeaning(lib, rows);
      forall i | 0 < i < |para[field]|
        ensures rows[i - 1] == para[field][i]
        ensures Row(lib, rows[i - 1]).Some? <==>
                  var desc := lib.fields(para[field][i]); (|desc| == 3 || |desc| == 5) && lib.hex(desc[0]).Some?
      {
        RowMeaning(lib, rows[i - 1]);
      }
      forall i | 0 <= i < |rows| ensures rows[i] == para[field][i + 1] {
      }
    }
  }

  lemma LastRowIsLastLine(lib: Library, para: Paragraph, field: string, k: Key, i: int)
    requires field in para && para[field] != [] && LinesWellFormed(lib, para, field)
    ensures LastFor(lib, para[field][1..], k, i - 1) <==>
              ListedAt(lib, para, field, k, i) && forall j :: i < j ==> !ListedAt(lib, para, field, k, j)
  {
    hide Row;
    var rows := para[field][1..];
    forall j | 0 < j < |para[field]|
      ensures rows[j - 1] == para[field][j] && Row(lib, rows[j - 1]).Some?
      ensures Row(lib, rows[j - 1]).value.0 == k <==> ListedAt(lib, para, field, k, j)
    {
      RowMeaning(lib, rows[j - 1]);
    }
    if ListedAt(lib, para, field, k, i) && forall j :: i < j ==> !ListedAt(lib, para, field, k, j) {
      forall j | i - 1 < j < |rows| ensures Row(lib, rows[j]).value.0 != k {
        assert !ListedAt(lib, para, field, k, j + 1);
      }
    }
    if LastFor(lib, rows, k, i - 1) {
      forall j | i < j ensures !ListedAt(lib, para, field, k, j) {
        if j < |para[field]| {
          assert Row(lib, rows[j - 1]).value.0 != k;
        }
      }
    }
  }

  /** What the table under `field` says of file `k`. */
  lemma TableMeaning(lib: Library, para: Paragraph, field: string, k: Key)
    requires Printable(para) && TableOf(lib, para, field).Some?
    ensures var t := TableOf(lib, para, field).value;
            && (k in t <==> Listed(lib, para, field, k))
            && (k in t ==> LastDigest(lib, para, field, k, t[k]))
  {
    hide Row, LastFor, ListedAt;
    var t := TableOf(lib, para, field).value;
    WellFormedLines(lib, para, field);
    if field in para {
      var rows := para[field][1..];
      RowsMeaning(lib, rows);
      if k in t {
        var i :| LastFor(lib, rows, k, i);
        LastRowIsLastLine(lib, para, field, k, i + 1);
        LineOf(lib, para, field, k, i + 1);
      }
      if i :| ListedAt(lib, para, field, k, i) {
        LastListed(lib, para, field, k, i);
        var m :| ListedAt(lib, para, field, k, m) && forall j :: m < j ==> !ListedAt(lib, para, field, k, j);
        LastRowIsLastLine(lib, para, field, k, m);
        assert LastFor(lib, rows, k, m - 1);
      }
    } else {
      NotListed(lib, para, field, k);
    }
  }

  lemma NotListed(lib: Library, para: Paragraph, field: string, k: Key)
    requires field !in para
    ensures !Listed(lib, para, field, k)
  {
  }

  lemma LineOf(lib: Library, para: Paragraph, field: string, k: Key, i: int)
    requires ListedAt(lib, para, field, k, i) && LinesWellFormed(lib, para, field)
    ensures Row(lib, para[field][1..][i - 1]).Some?
    ensures lib.hex(lib.fields(para[field][i])[0]) == Some(Row(lib, para[field][1..][i - 1]).value.1)
  {
    assert para[field][1..][i - 1] == para[field][i];
    RowMeaning(lib, para[field][i]);
  }

  lemma LastListed(lib: Library, para: Paragraph, field: string, k: Key, i: int)
    requires ListedAt(lib, para, field, k, i)
    ensures exists m :: ListedAt(lib, para, field, k, m) && forall j :: m < j ==> !ListedAt(lib, para, field, k, j)
    decreases |para[field]| - i
  {
    if j :| i < j && ListedAt(lib, para, field, k, j) {
      LastListed(lib, para, field, k, j);
    }
  }

  /** Theorem: a changes file is accepted iff every row has three or five columns and a
    * digest, and the three tables list the same files. */
  lemma HashesIff(lib: Library, para: Paragraph)
    requires Printable(para)
    ensures HashesOf(lib, para).Some? <==>
              && (forall field, i :: field in {"Files", "Checksums-Sha1", "Checksums-Sha256"} && field in para && 0 < i < |para[field]| ==>
                    var desc := lib.fields(para[field][i]); (|desc| == 3 || |desc| == 5) && lib.hex(desc[0]).Some?)
              && (forall k :: Listed(lib, para, "Files", k) <==> Listed(lib, para, "Checksums-Sha1", k))
              && (forall k :: Listed(lib, para, "Files", k) <==> Listed(lib, para, "Checksums-Sha256", k))
  {
    hide Listed, TableOf;
    forall field | field in {"Files", "Checksums-Sha1", "Checksums-Sha256"}
      ensures TableOf(lib, para, field).Some? <==> LinesWellFormed(lib, para, field)
      ensures TableOf(lib, para, field).Some? ==>
                forall k :: k in TableOf(lib, para, field).value <==> Listed(lib, para, field, k)
    {
      WellFormedLines(lib, para, field);
      if TableOf(lib, para, field).Some? {
        forall k ensures k in TableOf(lib, para, field).value <==> Listed(lib, para, field, k) {
          TableMeaning(lib, para, field, k);
        }
      }
    }
  }

  /** Theorem: a file has hashes iff a line of "Files" has its name in the last column and
    * its size in the second; each hash is the first column of the last such line of its field. */
  lemma HashesOverColumns(lib: Library, para: Paragraph, k: Key)
    requires Printable(para) && HashesOf(lib, para).Some?
    ensures var r := HashesOf(lib, para).value;
            && (k in r <==>
                  && "Files" in para
                  && exists i :: 0 < i < |para["Files"]| && 2 <= |lib.fields(para["Files"][i])| &&
                       lib.fields(para["Files"][i])[|lib.fields(para["Files"][i])| - 1] == k.name &&
                       lib.size(lib.fields(para["Files"][i])[1]) == k.size)
            && (k in r ==>
                  && r[k].Keys == {"md5", "sha1", "sha256"}
                  && LastDigest(lib, para, "Files", k, r[k]["md5"])
                  && LastDigest(lib, para, "Checksums-Sha1", k, r[k]["sha1"])
                  && LastDigest(lib, para, "Checksums-Sha256", k, r[k]["sha256"]))
  {
    hide Listed, TableOf, LastDigest;
    TableMeaning(lib, para, "Files", k);
    TableMeaning(lib, para, "Checksums-Sha1", k);
    TableMeaning(lib, para, "Checksums-Sha256", k);
    ListedMeaning(lib, para, "Files", k);
  }

  lemma ListedMeaning(lib: Library, para: Paragraph, field: string, k: Key)
    ensures Listed(lib, para, field, k) <==>
              && field in para
              && exists i :: 0 < i < |para[field]| && 2 <= |lib.fields(para[field][i])| &&
                   lib.fields(para[field][i])[|lib.fields(para[field][i])| - 1] == k.name &&
                   lib.size(lib.fields(para[field][i])[1]) == k.size
  {
    if field in para {
      forall i | 0 < i < |para[field]| && 2 <= |lib.fields(para[field][i])| &&
                 lib.fields(para[field][i])[|lib.fields(para[field][i])| - 1] == k.name &&
                 lib.size(lib.fields(para[field][i])[1]) == k.size
        ensures ListedAt(lib, para, field, k, i)
      {
      }
    }
  }
}
