/** Reading back what was written: the printed form of control.go, and the
  * canonical encoding of archivestore.go. */
module ControlRoundTrip {
  import opened Basics
  import opened ReleaseIndex
  import opened Control

  // ------------------------------------------------------------ writable contents

  /** A field name of section 5.1 of the Debian Policy Manual, and more. */
  predicate GoodName(k: string) {
    k != "" && k[0] != ' ' && k[0] != '\t' && forall i :: 0 <= i < |k| ==> k[i] != ':' && k[i] != '\n'
  }

  predicate GoodValue(v: string) {
    (v == "" || (!IsSpace(v[0]) && !IsSpace(v[|v| - 1]))) && forall i :: 0 <= i < |v| ==> v[i] != '\n'
  }

  predicate GoodParagraph(p: Paragraph) {
    p != map[] && forall k :: k in p ==> GoodName(k) && p[k] != [] && forall v <- p[k] :: GoodValue(v)
  }

  /** No field of `p` is asked for twice. */
  predicate ListedOnce(p: Paragraph, names: seq<string>) {
    forall i, j :: 0 <= i < j < |names| && names[i] == names[j] ==> names[i] !in p
  }

  // ----------------------------------------------------------------- single fields

  function AddAll(m: Paragraph, k: string, vals: seq<string>): Paragraph {
    if k in m then m[k := m[k] + vals] else m[k := vals]
  }

  lemma TrimOfPadded(v: string)
    requires GoodValue(v)
    ensures TrimSpace(" " + v) == v
  {
    assert (" " + v)[1..] == v;
    assert TrimLeft(" " + v) == v;
  }

  lemma FirstLineParsed(st: ParseState, name: string, v: string)
    requires GoodName(name) && GoodValue(v)
    ensures ParseLine(st, name + ": " + v) == Some(st.(field := name, current := AddTo(st.current, name, v)))
  {
    var line := name + ": " + v;
    assert line[0] == name[0];
    assert line[|name|] == ':' && forall i :: 0 <= i < |name| ==> line[i] == name[i];
    assert IndexOf(line, ':') == |name|;
    assert line[..|name|] == name && line[|name| + 1..] == " " + v;
    TrimOfPadded(v);
  }

  lemma NextLineParsed(st: ParseState, v: string)
    requires st.field != "" && st.field in st.current && GoodValue(v)
    ensures ParseLine(st, " " + v) == Some(st.(current := st.current[st.field := st.current[st.field] + [v]]))
  {
    TrimOfPadded(v);
  }

  lemma {:induction false} ContinuedParsed(st: ParseState, vals: seq<string>)
    requires st.field != "" && st.field in st.current && forall v <- vals :: GoodValue(v)
    ensures ParseLines(st, Continued(vals)) == Some(st.(current := st.current[st.field := st.current[st.field] + vals]))
    decreases |vals|
  {
    hide ParseLine, GoodValue;
    var have := st.current[st.field];
    if vals == [] {
      assert have + [] == have;
      assert st.current[st.field := have] == st.current;
    } else {
      NextLineParsed(st, vals[0]);
      var next := st.(current := st.current[st.field := have + [vals[0]]]);
      ContinuedParsed(next, vals[1..]);
      assert (have + [vals[0]]) + vals[1..] == have + vals;
      assert next.current[st.field := have + vals] == st.current[st.field := have + vals];
      assert Continued(vals)[1..] == Continued(vals[1..]);
    }
  }

  lemma FieldParsed(st: ParseState, name: string, vals: seq<string>)
    requires GoodName(name) && vals != [] && forall v <- vals :: GoodValue(v)
    ensures ParseLines(st, FieldLines(name, vals)) == Some(st.(field := name, current := AddAll(st.current, name, vals)))
  {
    hide ParseLine;
    FirstLineParsed(st, name, vals[0]);
    var next := st.(field := name, current := AddTo(st.current, name, vals[0]));
    ContinuedParsed(next, vals[1..]);
    assert FieldLines(name, vals)[1..] == Continued(vals[1..]);
    assert next.current[name] + vals[1..] == AddAll(st.current, name, vals)[name];
    assert next.current[name := next.current[name] + vals[1..]] == AddAll(st.current, name, vals);
  }

  lemma {:induction false} ParseBoth(st: ParseState, a: seq<string>, b: seq<string>)
    ensures ParseLines(st, a + b) ==
            match ParseLines(st, a) case None => None case Some(mid) => ParseLines(mid, b)
    decreases |a|
  {
    hide ParseLine;
    if a == [] {
      assert a + b == b;
    } else {
      assert (a + b)[1..] == a[1..] + b;
      if ParseLine(st, a[0]).Some? {
        ParseBoth(ParseLine(st, a[0]).value, a[1..], b);
      }
    }
  }

  // ------------------------------------------------------------ fields in some order

  /** The paragraph read back when `p` is printed in `order`. */
  function Gather(m: Paragraph, p: Paragraph, order: seq<string>): Paragraph
    requires forall k <- order :: k in p
    decreases |order|
  {
    if order == [] then m else Gather(AddAll(m, order[0], p[order[0]]), p, order[1..])
  }

  lemma {:induction false} OrderParsed(st: ParseState, p: Paragraph, order: seq<string>)
    requires GoodParagraph(p) && Printable(p) && forall k <- order :: k in p
    ensures var r := ParseLines(st, OrderLines(p, order));
            r.Some? && r.value.finished == st.finished && r.value.current == Gather(st.current, p, order)
    decreases |order|
  {
    hide ParseLines, FieldLines, AddAll;
    if order == [] {
      NothingParsed(st);
    } else {
      assert order[0] in p;
      FieldParsed(st, order[0], p[order[0]]);
      ParseBoth(st, FieldLines(order[0], p[order[0]]), OrderLines(p, order[1..]));
      OrderParsed(st.(field := order[0], current := AddAll(st.current, order[0], p[order[0]])), p, order[1..]);
    }
  }

  lemma NothingParsed(st: ParseState)
    ensures ParseLines(st, []) == Some(st)
  {
  }

  predicate NoDuplicates(ks: seq<string>) {
    forall i, j :: 0 <= i < j < |ks| ==> ks[i] != ks[j]
  }

  lemma {:induction false} GatherDistinct(m: Paragraph, p: Paragraph, order: seq<string>)
    requires (forall k <- order :: k in p && k !in m) && NoDuplicates(order)
    ensures var r := Gather(m, p, order);
            && (forall k :: k in r <==> k in m || k in order)
            && (forall k :: k in m ==> r[k] == m[k])
            && (forall k <- order :: r[k] == p[k])
    decreases |order|
  {
    if order != [] {
      var k := order[0];
      forall x | x in order[1..] ensures x in p && x !in m && x != k {
        var i :| 0 <= i < |order[1..]| && order[1..][i] == x;
        assert order[i + 1] == x;
      }
      GatherDistinct(m[k := p[k]], p, order[1..]);
      assert order == [k] + order[1..];
    }
  }

  /** Printing adds at least the values of each field in the order. */
  lemma {:induction false} GatherAdds(m: Paragraph, p: Paragraph, order: seq<string>, k: string)
    requires forall x <- order :: x in p
    requires k in m || k in order
    ensures k in Gather(m, p, order)
    ensures |Gather(m, p, order)[k]| >= (if k in m then |m[k]| else 0) + (if k in order then |p[k]| else 0)
    decreases |order|
  {
    if order != [] {
      assert order == [order[0]] + order[1..];
      var next := AddAll(m, order[0], p[order[0]]);
      if k in next {
        GatherAdds(next, p, order[1..], k);
      } else {
        GatherAdds(next, p, order[1..], k);
      }
    }
  }

  lemma {:induction false} GatherTwice(m: Paragraph, p: Paragraph, order: seq<string>, i: nat, j: nat)
    requires forall x <- order :: x in p
    requires i < j < |order| && order[i] == order[j]
    ensures order[i] in Gather(m, p, order) && |Gather(m, p, order)[order[i]]| >= 2 * |p[order[i]]|
    decreases |order|
  {
    var next := AddAll(m, order[0], p[order[0]]);
    if i == 0 {
      assert order[1..][j - 1] == order[0];
      GatherAdds(next, p, order[1..], order[0]);
    } else {
      GatherTwice(next, p, order[1..], i - 1, j - 1);
    }
  }

  /** Reading back gives the paragraph iff no field stands twice in the order. */
  lemma GatherIff(p: Paragraph, order: seq<string>)
    requires Printable(p) && forall k :: k in order <==> k in p
    ensures Gather(map[], p, order) == p <==> NoDuplicates(order)
  {
    if NoDuplicates(order) {
      GatherDistinct(map[], p, order);
    } else {
      var i, j :| 0 <= i < j < |order| && order[i] == order[j];
      assert order[i] in order;
      GatherTwice(map[], p, order, i, j);
      assert p[order[i]] != [];
    }
  }

  // ---------------------------------------------------------- the order of printing

  lemma {:induction false} ListedDuplicates(p: Paragraph, names: seq<string>)
    ensures NoDuplicates(Listed(p, names)) <==> ListedOnce(p, names)
  {
    if names != [] {
      ListedDuplicates(p, names[1..]);
      ListedInside(p, names[1..]);
      var n, rest := names[0], names[1..];
      assert forall i :: 0 < i < |names| ==> names[i] == rest[i - 1];
      ListedOnceStep(p, names);
      if n in p {
        ConsDuplicates(n, Listed(p, rest));
      } else {
        assert Listed(p, names) == Listed(p, rest);
      }
    }
  }

  lemma ConsDuplicates(n: string, ks: seq<string>)
    ensures NoDuplicates([n] + ks) <==> n !in ks && NoDuplicates(ks)
  {
    var all := [n] + ks;
    assert forall i :: 0 < i < |all| ==> all[i] == ks[i - 1];
    if NoDuplicates(all) {
      forall i | 0 <= i < |ks| ensures ks[i] != n {
        assert all[i + 1] == ks[i] && all[0] == n;
      }
      forall i, j | 0 <= i < j < |ks| ensures ks[i] != ks[j] {
        assert all[i + 1] != all[j + 1];
      }
    }
  }

  lemma ListedOnceStep(p: Paragraph, names: seq<string>)
    requires names != []
    ensures ListedOnce(p, names) <==> (names[0] in p ==> names[0] !in names[1..]) && ListedOnce(p, names[1..])
  {
  }

  lemma {:induction false} ListedBoth(p: Paragraph, a: seq<string>, b: seq<string>)
    ensures Listed(p, a + b) == Listed(p, a) + Listed(p, b)
  {
    if a == [] {
      assert a + b == b;
    } else {
      assert (a + b)[1..] == a[1..] + b;
      ListedBoth(p, a[1..], b);
    }
  }

  lemma OrderDuplicates(p: Paragraph, start: seq<string>, end: seq<string>)
    ensures NoDuplicates(FieldOrder(p, start, end)) <==> ListedOnce(p, start + end)
  {
    var a, m, b := Listed(p, start), SortedKeys(Middle(p, start, end)), Listed(p, end);
    ListedBoth(p, start, end);
    ListedDuplicates(p, start + end);
    ListedInside(p, start);
    ListedInside(p, end);
    AscendingDistinct(m);
    assert forall k :: k in m ==> k !in a && k !in b;
    MiddleApart(a, m, b);
  }

  lemma AscendingDistinct(m: seq<string>)
    requires Ascending(m)
    ensures NoDuplicates(m)
  {
  }

  lemma MiddleApart(a: seq<string>, m: seq<string>, b: seq<string>)
    requires NoDuplicates(m) && forall k :: k in m ==> k !in a && k !in b
    ensures NoDuplicates(a + m + b) <==> NoDuplicates(a + b)
  {
    var all, ab := a + m + b, a + b;
    if NoDuplicates(all) {
      forall i, j | 0 <= i < j < |ab| ensures ab[i] != ab[j] {
        var i', j' := if i < |a| then i else i + |m|, if j < |a| then j else j + |m|;
        assert all[i'] == ab[i] && all[j'] == ab[j];
      }
    }
    if NoDuplicates(ab) {
      forall i, j | 0 <= i < j < |all| ensures all[i] != all[j] {
        if |a| <= i < |a| + |m| {
          assert all[i] in m;
        } else if |a| <= j < |a| + |m| {
          assert all[j] in m;
        } else {
          var i', j' := if i < |a| then i else i - |m|, if j < |a| then j else j - |m|;
          assert all[i] == ab[i'] && all[j] == ab[j'];
        }
      }
    }
  }

  // ----------------------------------------------------------------- whole files

  ghost function Reread(p: Paragraph, start: seq<string>, end: seq<string>): Paragraph {
    OrderInside(p, start, end);
    Gather(map[], p, FieldOrder(p, start, end))
  }

  lemma ParagraphParsed(st: ParseState, p: Paragraph, start: seq<string>, end: seq<string>)
    requires GoodParagraph(p) && Printable(p) && st.current == map[]
    ensures var r := ParseLines(st, ParagraphLines(p, start, end));
            r.Some? && r.value.finished == st.finished && r.value.current == Reread(p, start, end) != map[]
  {
    OrderInside(p, start, end);
    OrderParsed(st, p, FieldOrder(p, start, end));
    var k :| k in p;
    GatherAdds(map[], p, FieldOrder(p, start, end), k);
  }

  ghost function RereadAll(ps: seq<Paragraph>, start: seq<string>, end: seq<string>): (rs: seq<Paragraph>)
    ensures |rs| == |ps| && forall i :: 0 <= i < |ps| ==> rs[i] == Reread(ps[i], start, end)
  {
    seq(|ps|, i requires 0 <= i < |ps| => Reread(ps[i], start, end))
  }

  lemma {:induction false} FileParsed(st: ParseState, ps: seq<Paragraph>, start: seq<string>, end: seq<string>)
    requires ps != [] && st.current == map[]
    requires forall p <- ps :: GoodParagraph(p) && Printable(p)
    ensures var r := ParseLines(st, FileLines(ps, start, end));
            r.Some? && r.value.Data() == st.finished + RereadAll(ps, start, end)
    decreases |ps|
  {
    hide ParseLines, ParagraphLines, Reread, GoodParagraph, Printable, RereadAll;
    ParagraphParsed(st, ps[0], start, end);
    var read := Reread(ps[0], start, end);
    if |ps| == 1 {
      assert RereadAll(ps, start, end) == [read];
    } else {
      var next := ParseState(st.finished + [read], map[], "");
      FirstParsed(st, ps, start, end);
      FileParsed(next, ps[1..], start, end);
      assert st.finished + RereadAll(ps, start, end) == st.finished + [read] + RereadAll(ps[1..], start, end);
    }
  }

  /** After the first paragraph and the empty line the rest is parsed anew. */
  lemma FirstParsed(st: ParseState, ps: seq<Paragraph>, start: seq<string>, end: seq<string>)
    requires |ps| > 1 && st.current == map[]
    requires forall p <- ps :: GoodParagraph(p) && Printable(p)
    ensures ParseLines(st, FileLines(ps, start, end)) ==
            ParseLines(ParseState(st.finished + [Reread(ps[0], start, end)], map[], ""), FileLines(ps[1..], start, end))
  {
    hide ParseLines, ParagraphLines, Reread, GoodParagraph, Printable;
    ParagraphParsed(st, ps[0], start, end);
    var first := ParagraphLines(ps[0], start, end);
    SeparatorParsed(ParseLines(st, first).value);
    ParseBoth(st, first + [""], FileLines(ps[1..], start, end));
    ParseBoth(st, first, [""]);
  }

  lemma SeparatorParsed(st: ParseState)
    requires st.current != map[]
    ensures ParseLines(st, [""]) == Some(ParseState(st.finished + [st.current], map[], ""))
  {
  }

  lemma {:induction false} OrderLinesPlain(p: Paragraph, order: seq<string>)
    requires GoodParagraph(p) && Printable(p) && forall k <- order :: k in p
    ensures forall l <- OrderLines(p, order) :: PlainLine(l)
    decreases |order|
  {
    if order != [] {
      OrderLinesPlain(p, order[1..]);
      assert order[0] in p;
      FieldPlain(order[0], p[order[0]]);
    }
  }

  lemma FieldPlain(name: string, vals: seq<string>)
    requires GoodName(name) && vals != [] && forall v <- vals :: GoodValue(v)
    ensures forall l <- FieldLines(name, vals) :: PlainLine(l)
  {
    assert GoodValue(vals[0]);
    ContinuedPlain(vals[1..]);
  }

  lemma {:induction false} ContinuedPlain(vals: seq<string>)
    requires forall v <- vals :: GoodValue(v)
    ensures forall l <- Continued(vals) :: PlainLine(l)
  {
    if vals != [] {
      assert GoodValue(vals[0]);
      ContinuedPlain(vals[1..]);
    }
  }

  lemma {:induction false} FileLinesPlain(ps: seq<Paragraph>, start: seq<string>, end: seq<string>)
    requires forall p <- ps :: GoodParagraph(p) && Printable(p)
    ensures forall l <- FileLines(ps, start, end) :: PlainLine(l)
    decreases |ps|
  {
    if ps != [] {
      OrderInside(ps[0], start, end);
      OrderLinesPlain(ps[0], FieldOrder(ps[0], start, end));
      FileLinesPlain(ps[1..], start, end);
    }
  }

  lemma PrintedParses(ps: seq<Paragraph>, start: seq<string>, end: seq<string>)
    requires ps != [] && forall p <- ps :: GoodParagraph(p) && Printable(p)
    ensures Parse(Unlines(FileLines(ps, start, end))) ==
            Some(RereadAll(ps, start, end))
  {
    hide ParseLines, FileLines, Unlines, Lines, Reread, GoodParagraph;
    FileLinesPlain(ps, start, end);
    LinesOfUnlines(FileLines(ps, start, end));
    FileParsed(Control.START, ps, start, end);
    var read := RereadAll(ps, start, end);
    assert [] + read == read;
  }

  lemma RereadIff(p: Paragraph, start: seq<string>, end: seq<string>)
    requires Printable(p)
    ensures Reread(p, start, end) == p <==> ListedOnce(p, start + end)
  {
    OrderInside(p, start, end);
    GatherIff(p, FieldOrder(p, start, end));
    OrderDuplicates(p, start, end);
  }

  /** Theorem: parsing what was printed gives the paragraphs back, iff none of their
    * fields is listed twice in the start and end lists taken together. */
  lemma ParseOfPrinted(ps: seq<Paragraph>, start: seq<string>, end: seq<string>)
    requires ps != [] && forall p <- ps :: GoodParagraph(p) && Printable(p)
    ensures Parse(Unlines(FileLines(ps, start, end))) == Some(ps) <==> forall p <- ps :: ListedOnce(p, start + end)
  {
    hide Parse, FileLines, Unlines, Reread, GoodParagraph, ListedOnce;
    PrintedParses(ps, start, end);
    var read := RereadAll(ps, start, end);
    forall i | 0 <= i < |ps| ensures read[i] == ps[i] <==> ListedOnce(ps[i], start + end) {
      RereadIff(ps[i], start, end);
    }
    if read == ps {
      forall p | p in ps ensures ListedOnce(p, start + end) {
        var i :| 0 <= i < |ps| && ps[i] == p;
        assert read[i] == ps[i];
      }
    }
    if forall p <- ps :: ListedOnce(p, start + end) {
      assert forall i :: 0 <= i < |ps| ==> ps[i] in ps;
      assert read == ps;
    }
  }

  /** Printed text is parsed as it stands when its first field is not named with a dash;
    * section 5.1 of the Debian Policy Manual allows no such names. */
  lemma PrintedIsPlain(ps: seq<Paragraph>, start: seq<string>, end: seq<string>)
    requires ps != [] && forall p <- ps :: GoodParagraph(p) && Printable(p)
    requires forall k :: k in ps[0] ==> !("-" <= k)
    ensures !Clearsigned(Unlines(FileLines(ps, start, end)))
  {
    hide FieldLines, FieldOrder, Unlines, OrderLines, GoodParagraph;
    assert ps[0] in ps;
    var order := FieldOrder(ps[0], start, end);
    OrderInside(ps[0], start, end);
    SomeField(ps[0], order);
    FirstOfOrder(ps[0], order);
    assert FileLines(ps, start, end)[0] == OrderLines(ps[0], order)[0];
    FirstChar(FileLines(ps, start, end));
  }

  lemma SomeField(p: Paragraph, order: seq<string>)
    requires GoodParagraph(p) && forall k :: k in order <==> k in p
    ensures order != [] && order[0] in p && order[0] != ""
  {
    var k :| k in p;
    assert k in order;
    assert order[0] in order;
  }

  lemma FirstOfOrder(p: Paragraph, order: seq<string>)
    requires Printable(p) && order != [] && order[0] != "" && forall k <- order :: k in p
    ensures OrderLines(p, order) != [] && OrderLines(p, order)[0] != "" && OrderLines(p, order)[0][0] == order[0][0]
  {
    hide FieldLines;
    assert order[0] in order;
    FirstLetter(order[0], p[order[0]]);
  }

  lemma FirstChar(lines: seq<string>)
    requires lines != [] && lines[0] != ""
    ensures Unlines(lines) != "" && Unlines(lines)[0] == lines[0][0]
  {
  }

  lemma FirstLetter(name: string, vals: seq<string>)
    requires name != "" && vals != []
    ensures FieldLines(name, vals) != [] && FieldLines(name, vals)[0] != "" && FieldLines(name, vals)[0][0] == name[0]
  {
  }

  // ------------------------------------------------------- the canonical encoding

  /** consistantControlFileParagraph. */
  datatype Encoded = Encoded(keys: seq<string>, values: seq<seq<string>>)

  /** A control file without its text; `signedBy` and the flags travel unchanged. */
  datatype ControlFile = ControlFile(data: seq<Paragraph>, signed: bool, signatureVerified: bool, signedBy: seq<string>)
  datatype StoredFile = StoredFile(paragraphs: seq<Encoded>, signedBy: seq<string>, signed: bool, signatureVerified: bool)

  ghost function Encode(p: Paragraph): Encoded {
    var keys := SortedKeys(p.Keys);
    Encoded(keys, seq(|keys|, i requires 0 <= i < |keys| => p[keys[i]]))
  }

  /** The loop that fills the keys; the map is iterated in any order. */
  method CollectKeys(p: Paragraph) returns (keys: seq<string>)
    ensures keys == SortedKeys(p.Keys)
  {
    hide SortedKeys;
    keys := [];
    var todo := p.Keys;
    while todo != {}
      invariant todo <= p.Keys
      invariant forall k :: k in keys <==> k in p && k !in todo
      invariant NoDuplicates(keys)
      decreases todo
    {
      var s :| s in todo;
      keys := keys + [s];
      todo := todo - {s};
    }
    keys := SortStrings(keys);
    AscendingUnique(keys, SortedKeys(p.Keys));
  }

  /** The loops over keys and values in AddControlFile. */
  method EncodeParagraph(p: Paragraph) returns (e: Encoded)
    ensures e == Encode(p)
  {
    hide SortedKeys;
    var keys := CollectKeys(p);
    var values: seq<seq<string>> := [];
    for j := 0 to |keys|
      invariant |values| == j && forall i :: 0 <= i < j ==> values[i] == p[keys[i]]
    {
      values := values + [p[keys[j]]];
    }
    e := Encoded(keys, values);
  }

  function AddEach(m: Paragraph, k: string, vals: seq<string>): Paragraph
    decreases |vals|
  {
    if vals == [] then m else AddEach(AddTo(m, k, vals[0]), k, vals[1..])
  }

  function DecodeFrom(m: Paragraph, e: Encoded): Paragraph
    requires |e.keys| == |e.values|
    decreases |e.keys|
  {
    if e.keys == [] then m else DecodeFrom(AddEach(m, e.keys[0], e.values[0]), Encoded(e.keys[1..], e.values[1..]))
  }

  function Decode(e: Encoded): Paragraph
    requires |e.keys| == |e.values|
  {
    DecodeFrom(map[], e)
  }

  /** The loops of GetControlFile over one paragraph. */
  method DecodeParagraph(e: Encoded) returns (p: Paragraph)
    requires |e.keys| == |e.values|
    ensures p == Decode(e)
  {
    hide DecodeFrom;
    var para := new ControlParagraph();
    DecodeStep(map[], e, 0);
    for j := 0 to |e.keys|
      invariant fresh(para)
      invariant DecodeFrom(para.fields, Encoded(e.keys[j..], e.values[j..])) == Decode(e)
    {
      DecodeStep(para.fields, e, j);
      var strVals := e.values[j];
      ghost var before := para.fields;
      for k := 0 to |strVals|
        invariant fresh(para)
        invariant AddEach(para.fields, e.keys[j], strVals[k..]) == AddEach(before, e.keys[j], strVals)
      {
        assert strVals[k..][1..] == strVals[k + 1..];
        AddToMeaning(para.fields, e.keys[j], strVals[k]);
        para.AddValue(e.keys[j], strVals[k]);
      }
    }
    DecodeStep(para.fields, e, |e.keys|);
    p := para.fields;
  }

  lemma DecodeStep(m: Paragraph, e: Encoded, j: nat)
    requires |e.keys| == |e.values| && j <= |e.keys|
    ensures DecodeFrom(m, Encoded(e.keys[j..], e.values[j..])) ==
            if j == |e.keys| then m
            else DecodeFrom(AddEach(m, e.keys[j], e.values[j]), Encoded(e.keys[j + 1..], e.values[j + 1..]))
    ensures Encoded(e.keys[0..], e.values[0..]) == e
  {
  }

  lemma {:induction false} AddEachIsAddAll(m: Paragraph, k: string, vals: seq<string>)
    ensures AddEach(m, k, vals) == if vals == [] then m else AddAll(m, k, vals)
    decreases |vals|
  {
    if vals != [] {
      var next := AddTo(m, k, vals[0]);
      AddEachIsAddAll(next, k, vals[1..]);
      if vals[1..] == [] {
        assert vals == [vals[0]];
      } else if k in m {
        assert (m[k] + [vals[0]]) + vals[1..] == m[k] + vals;
        assert AddAll(next, k, vals[1..]) == AddAll(m, k, vals);
      } else {
        assert [vals[0]] + vals[1..] == vals;
        assert AddAll(next, k, vals[1..]) == AddAll(m, k, vals);
      }
    }
  }

  lemma {:induction false} DecodeOther(m: Paragraph, e: Encoded, k: string)
    requires |e.keys| == |e.values| && k !in e.keys
    ensures var r := DecodeFrom(m, e);
            (k in r <==> k in m) && (k in m ==> r[k] == m[k])
    decreases |e.keys|
  {
    if e.keys != [] {
      AddEachIsAddAll(m, e.keys[0], e.values[0]);
      DecodeOther(AddEach(m, e.keys[0], e.values[0]), Encoded(e.keys[1..], e.values[1..]), k);
    }
  }

  /** Decoding gives a key back iff it has a value, and with its values. */
  lemma {:induction false} DecodeListed(m: Paragraph, e: Encoded, i: nat)
    requires |e.keys| == |e.values| && NoDuplicates(e.keys) && i < |e.keys| && e.keys[i] !in m
    ensures var r, k := DecodeFrom(m, e), e.keys[i];
            (k in r <==> e.values[i] != []) && (k in r ==> r[k] == e.values[i])
    decreases |e.keys|
  {
    hide DecodeFrom;
    AddEachIsAddAll(m, e.keys[0], e.values[0]);
    var next, rest := AddEach(m, e.keys[0], e.values[0]), Encoded(e.keys[1..], e.values[1..]);
    FirstDecoded(m, e);
    if i == 0 {
      forall j | 0 <= j < |rest.keys| ensures rest.keys[j] != e.keys[0] {
        assert e.keys[j + 1] != e.keys[0];
      }
      DecodeOther(next, rest, e.keys[0]);
    } else {
      assert e.keys[0] != e.keys[i] == rest.keys[i - 1];
      DecodeListed(next, rest, i - 1);
    }
  }

  lemma FirstDecoded(m: Paragraph, e: Encoded)
    requires |e.keys| == |e.values| && NoDuplicates(e.keys) && e.keys != []
    ensures DecodeFrom(m, e) == DecodeFrom(AddEach(m, e.keys[0], e.values[0]), Encoded(e.keys[1..], e.values[1..]))
    ensures NoDuplicates(e.keys[1..])
  {
    hide AddEach;
    assert forall j :: 0 <= j < |e.keys[1..]| ==> e.keys[1..][j] == e.keys[j + 1];
  }

  /** Theorem: reading back a stored paragraph gives it again, iff every field has a value. */
  lemma DecodeOfEncode(p: Paragraph)
    ensures Decode(Encode(p)) == p <==> Printable(p)
  {
    DecodedFields(p);
  }

  lemma DecodedFields(p: Paragraph)
    ensures var r := Decode(Encode(p));
            && (forall k :: k in r <==> k in p && p[k] != [])
            && (forall k :: k in r ==> r[k] == p[k])
  {
    hide Decode;
    forall k ensures k in Decode(Encode(p)) <==> k in p && p[k] != []
             ensures k in Decode(Encode(p)) ==> Decode(Encode(p))[k] == p[k]
    {
      DecodedField(p, k);
    }
  }

  lemma DecodedField(p: Paragraph, k: string)
    ensures var r := Decode(Encode(p));
            (k in r <==> k in p && p[k] != []) && (k in r ==> r[k] == p[k])
  {
    hide DecodeFrom;
    var e := Encode(p);
    AscendingDistinct(e.keys);
    if k in p {
      var i :| 0 <= i < |e.keys| && e.keys[i] == k;
      DecodeListed(map[], e, i);
    } else {
      DecodeOther(map[], e, k);
    }
  }

  /** The encoding is canonical: it tells apart just the paragraphs that differ. */
  lemma EncodeInjective(p: Paragraph, q: Paragraph)
    ensures Encode(p) == Encode(q) <==> p == q
  {
    hide Encode;
    if Encode(p) == Encode(q) {
      forall k ensures k in p <==> k in q
               ensures k in p && k in q ==> p[k] == q[k]
      {
        EncodedField(p, k);
        EncodedField(q, k);
      }
    }
  }

  /** The fields of `p` can be looked up in its encoding. */
  lemma EncodedField(p: Paragraph, k: string)
    ensures var e := Encode(p);
            && |e.keys| == |e.values|
            && (k in p <==> k in e.keys)
            && forall i :: 0 <= i < |e.keys| && e.keys[i] == k ==> k in p && e.values[i] == p[k]
  {
  }

  /** Theorem: the encoding lists the names of the fields in ascending order, each with its values. */
  lemma EncodingListsFields(p: Paragraph)
    ensures var e := Encode(p);
            && |e.keys| == |e.values|
            && (forall i, j :: 0 <= i < j < |e.keys| ==> BytesCompare(e.keys[i], e.keys[j]) < 0)
            && (forall k :: k in p <==> k in e.keys)
            && (forall i :: 0 <= i < |e.keys| ==> e.keys[i] in p && e.values[i] == p[e.keys[i]])
  {
    hide Encode, BytesCompare;
    EncodingAscends(p);
    forall k ensures k in p <==> k in Encode(p).keys {
      EncodedField(p, k);
    }
    var e := Encode(p);
    EncodedField(p, "");
    forall i | 0 <= i < |e.keys| ensures e.keys[i] in p && e.values[i] == p[e.keys[i]] {
      EncodedField(p, e.keys[i]);
    }
  }

  lemma EncodingAscends(p: Paragraph)
    ensures Ascending(Encode(p).keys)
  {
    hide Ascending;
  }

  ghost function EncodeFile(f: ControlFile): StoredFile {
    StoredFile(seq(|f.data|, i requires 0 <= i < |f.data| => Encode(f.data[i])), f.signedBy, f.signed, f.signatureVerified)
  }

  predicate Paired(s: StoredFile) {
    forall e <- s.paragraphs :: |e.keys| == |e.values|
  }

  function DecodeFile(s: StoredFile): ControlFile
    requires Paired(s)
  {
    ControlFile(seq(|s.paragraphs|, i requires 0 <= i < |s.paragraphs| => Decode(s.paragraphs[i])), s.signed, s.signatureVerified, s.signedBy)
  }

  method AddControlFile(item: ControlFile) returns (file: StoredFile)
    ensures file == EncodeFile(item)
    ensures file.signed == item.signed && file.signatureVerified == item.signatureVerified && file.signedBy == item.signedBy
  {
    var data: seq<Encoded> := [];
    for i := 0 to |item.data|
      invariant |data| == i && forall j :: 0 <= j < i ==> data[j] == Encode(item.data[j])
    {
      var e := EncodeParagraph(item.data[i]);
      data := data + [e];
    }
    file := StoredFile(data, item.signedBy, item.signed, item.signatureVerified);
  }

  method GetControlFile(file: StoredFile) returns (result: ControlFile)
    requires Paired(file)
    ensures result == DecodeFile(file)
    ensures result.signed == file.signed && result.signatureVerified == file.signatureVerified && result.signedBy == file.signedBy
  {
    var data: seq<Paragraph> := [];
    for i := 0 to |file.paragraphs|
      invariant |data| == i && forall j :: 0 <= j < i ==> data[j] == Decode(file.paragraphs[j])
    {
      var p := DecodeParagraph(file.paragraphs[i]);
      data := data + [p];
    }
    result := ControlFile(data, file.signed, file.signatureVerified, file.signedBy);
  }

  /** Theorem: storing a control file and reading it back is the identity iff every
    * field of every paragraph has a value. */
  lemma StoredFileReadsBack(f: ControlFile)
    ensures Paired(EncodeFile(f))
    ensures DecodeFile(EncodeFile(f)) == f <==> forall p <- f.data :: Printable(p)
  {
    hide Encode, Decode, Printable;
    EncodePaired(f);
    forall i | 0 <= i < |f.data| ensures Decode(Encode(f.data[i])) == f.data[i] <==> Printable(f.data[i]) {
      DecodeOfEncode(f.data[i]);
    }
    var r := DecodeFile(EncodeFile(f));
    assert forall i :: 0 <= i < |f.data| ==> r.data[i] == Decode(Encode(f.data[i]));
  }

  lemma EncodePaired(f: ControlFile)
    ensures Paired(EncodeFile(f)) && forall p <- f.data :: |Encode(p).keys| == |Encode(p).values|
  {
  }

  /** Theorem: the encoding is one to one, so equal files, and only they, share an id. */
  lemma EncodeFileInjective(f: ControlFile, g: ControlFile)
    ensures EncodeFile(f) == EncodeFile(g) <==> f == g
  {
    hide Encode;
    if EncodeFile(f) == EncodeFile(g) {
      assert |f.data| == |EncodeFile(f).paragraphs| == |g.data|;
      forall i | 0 <= i < |f.data| ensures f.data[i] == g.data[i] {
        assert EncodeFile(f).paragraphs[i] == Encode(f.data[i]) && EncodeFile(g).paragraphs[i] == Encode(g.data[i]);
        EncodeInjective(f.data[i], g.data[i]);
      }
    }
  }
}
