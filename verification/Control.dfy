/** Debian control files: the line parser and the printer (control.go).
  * Text is a string of code points; lines are unbounded. */
module Control {
  import opened Basics
  import opened ReleaseIndex

  type Paragraph = map<string, seq<string>>

  // ------------------------------------------------------------------ characters

  /** unicode.IsSpace. */
  predicate IsSpace(c: char) {
    || c in {' ', '\t', '\n', '\r', '\U{0B}', '\U{0C}', '\U{85}', '\U{A0}', '\U{1680}'}
    || '\U{2000}' <= c <= '\U{200A}'
    || c in {'\U{2028}', '\U{2029}', '\U{202F}', '\U{205F}', '\U{3000}'}
  }

  function TrimLeft(s: string): string {
    if s != "" && IsSpace(s[0]) then TrimLeft(s[1..]) else s
  }

  function TrimRight(s: string): string {
    if s != "" && IsSpace(s[|s| - 1]) then TrimRight(s[..|s| - 1]) else s
  }

  function TrimSpace(s: string): string {
    TrimRight(TrimLeft(s))
  }

  /** Where `c` first stands in `s`; |s| if nowhere. */
  function IndexOf(s: string, c: char): (k: nat)
    ensures k <= |s|
    ensures forall i :: 0 <= i < k ==> s[i] != c
    ensures k < |s| ==> s[k] == c
  {
    if s == "" || s[0] == c then 0 else 1 + IndexOf(s[1..], c)
  }

  // ------------------------------------------------------------------------ lines

  function DropCR(s: string): string {
    if s != "" && s[|s| - 1] == '\r' then s[..|s| - 1] else s
  }

  /** The lines a bufio.Scanner yields. */
  function Lines(t: string): seq<string>
    decreases |t|
  {
    if t == "" then []
    else
      var k := IndexOf(t, '\n');
      if k == |t| then [DropCR(t)] else [DropCR(t[..k])] + Lines(t[k + 1..])
  }

  function Unlines(ls: seq<string>): string {
    if ls == [] then "" else ls[0] + "\n" + Unlines(ls[1..])
  }

  predicate PlainLine(l: string) {
    (forall i :: 0 <= i < |l| ==> l[i] != '\n') && (l == "" || l[|l| - 1] != '\r')
  }

  lemma {:induction false} LinesOfUnlines(ls: seq<string>)
    requires forall l <- ls :: PlainLine(l)
    ensures Lines(Unlines(ls)) == ls
  {
    if ls != [] {
      FirstLine(ls[0], Unlines(ls[1..]));
      LinesOfUnlines(ls[1..]);
    }
  }

  lemma FirstLine(l: string, rest: string)
    requires PlainLine(l)
    ensures Lines(l + "\n" + rest) == [l] + Lines(rest)
  {
    var t := l + "\n" + rest;
    assert t[|l|] == '\n';
    assert forall i :: 0 <= i < |l| ==> t[i] == l[i];
    assert IndexOf(t, '\n') == |l|;
    assert t[..|l|] == l && t[|l| + 1..] == rest;
  }

  /** A line may also end in a carriage return and a newline, and the last one in nothing. */
  lemma LineEndings(l: string, rest: string)
    requires PlainLine(l)
    ensures Lines(l + "\r\n" + rest) == [l] + Lines(rest)
    ensures l != "" ==> Lines(l) == [l]
  {
    var t := l + "\r\n" + rest;
    assert t[|l| + 1] == '\n' && t[|l|] == '\r';
    assert forall i :: 0 <= i < |l| ==> t[i] == l[i];
    assert IndexOf(t, '\n') == |l| + 1;
    assert t[..|l| + 1] == l + "\r" && t[|l| + 2..] == rest;
    assert (l + "\r")[..|l|] == l;
  }

  // ----------------------------------------------------------------------- parsing

  function AddTo(p: Paragraph, field: string, val: string): Paragraph {
    if field in p then p[field := p[field] + [val]] else p[field := [val]]
  }

  lemma AddToMeaning(p: Paragraph, field: string, val: string)
    ensures AddTo(p, field, val) == p[field := (if field in p then p[field] else []) + [val]]
  {
    assert [] + [val] == [val];
  }

  datatype ParseState = ParseState(finished: seq<Paragraph>, current: Paragraph, field: string) {
    function Data(): seq<Paragraph> {
      finished + [current]
    }
  }

  const START := ParseState([], map[], "")

  /** One turn of the parser's loop; None is an error. */
  function ParseLine(st: ParseState, line: string): Option<ParseState> {
    if line == "" then
      Some(if st.current != map[] then ParseState(st.finished + [st.current], map[], "") else st)
    else if line[0] == ' ' || line[0] == '\t' then
      if st.field == "" then None
      else Some(st.(current := AddTo(st.current, st.field, TrimSpace(line))))
    else
      var k := IndexOf(line, ':');
      if k == |line| then None
      else Some(st.(field := line[..k], current := AddTo(st.current, line[..k], TrimSpace(line[k + 1..]))))
  }

  function ParseLines(st: ParseState, ls: seq<string>): Option<ParseState>
    decreases |ls|
  {
    if ls == [] then Some(st)
    else
      match ParseLine(st, ls[0])
      case None => None
      case Some(next) => ParseLines(next, ls[1..])
  }

  function Parse(t: string): Option<seq<Paragraph>> {
    match ParseLines(START, Lines(t))
    case None => None
    case Some(st) => Some(st.Data())
  }

  const PGP_HEADER := "-----BEGIN PGP SIGNED MESSAGE----"

  /** Text that goes to the OpenPGP library before it is parsed. */
  predicate Clearsigned(t: string) {
    PGP_HEADER <= t
  }

  /** A paragraph as the program changes it. */
  class ControlParagraph {
    var fields: Paragraph

    constructor ()
      ensures fields == map[]
    {
      fields := map[];
    }

    method SetValue(item: string, val: string)
      modifies this
      ensures fields == old(fields)[item := [val]]
    {
      fields := fields[item := [val]];
    }

    method AddValue(item: string, val: string)
      modifies this
      ensures fields == old(fields)[item := (if item in old(fields) then old(fields)[item] else []) + [val]]
    {
      if item in fields {
        fields := fields[item := fields[item] + [val]];
      } else {
        fields := fields[item := [val]];
        assert [] + [val] == [val];
      }
    }
  }

  method ParseDebianControl(text: string) returns (data: Option<seq<Paragraph>>)
    requires !Clearsigned(text)
    ensures data == Parse(text)
  {
    var lines := Lines(text);
    var currpara := new ControlParagraph();
    var finished: seq<Paragraph> := [];
    var currfield := "";
    var i := 0;
    while i < |lines|
      invariant 0 <= i <= |lines|
      invariant fresh(currpara)
      invariant ParseLines(START, lines) == ParseLines(ParseState(finished, currpara.fields, currfield), lines[i..])
    {
      var line := lines[i];
      ghost var before := ParseState(finished, currpara.fields, currfield);
      assert lines[i..][0] == line && lines[i..][1..] == lines[i + 1..];
      if line == "" {
        if currpara.fields != map[] {
          finished := finished + [currpara.fields];
          currpara := new ControlParagraph();
          currfield := "";
        }
      } else if line[0] == ' ' || line[0] == '\t' {
        if currfield == "" {
          return None;
        }
        AddToMeaning(currpara.fields, currfield, TrimSpace(line));
        currpara.AddValue(currfield, TrimSpace(line));
      } else {
        var k := IndexOf(line, ':');
        if k == |line| {
          return None;
        }
        currfield := line[..k];
        var val := TrimSpace(line[k + 1..]);
        AddToMeaning(currpara.fields, currfield, val);
        currpara.AddValue(currfield, val);
      }
      assert ParseLine(before, line) == Some(ParseState(finished, currpara.fields, currfield));
      i := i + 1;
    }
    return Some(finished + [currpara.fields]);
  }

  // ---------------------------------------------------------------------- printing

  /** Strictly increasing in the order of sort.Strings. */
  predicate Ascending(ks: seq<string>) {
    forall i, j :: 0 <= i < j < |ks| ==> BytesCompare(ks[i], ks[j]) < 0
  }

  /** The fields in the order they are printed: those of `start`, the rest sorted, those of `end`. */
  ghost function FieldOrder(p: Paragraph, start: seq<string>, end: seq<string>): seq<string> {
    Listed(p, start) + SortedKeys(Middle(p, start, end)) + Listed(p, end)
  }

  function Middle(p: Paragraph, start: seq<string>, end: seq<string>): set<string> {
    set k | k in p && k !in start && k !in end
  }

  function Listed(p: Paragraph, names: seq<string>): seq<string> {
    if names == [] then []
    else (if names[0] in p then [names[0]] else []) + Listed(p, names[1..])
  }

  /** `least` comes before all else in `s`. */
  ghost predicate Least(s: set<string>, least: string) {
    least in s && forall k :: k in s && k != least ==> BytesCompare(least, k) < 0
  }

  ghost function SortedKeys(s: set<string>): (r: seq<string>)
    ensures Ascending(r)
    ensures forall k :: k in r <==> k in s
  {
    if s == {} then []
    else
      LeastExists(s);
      var least :| Least(s, least);
      LeastFirst(s, least, SortedKeys(s - {least}));
      [least] + SortedKeys(s - {least})
  }

  lemma LeastFirst(s: set<string>, least: string, rest: seq<string>)
    requires Least(s, least) && Ascending(rest) && forall k :: k in rest <==> k in s - {least}
    ensures Ascending([least] + rest) && forall k :: k in [least] + rest <==> k in s
  {
    hide BytesCompare;
    forall j | 0 <= j < |rest| ensures BytesCompare(least, rest[j]) < 0 {
      assert rest[j] in s - {least};
    }
  }

  lemma {:induction false} LeastExists(s: set<string>)
    requires s != {}
    ensures exists least :: Least(s, least)
  {
    var x :| x in s;
    if s == {x} {
      assert Least(s, x);
    } else {
      assert s - {x} != {};
      LeastExists(s - {x});
      var m :| Least(s - {x}, m);
      LesserIsLeast(s, x, m);
    }
  }

  lemma LesserIsLeast(s: set<string>, x: string, m: string)
    requires x in s && Least(s - {x}, m)
    ensures Least(s, if BytesCompare(x, m) < 0 then x else m)
  {
    hide BytesCompare;
    BytesMirror(x, m);
    forall k | k in s && k != x && k != m && BytesCompare(x, m) < 0 ensures BytesCompare(x, k) < 0 {
      assert k in s - {x};
      BytesTransitive(x, m, k);
    }
  }

  /** Sorting forgets how the keys were listed. */
  lemma {:induction false} AscendingUnique(a: seq<string>, b: seq<string>)
    requires Ascending(a) && Ascending(b) && forall k :: k in a <==> k in b
    ensures a == b
  {
    assert b != [] ==> b[0] in b;
    if a != [] {
      assert a[0] in a && a[0] in b;
      assert b[0] in b && b[0] in a;
      FirstIsLeast(a, b[0]);
      FirstIsLeast(b, a[0]);
      BytesMirror(a[0], b[0]);
      assert a[0] == b[0];
      forall k ensures k in a[1..] <==> k in b[1..] {
        NotAgain(a, k);
        NotAgain(b, k);
      }
      AscendingUnique(a[1..], b[1..]);
    }
  }

  lemma FirstIsLeast(a: seq<string>, k: string)
    requires Ascending(a) && k in a
    ensures BytesCompare(a[0], k) <= 0
  {
  }

  lemma NotAgain(a: seq<string>, k: string)
    requires a != [] && Ascending(a)
    ensures k in a[1..] <==> k in a && k != a[0]
  {
  }

  function Continued(vals: seq<string>): seq<string> {
    if vals == [] then [] else [" " + vals[0]] + Continued(vals[1..])
  }

  /** The lines of one field; the program indexes its first value. */
  function FieldLines(name: string, vals: seq<string>): seq<string>
    requires vals != []
  {
    [name + ": " + vals[0]] + Continued(vals[1..])
  }

  predicate Printable(p: Paragraph) {
    forall k :: k in p ==> p[k] != []
  }

  function OrderLines(p: Paragraph, order: seq<string>): seq<string>
    requires Printable(p) && forall k <- order :: k in p
  {
    if order == [] then [] else FieldLines(order[0], p[order[0]]) + OrderLines(p, order[1..])
  }

  lemma {:induction false} ListedInside(p: Paragraph, names: seq<string>)
    ensures forall k :: k in Listed(p, names) <==> k in names && k in p
  {
    if names != [] {
      ListedInside(p, names[1..]);
      assert names == [names[0]] + names[1..];
    }
  }

  lemma OrderInside(p: Paragraph, start: seq<string>, end: seq<string>)
    ensures forall k :: k in FieldOrder(p, start, end) <==> k in p
  {
    ListedInside(p, start);
    ListedInside(p, end);
  }

  ghost function ParagraphLines(p: Paragraph, start: seq<string>, end: seq<string>): seq<string>
    requires Printable(p)
  {
    OrderInside(p, start, end);
    OrderLines(p, FieldOrder(p, start, end))
  }

  /** All paragraphs, with an empty line between any two. */
  ghost function FileLines(ps: seq<Paragraph>, start: seq<string>, end: seq<string>): seq<string>
    requires forall p <- ps :: Printable(p)
  {
    if ps == [] then []
    else if |ps| == 1 then ParagraphLines(ps[0], start, end)
    else ParagraphLines(ps[0], start, end) + [""] + FileLines(ps[1..], start, end)
  }

  // ------------------------------------------------------------- the printer's loops

  lemma {:induction false} UnlinesOf(a: seq<string>, b: seq<string>)
    ensures Unlines(a + b) == Unlines(a) + Unlines(b)
  {
    if a == [] {
      assert a + b == b;
    } else {
      UnlinesOf(a[1..], b);
      assert (a + b)[1..] == a[1..] + b;
    }
  }

  lemma ContinuedText(vals: seq<string>, j: nat)
    requires j < |vals|
    ensures Unlines(Continued(vals[j..])) == " " + vals[j] + "\n" + Unlines(Continued(vals[j + 1..]))
  {
  }

  lemma FieldText(name: string, lines: seq<string>)
    requires lines != []
    ensures Unlines(FieldLines(name, lines)) == name + ": " + lines[0] + "\n" + Unlines(Continued(lines[1..]))
  {
  }

  method WriteField(out0: string, name: string, lines: seq<string>) returns (out: string)
    requires lines != []
    ensures out == out0 + Unlines(FieldLines(name, lines))
  {
    hide Unlines, Continued, FieldLines;
    FieldText(name, lines);
    out := out0 + (name + ": " + lines[0] + "\n");
    var rest := lines[1..];
    assert rest[0..] == rest;
    for j := 0 to |rest|
      invariant out + Unlines(Continued(rest[j..])) == out0 + Unlines(FieldLines(name, lines))
    {
      ContinuedText(rest, j);
      out := out + (" " + rest[j] + "\n");
    }
    assert rest[|rest|..] == [];
    NothingContinued();
  }

  lemma NothingContinued()
    ensures Unlines(Continued([])) == ""
  {
  }

  /** The text of the listed fields from the `i`-th name on. */
  function ListedText(p: Paragraph, names: seq<string>): string
    requires Printable(p)
  {
    ListedInside(p, names);
    Unlines(OrderLines(p, Listed(p, names)))
  }

  lemma ListedStep(p: Paragraph, names: seq<string>, i: nat)
    requires Printable(p) && i < |names|
    ensures ListedText(p, names[i..]) ==
            (if names[i] in p then Unlines(FieldLines(names[i], p[names[i]])) else "") + ListedText(p, names[i + 1..])
  {
    hide FieldLines, Unlines;
    assert names[i..][1..] == names[i + 1..];
    ListedInside(p, names[i..]);
    ListedInside(p, names[i + 1..]);
    if names[i] in p {
      var order := Listed(p, names[i..]);
      assert order[0] == names[i] && order[1..] == Listed(p, names[i + 1..]);
      assert OrderLines(p, order) == FieldLines(names[i], p[names[i]]) + OrderLines(p, order[1..]);
      UnlinesOf(FieldLines(names[i], p[names[i]]), OrderLines(p, order[1..]));
    } else {
      assert Listed(p, names[i..]) == Listed(p, names[i + 1..]);
      assert "" + ListedText(p, names[i + 1..]) == ListedText(p, names[i + 1..]);
    }
  }

  /** The loop over a list of field names, each written if present. */
  method WriteListed(out0: string, p: Paragraph, names: seq<string>) returns (out: string)
    requires Printable(p)
    ensures out == out0 + ListedText(p, names)
  {
    hide ListedText, Unlines, FieldLines;
    out := out0;
    assert names[0..] == names;
    for i := 0 to |names|
      invariant out + ListedText(p, names[i..]) == out0 + ListedText(p, names)
    {
      ListedStep(p, names, i);
      if names[i] in p {
        out := WriteField(out, names[i], p[names[i]]);
      }
    }
    assert names[|names|..] == [];
    NothingListed(p);
  }

  lemma NothingListed(p: Paragraph)
    requires Printable(p)
    ensures ListedText(p, []) == ""
  {
  }

  /** sort.Strings. */
  method SortStrings(ks: seq<string>) returns (r: seq<string>)
    requires forall i, j :: 0 <= i < j < |ks| ==> ks[i] != ks[j]
    ensures Ascending(r) && forall k :: k in r <==> k in ks
  {
    r := [];
    for i := 0 to |ks|
      invariant Ascending(r) && forall k :: k in r <==> k in ks[..i]
    {
      assert ks[..i + 1] == ks[..i] + [ks[i]];
      assert ks[i] !in ks[..i];
      r := InsertString(r, ks[i]);
    }
    assert ks[..|ks|] == ks;
  }

  method InsertString(r0: seq<string>, k: string) returns (r: seq<string>)
    requires Ascending(r0) && k !in r0
    ensures Ascending(r) && forall x :: x in r <==> x in r0 || x == k
  {
    var j := 0;
    while j < |r0| && BytesCompare(r0[j], k) < 0
      invariant 0 <= j <= |r0|
      invariant forall i :: 0 <= i < j ==> BytesCompare(r0[i], k) < 0
    {
      j := j + 1;
    }
    r := r0[..j] + [k] + r0[j..];
    assert r0 == r0[..j] + r0[j..];
    InsertAscending(r0, k, j);
  }

  /** All from place `j` on come after `k`. */
  lemma RestComesAfter(r0: seq<string>, k: string, j: nat)
    requires Ascending(r0) && k !in r0 && j < |r0| && BytesCompare(r0[j], k) >= 0
    ensures forall i :: j <= i < |r0| ==> BytesCompare(k, r0[i]) < 0
  {
    hide BytesCompare;
    BytesMirror(r0[j], k);
    assert r0[j] in r0;
    forall i | j < i < |r0| ensures BytesCompare(k, r0[i]) < 0 {
      BytesTransitive(k, r0[j], r0[i]);
    }
  }

  lemma InsertAscending(r0: seq<string>, k: string, j: nat)
    requires Ascending(r0) && k !in r0 && j <= |r0|
    requires forall i :: 0 <= i < j ==> BytesCompare(r0[i], k) < 0
    requires j < |r0| ==> BytesCompare(r0[j], k) >= 0
    ensures Ascending(r0[..j] + [k] + r0[j..])
  {
    hide BytesCompare;
    if j < |r0| {
      RestComesAfter(r0, k, j);
    }
    SpliceAscending(r0, k, j);
  }

  lemma SpliceAscending(r0: seq<string>, k: string, j: nat)
    requires Ascending(r0) && j <= |r0|
    requires forall i :: 0 <= i < j ==> BytesCompare(r0[i], k) < 0
    requires forall i :: j <= i < |r0| ==> BytesCompare(k, r0[i]) < 0
    ensures Ascending(r0[..j] + [k] + r0[j..])
  {
    hide BytesCompare;
  }

  /** One paragraph; the map is iterated in any order. */
  method WriteParagraph(out0: string, p: Paragraph, start: seq<string>, end: seq<string>) returns (out: string)
    requires Printable(p)
    ensures out == out0 + Unlines(ParagraphLines(p, start, end))
  {
    hide ParagraphLines, ListedText, Unlines, SortedKeys;
    out := WriteListed(out0, p, start);
    var middle: seq<string> := [];
    var todo := p.Keys;
    while todo != {}
      invariant todo <= p.Keys
      invariant forall k :: k in middle <==> k in p && k !in todo && k !in start && k !in end
      invariant forall i, j :: 0 <= i < j < |middle| ==> middle[i] != middle[j]
      decreases todo
    {
      var fieldName :| fieldName in todo;
      if fieldName !in start && fieldName !in end {
        middle := middle + [fieldName];
      }
      todo := todo - {fieldName};
    }
    middle := SortStrings(middle);
    AscendingUnique(middle, SortedKeys(Middle(p, start, end)));
    ThreeParts(p, start, end);
    out := WriteListed(out, p, middle);
    out := WriteListed(out, p, end);
  }

  lemma {:induction false} AllListed(p: Paragraph, names: seq<string>)
    requires forall k <- names :: k in p
    ensures Listed(p, names) == names
  {
    if names != [] {
      AllListed(p, names[1..]);
    }
  }

  lemma {:induction false} OrderLinesOf(p: Paragraph, a: seq<string>, b: seq<string>)
    requires Printable(p) && (forall k <- a :: k in p) && (forall k <- b :: k in p)
    ensures (forall k <- a + b :: k in p) && OrderLines(p, a + b) == OrderLines(p, a) + OrderLines(p, b)
  {
    if a == [] {
      assert a + b == b;
    } else {
      OrderLinesOf(p, a[1..], b);
      assert (a + b)[1..] == a[1..] + b;
    }
  }

  lemma ThreeParts(p: Paragraph, start: seq<string>, end: seq<string>)
    requires Printable(p)
    ensures Unlines(ParagraphLines(p, start, end)) ==
            ListedText(p, start) + ListedText(p, SortedKeys(Middle(p, start, end))) + ListedText(p, end)
  {
    hide Unlines, SortedKeys, OrderLines;
    var middle := SortedKeys(Middle(p, start, end));
    ListedInside(p, start);
    ListedInside(p, end);
    AllListed(p, middle);
    OrderLinesOf(p, Listed(p, start) + middle, Listed(p, end));
    OrderLinesOf(p, Listed(p, start), middle);
    UnlinesOf(OrderLines(p, Listed(p, start)) + OrderLines(p, middle), OrderLines(p, Listed(p, end)));
    UnlinesOf(OrderLines(p, Listed(p, start)), OrderLines(p, middle));
  }

  method WriteDebianControl(data: seq<Paragraph>, start: seq<string>, end: seq<string>) returns (out: string)
    requires forall p <- data :: Printable(p)
    ensures out == Unlines(FileLines(data, start, end))
  {
    hide ParagraphLines, Unlines;
    out := "";
    NothingWritten();
    for i := 0 to |data|
      invariant out + Unlines(FileLines(data[i..], start, end)) == Unlines(FileLines(data, start, end))
    {
      assert data[i..][1..] == data[i + 1..];
      FileStep(data[i..], start, end);
      out := WriteParagraph(out, data[i], start, end);
      if i < |data| - 1 {
        out := out + "\n";
      }
    }
    NothingWritten();
  }

  lemma NothingWritten()
    ensures Unlines([]) == ""
  {
  }

  lemma EmptyLine()
    ensures Unlines([""]) == "\n" && Unlines([]) == ""
  {
  }

  lemma FileStep(ps: seq<Paragraph>, start: seq<string>, end: seq<string>)
    requires ps != [] && forall p <- ps :: Printable(p)
    ensures Unlines(FileLines(ps, start, end)) ==
            Unlines(ParagraphLines(ps[0], start, end)) + (if |ps| > 1 then "\n" else "") + Unlines(FileLines(ps[1..], start, end))
  {
    if |ps| > 1 {
      hide ParagraphLines, Unlines;
      EmptyLine();
      var first, rest := ParagraphLines(ps[0], start, end), FileLines(ps[1..], start, end);
      UnlinesOf(first + [""], rest);
      UnlinesOf(first, [""]);
    }
  }
}
