/** What the printer of control files writes where (WriteDebianControl in control.go):
  * the fields to start with, then the others in order, then those to end with. */
module ControlPrint {
  import opened ReleaseIndex
  import opened Control

  /** A field is one line with its name and first value, and one for each further value. */
  lemma {:induction false} FieldByLine(name: string, vals: seq<string>)
    requires vals != []
    ensures |FieldLines(name, vals)| == |vals| && FieldLines(name, vals)[0] == name + ": " + vals[0]
    ensures forall j :: 0 < j < |vals| ==> FieldLines(name, vals)[j] == " " + vals[j]
  {
    ContinuedByLine(vals[1..]);
  }

  lemma {:induction false} ContinuedByLine(vals: seq<string>)
    ensures |Continued(vals)| == |vals|
    ensures forall j :: 0 <= j < |vals| ==> Continued(vals)[j] == " " + vals[j]
  {
    if vals != [] {
      ContinuedByLine(vals[1..]);
    }
  }

  lemma {:induction false} OtherLines(p: Paragraph, f: string, order: seq<string>)
    requires Printable(p) && forall k <- order :: k in p && k != f
    ensures OrderLines(p - {f}, order) == OrderLines(p, order)
  {
    if order != [] {
      assert order[0] in order;
      OtherLines(p, f, order[1..]);
      assert (p - {f})[order[0]] == p[order[0]];
    }
  }

  lemma {:induction false} OthersListed(p: Paragraph, f: string, names: seq<string>)
    requires f !in names
    ensures Listed(p - {f}, names) == Listed(p, names)
  {
    if names != [] {
      OthersListed(p, f, names[1..]);
    }
  }

  lemma {:induction false} ListedAppend(p: Paragraph, a: seq<string>, b: seq<string>)
    ensures Listed(p, a + b) == Listed(p, a) + Listed(p, b)
  {
    if a == [] {
      assert a + b == b;
    } else {
      assert (a + b)[1..] == a[1..] + b;
      ListedAppend(p, a[1..], b);
    }
  }

  function LinesIfPresent(p: Paragraph, f: string): seq<string>
    requires Printable(p)
  {
    if f in p then FieldLines(f, p[f]) else []
  }

  lemma OnlyOne(p: Paragraph, f: string)
    requires Printable(p)
    ensures (forall k <- Listed(p, [f]) :: k in p) && OrderLines(p, Listed(p, [f])) == LinesIfPresent(p, f)
  {
    if f in p {
      assert Listed(p, [f]) == [f];
      assert [f][1..] == [];
    } else {
      assert Listed(p, [f]) == [];
    }
  }

  /** Theorem: the first field of `start` is printed first, before all else. */
  lemma StartFirst(p: Paragraph, f: string, start: seq<string>, end: seq<string>)
    requires Printable(p) && f !in start && f !in end
    ensures ParagraphLines(p, [f] + start, end) == LinesIfPresent(p, f) + ParagraphLines(p - {f}, start, end)
  {
    hide OrderLines, Listed, SortedKeys, LinesIfPresent;
    var q := p - {f};
    var rest := FieldOrder(q, start, end);
    OrderInside(q, start, end);
    ListedAppend(p, [f], start);
    OthersListed(p, f, start);
    OthersListed(p, f, end);
    assert Middle(p, [f] + start, end) == Middle(q, start, end);
    assert FieldOrder(p, [f] + start, end) == Listed(p, [f]) + rest;
    OnlyOne(p, f);
    OrderLinesOf(p, Listed(p, [f]), rest);
    OtherLines(p, f, rest);
  }

  /** Theorem: the last field of `end` is printed last. */
  lemma EndLast(p: Paragraph, f: string, start: seq<string>, end: seq<string>)
    requires Printable(p) && f !in start && f !in end
    ensures ParagraphLines(p, start, end + [f]) == ParagraphLines(p - {f}, start, end) + LinesIfPresent(p, f)
  {
    hide OrderLines, Listed, SortedKeys, LinesIfPresent;
    var q := p - {f};
    var rest := FieldOrder(q, start, end);
    OrderInside(q, start, end);
    ListedAppend(p, end, [f]);
    OthersListed(p, f, start);
    OthersListed(p, f, end);
    assert Middle(p, start, end + [f]) == Middle(q, start, end);
    assert FieldOrder(p, start, end + [f]) == rest + Listed(p, [f]);
    OnlyOne(p, f);
    OrderLinesOf(p, rest, Listed(p, [f]));
    OtherLines(p, f, rest);
  }

  /** Theorem: fields that are not listed are printed with the smallest name first. */
  lemma SmallestFirst(p: Paragraph, f: string)
    requires Printable(p) && f in p && forall k :: k in p && k != f ==> BytesCompare(f, k) < 0
    ensures ParagraphLines(p, [], []) == FieldLines(f, p[f]) + ParagraphLines(p - {f}, [], [])
  {
    hide OrderLines, SortedKeys, BytesCompare, FieldLines;
    var q := p - {f};
    NoneListed(p);
    NoneListed(q);
    assert q.Keys == p.Keys - {f};
    SortedFirst(p.Keys, f);
    OrderFirst(p, f, SortedKeys(q.Keys));
    OtherLines(p, f, SortedKeys(q.Keys));
  }

  lemma NoneListed(p: Paragraph)
    ensures FieldOrder(p, [], []) == SortedKeys(p.Keys)
  {
    hide SortedKeys;
    assert Middle(p, [], []) == p.Keys;
  }

  lemma SortedFirst(s: set<string>, f: string)
    requires Least(s, f)
    ensures SortedKeys(s) == [f] + SortedKeys(s - {f})
  {
    hide Ascending, SortedKeys, BytesCompare;
    LeastFirst(s, f, SortedKeys(s - {f}));
    AscendingUnique([f] + SortedKeys(s - {f}), SortedKeys(s));
  }

  lemma OrderFirst(p: Paragraph, f: string, rest: seq<string>)
    requires Printable(p) && f in p && forall k <- rest :: k in p
    ensures (forall k <- [f] + rest :: k in p) && OrderLines(p, [f] + rest) == FieldLines(f, p[f]) + OrderLines(p, rest)
  {
    assert ([f] + rest)[1..] == rest;
  }

  /** Theorem: exactly one empty line stands between paragraphs, and none elsewhere. */
  lemma {:induction false} OneLineBetween(ps: seq<Paragraph>, qs: seq<Paragraph>, start: seq<string>, end: seq<string>)
    requires (forall p <- ps :: Printable(p)) && (forall q <- qs :: Printable(q)) && ps != [] && qs != []
    ensures FileLines(ps + qs, start, end) == FileLines(ps, start, end) + [""] + FileLines(qs, start, end)
    ensures |ps| == 1 ==> FileLines(ps, start, end) == ParagraphLines(ps[0], start, end)
  {
    hide ParagraphLines;
    assert (ps + qs)[1..] == ps[1..] + qs;
    if |ps| > 1 {
      OneLineBetween(ps[1..], qs, start, end);
    } else {
      assert ps[1..] + qs == qs;
    }
  }

  lemma NothingPrinted(start: seq<string>, end: seq<string>)
    ensures FileLines([], start, end) == [] && ParagraphLines(map[], [], []) == []
  {
    NoneListed(map[]);
    assert SortedKeys({}) == [];
  }
}
