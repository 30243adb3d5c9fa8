/** What the parser of control files makes of any text, not only of what the printer
  * writes (ParseDebianControl in control.go). */
module ControlText {
  import opened Basics
  import opened Control

  /** Where `s` ends a line begins. */
  predicate WholeLines(s: string) {
    s == "" || s[|s| - 1] == '\n'
  }

  predicate OneLine(l: string) {
    '\n' !in l
  }

  // ----------------------------------------------------------------------- lines

  lemma CutFirst(l: string, rest: string)
    requires OneLine(l)
    ensures Lines(l + "\n" + rest) == [DropCR(l)] + Lines(rest)
  {
    hide DropCR;
    var t := l + "\n" + rest;
    assert t[|l|] == '\n';
    assert forall i :: 0 <= i < |l| ==> t[i] == l[i];
    assert IndexOf(t, '\n') == |l|;
    assert t[..|l|] == l && t[|l| + 1..] == rest;
  }

  lemma {:induction false} LinesAppend(s: string, t: string)
    requires WholeLines(s)
    ensures Lines(s + t) == Lines(s) + Lines(t)
    decreases |s|
  {
    hide Lines, DropCR;
    if s == "" {
      assert s + t == t;
      NoLines();
    } else {
      var k := IndexOf(s, '\n');
      assert s[|s| - 1] == '\n';
      var l, rest := s[..k], s[k + 1..];
      assert s == l + "\n" + rest && s + t == l + "\n" + (rest + t);
      assert WholeLines(rest) by {
        assert rest != [] ==> rest[|rest| - 1] == s[|s| - 1];
      }
      LinesAppend(rest, t);
      CutFirst(l, rest);
      CutFirst(l, rest + t);
      assert [DropCR(l)] + (Lines(rest) + Lines(t)) == [DropCR(l)] + Lines(rest) + Lines(t);
    }
  }

  lemma NoLines()
    ensures Lines("") == []
  {
  }

  /** The last line needs no newline. */
  lemma {:induction false} LastLine(t: string)
    requires !WholeLines(t)
    ensures Lines(t + "\n") == Lines(t) && Parse(t + "\n") == Parse(t)
    decreases |t|
  {
    hide DropCR, ParseLines;
    var k := IndexOf(t, '\n');
    if k == |t| {
      CutFirst(t, "");
      assert t + "\n" + "" == t + "\n";
    } else {
      var l, rest := t[..k], t[k + 1..];
      assert t == l + "\n" + rest && t + "\n" == l + "\n" + (rest + "\n");
      CutFirst(l, rest);
      CutFirst(l, rest + "\n");
      assert rest[|rest| - 1] == t[|t| - 1];
      LastLine(rest);
    }
  }

  lemma {:induction false} ParseAppend(st: ParseState, a: seq<string>, b: seq<string>)
    ensures ParseLines(st, a + b) == match ParseLines(st, a) case None => None case Some(st') => ParseLines(st', b)
    decreases |a|
  {
    hide ParseLine;
    if a == [] {
      assert a + b == b;
    } else {
      assert (a + b)[0] == a[0] && (a + b)[1..] == a[1..] + b;
      match ParseLine(st, a[0])
      case None =>
      case Some(next) => ParseAppend(next, a[1..], b);
    }
  }

  // -------------------------------------------------------------------- trimming

  predicate Blank(s: string) {
    forall i :: 0 <= i < |s| ==> IsSpace(s[i])
  }

  /** TrimSpace cuts the space at both ends and no more. */
  lemma TrimMeaning(s: string)
    ensures exists a, b :: s == a + TrimSpace(s) + b && Blank(a) && Blank(b)
    ensures TrimSpace(s) != "" ==> !IsSpace(TrimSpace(s)[0]) && !IsSpace(TrimSpace(s)[|TrimSpace(s)| - 1])
  {
    hide IsSpace;
    var a := CutLeft(s);
    var t := TrimLeft(s);
    var b := CutRight(t);
    assert s == a + TrimSpace(s) + b;
    assert TrimSpace(s) != "" ==> TrimSpace(s)[0] == t[0];
  }

  lemma AsciiSpace(c: char)
    requires c < '\U{80}'
    ensures IsSpace(c) <==> c in {' ', '\t', '\n', '\U{0B}', '\U{0C}', '\r'}
  {
  }

  lemma {:induction false} CutLeft(s: string) returns (a: string)
    ensures s == a + TrimLeft(s) && Blank(a)
    ensures TrimLeft(s) != "" ==> !IsSpace(TrimLeft(s)[0])
  {
    if s != "" && IsSpace(s[0]) {
      var a' := CutLeft(s[1..]);
      a := [s[0]] + a';
      assert s == [s[0]] + s[1..];
    } else {
      a := "";
    }
  }

  lemma {:induction false} CutRight(s: string) returns (b: string)
    ensures s == TrimRight(s) + b && Blank(b)
    ensures TrimRight(s) != "" ==> !IsSpace(TrimRight(s)[|TrimRight(s)| - 1])
  {
    if s != "" && IsSpace(s[|s| - 1]) {
      var b' := CutRight(s[..|s| - 1]);
      b := b' + [s[|s| - 1]];
      assert s == s[..|s| - 1] + [s[|s| - 1]];
    } else {
      b := "";
    }
  }

  lemma {:induction false} LeftBlank(a: string, s: string)
    requires Blank(a)
    ensures TrimLeft(a + s) == TrimLeft(s)
  {
    if a == "" {
      assert a + s == s;
    } else {
      assert (a + s)[1..] == a[1..] + s;
      LeftBlank(a[1..], s);
    }
  }

  lemma {:induction false} RightBlank(s: string, b: string)
    requires Blank(b)
    ensures TrimRight(s + b) == TrimRight(s)
    decreases |b|
  {
    if b == "" {
      assert s + b == s;
    } else {
      assert (s + b)[..|s + b| - 1] == s + b[..|b| - 1];
      assert (s + b)[|s + b| - 1] == b[|b| - 1];
      RightBlank(s, b[..|b| - 1]);
    }
  }

  lemma {:induction false} LeftOfRight(s: string, b: string)
    requires Blank(b)
    ensures TrimSpace(s + b) == TrimSpace(s)
  {
    if s == "" {
      assert s + b == b + "";
      LeftBlank(b, "");
    } else if IsSpace(s[0]) {
      assert (s + b)[1..] == s[1..] + b;
      LeftOfRight(s[1..], b);
    } else {
      RightBlank(s, b);
    }
  }

  /** Space at either end does not matter. */
  lemma TrimAround(a: string, s: string, b: string)
    requires Blank(a) && Blank(b)
    ensures TrimSpace(a + s + b) == TrimSpace(s)
  {
    LeftBlank(a, s);
    LeftOfRight(a + s, b);
  }

  lemma TrimCR(s: string)
    ensures TrimSpace(DropCR(s)) == TrimSpace(s)
  {
    hide TrimSpace;
    if s != "" && s[|s| - 1] == '\r' {
      assert s == "" + s[..|s| - 1] + "\r";
      TrimAround("", s[..|s| - 1], "\r");
    }
  }

  // ------------------------------------------------------------ one kind of line

  /** A field name as the parser finds it. */
  predicate FieldName(name: string) {
    OneLine(name) && ':' !in name && (name != "" ==> name[0] != ' ' && name[0] != '\t')
  }

  predicate Continuation(l: string) {
    l != "" && (l[0] == ' ' || l[0] == '\t')
  }

  lemma HeaderLine(st: ParseState, name: string, v: string)
    requires FieldName(name)
    ensures ParseLine(st, DropCR(name + ":" + v)) ==
            Some(ParseState(st.finished, AddTo(st.current, name, TrimSpace(v)), name))
  {
    hide TrimSpace;
    var line := name + ":" + v;
    assert line[|name|] == ':' && forall i :: 0 <= i < |name| ==> line[i] == name[i];
    assert DropCR(line) == name + ":" + DropCR(v) by {
      if v == "" {
        assert line[|line| - 1] == ':';
      }
    }
    var cut := name + ":" + DropCR(v);
    assert cut[|name|] == ':' && forall i :: 0 <= i < |name| ==> cut[i] == name[i];
    assert IndexOf(cut, ':') == |name|;
    assert cut[..|name|] == name && cut[|name| + 1..] == DropCR(v);
    TrimCR(v);
  }

  lemma ContinuationLine(st: ParseState, l: string)
    requires Continuation(l)
    ensures ParseLine(st, DropCR(l)) ==
            if st.field == "" then None
            else Some(ParseState(st.finished, AddTo(st.current, st.field, TrimSpace(l)), st.field))
  {
    hide TrimSpace;
    TrimCR(l);
  }

  // -------------------------------------------------------- laws of any text

  lemma ParseMore(s: string, t: string)
    requires WholeLines(s)
    ensures Parse(s + t) ==
            match ParseLines(START, Lines(s))
            case None => None
            case Some(st) => (match ParseLines(st, Lines(t)) case None => None case Some(st') => Some(st'.Data()))
  {
    hide ParseLines, Lines;
    LinesAppend(s, t);
    ParseAppend(START, Lines(s), Lines(t));
  }

  lemma ParseOneMore(st: ParseState, l: string, t: string)
    requires OneLine(l)
    ensures ParseLines(st, Lines(l + "\n" + t)) ==
            match ParseLine(st, DropCR(l)) case None => None case Some(next) => ParseLines(next, Lines(t))
  {
    hide ParseLine, Lines, DropCR;
    CutFirst(l, t);
    assert ([DropCR(l)] + Lines(t))[1..] == Lines(t);
  }

  lemma LinesAlike(s: string, l: string, m: string, t: string)
    requires WholeLines(s) && OneLine(l) && OneLine(m)
    requires forall st :: ParseLine(st, DropCR(l)) == ParseLine(st, DropCR(m))
    ensures Parse(s + (l + "\n" + t)) == Parse(s + (m + "\n" + t))
  {
    hide ParseLine, ParseLines, Lines, DropCR;
    ParseMore(s, l + "\n" + t);
    ParseMore(s, m + "\n" + t);
    if ParseLines(START, Lines(s)).Some? {
      ParseOneMore(ParseLines(START, Lines(s)).value, l, t);
      ParseOneMore(ParseLines(START, Lines(s)).value, m, t);
    }
  }

  /** Theorem: spaces and tabs around the value of a field do not matter. */
  lemma SpacesAroundValue(s: string, name: string, a: string, v: string, b: string, t: string)
    requires WholeLines(s) && OneLine(v)
    requires '\n' !in name && ':' !in name && (name != "" ==> name[0] != ' ' && name[0] != '\t')
    requires forall i :: 0 <= i < |a| ==> a[i] == ' ' || a[i] == '\t'
    requires forall i :: 0 <= i < |b| ==> b[i] == ' ' || b[i] == '\t'
    ensures Parse(s + (name + ":" + (a + v + b) + "\n" + t)) == Parse(s + (name + ":" + v + "\n" + t))
  {
    hide ParseLine, Parse, DropCR, TrimSpace;
    TrimAround(a, v, b);
    forall st ensures ParseLine(st, DropCR(name + ":" + (a + v + b))) == ParseLine(st, DropCR(name + ":" + v)) {
      HeaderLine(st, name, a + v + b);
      HeaderLine(st, name, v);
    }
    LinesAlike(s, name + ":" + (a + v + b), name + ":" + v, t);
  }

  /** Theorem: nor do they around a continuation, which may start with either. */
  lemma SpacesInContinuation(s: string, c: char, a: string, v: string, b: string, t: string)
    requires WholeLines(s) && OneLine(v) && (c == ' ' || c == '\t')
    requires forall i :: 0 <= i < |a| ==> a[i] == ' ' || a[i] == '\t'
    requires forall i :: 0 <= i < |b| ==> b[i] == ' ' || b[i] == '\t'
    ensures Parse(s + ([c] + a + v + b + "\n" + t)) == Parse(s + (" " + v + "\n" + t))
  {
    hide ParseLine, Parse, DropCR, TrimSpace;
    TrimAround([c] + a, v, b);
    TrimAround(" ", v, "");
    assert " " + v + "" == " " + v;
    forall st ensures ParseLine(st, DropCR([c] + a + v + b)) == ParseLine(st, DropCR(" " + v)) {
      ContinuationLine(st, [c] + a + v + b);
      ContinuationLine(st, " " + v);
    }
    LinesAlike(s, [c] + a + v + b, " " + v, t);
  }

  // ---------------------------------------------------------------- paragraphs

  /** `st` with earlier paragraphs put before it. */
  function Behind(before: seq<Paragraph>, st: ParseState): ParseState {
    st.(finished := before + st.finished)
  }

  lemma {:induction false} ParseBehind(before: seq<Paragraph>, st: ParseState, ls: seq<string>)
    ensures ParseLines(Behind(before, st), ls) ==
            match ParseLines(st, ls) case None => None case Some(st') => Some(Behind(before, st'))
    decreases |ls|
  {
    if ls != [] {
      LineBehind(before, st, ls[0]);
      match ParseLine(st, ls[0])
      case None =>
      case Some(next) => ParseBehind(before, next, ls[1..]);
    }
  }

  lemma LineBehind(before: seq<Paragraph>, st: ParseState, l: string)
    ensures ParseLine(Behind(before, st), l) ==
            match ParseLine(st, l) case None => None case Some(next) => Some(Behind(before, next))
  {
    hide AddTo, TrimSpace;
    assert before + (st.finished + [st.current]) == before + st.finished + [st.current];
  }

  /** A paragraph without fields has no field to continue. */
  lemma {:induction false} NoFieldNoValue(st: ParseState, ls: seq<string>)
    requires st.current == map[] ==> st.field == ""
    ensures ParseLines(st, ls).Some? ==>
              (ParseLines(st, ls).value.current == map[] ==> ParseLines(st, ls).value.field == "")
    decreases |ls|
  {
    hide TrimSpace;
    if ls != [] && ParseLine(st, ls[0]).Some? {
      NoFieldNoValue(ParseLine(st, ls[0]).value, ls[1..]);
    }
  }

  /** Theorem: an empty line separates. What comes before and after it is parsed on its
    * own, and a last paragraph without fields is dropped before it. */
  lemma EmptyLineSeparates(s: string, t: string)
    requires WholeLines(s)
    ensures Parse(s).None? || Parse(t).None? ==> Parse(s + ("\n" + t)) == None
    ensures Parse(s).Some? && Parse(t).Some? ==>
              var a, b := Parse(s).value, Parse(t).value;
              a != [] && Parse(s + ("\n" + t)) == Some((if a[|a| - 1] == map[] then a[..|a| - 1] else a) + b)
  {
    hide ParseLines, Lines;
    ParseMore(s, "\n" + t);
    NoFieldNoValue(START, Lines(s));
    if ParseLines(START, Lines(s)).Some? {
      var st := ParseLines(START, Lines(s)).value;
      assert "" + "\n" + t == "\n" + t;
      ParseOneMore(st, "", t);
      var before := if st.current == map[] then st.finished else st.finished + [st.current];
      assert ParseLine(st, "") == Some(Behind(before, START)) by {
        assert before + [] == before;
      }
      ParseBehind(before, START, Lines(t));
      assert st.Data()[..|st.finished|] == st.finished;
      if ParseLines(START, Lines(t)).Some? {
        var end := ParseLines(START, Lines(t)).value;
        assert Behind(before, end).Data() == before + end.Data();
      }
    }
  }

  /** A second empty line changes nothing, nor does one at the start. */
  lemma EmptyLineAgain(s: string, t: string)
    requires WholeLines(s)
    ensures Parse(s + ("\n" + ("\n" + t))) == Parse(s + ("\n" + t))
    ensures Parse("\n" + t) == Parse(t)
  {
    hide Parse;
    NothingParsed();
    EmptyLineSeparates("", t);
    assert "" + ("\n" + t) == "\n" + t;
    if Parse(t).Some? {
      assert [] + Parse(t).value == Parse(t).value;
    }
    EmptyLineSeparates(s, t);
    EmptyLineSeparates(s, "\n" + t);
  }

  lemma NothingParsed()
    ensures Parse("") == Some([map[]])
  {
    assert START.Data() == [map[]];
  }

  // -------------------------------------------------------------------- fields

  function Trimmed(cs: seq<string>): seq<string> {
    seq(|cs|, i requires 0 <= i < |cs| => TrimSpace(cs[i]))
  }

  lemma {:induction false} ContinuationLines(st: ParseState, cs: seq<string>)
    requires st.field != "" && st.field in st.current
    requires forall c <- cs :: OneLine(c) && Continuation(c)
    ensures ParseLines(st, Lines(Unlines(cs))) ==
            Some(st.(current := st.current[st.field := st.current[st.field] + Trimmed(cs)]))
    decreases |cs|
  {
    hide Lines, TrimSpace, DropCR;
    NoLines();
    if cs == [] {
      assert st.current[st.field] + [] == st.current[st.field];
      assert st.current[st.field := st.current[st.field]] == st.current;
    } else {
      assert cs[0] in cs;
      ParseOneMore(st, cs[0], Unlines(cs[1..]));
      ContinuationLine(st, cs[0]);
      ContinuationLines(st.(current := AddTo(st.current, st.field, TrimSpace(cs[0]))), cs[1..]);
      assert Trimmed(cs) == [TrimSpace(cs[0])] + Trimmed(cs[1..]);
      assert st.current[st.field] + [TrimSpace(cs[0])] + Trimmed(cs[1..]) == st.current[st.field] + Trimmed(cs);
      AddedTwice(st.current, st.field, TrimSpace(cs[0]), st.current[st.field] + Trimmed(cs));
    }
  }

  lemma AddedTwice(p: Paragraph, name: string, val: string, vals: seq<string>)
    ensures AddTo(p, name, val)[name := vals] == p[name := vals]
  {
  }

  /** Theorem: a field adds its value, and that of each line that continues it, to what the
    * last paragraph has under its name; a line before any colon is its name. */
  lemma FieldAddsValues(s: string, name: string, v: string, cs: seq<string>)
    requires WholeLines(s) && OneLine(v)
    requires '\n' !in name && ':' !in name && (name != "" ==> name[0] != ' ' && name[0] != '\t')
    requires name == "" ==> cs == []
    requires forall c <- cs :: '\n' !in c && c != "" && (c[0] == ' ' || c[0] == '\t')
    ensures match Parse(s)
            case None => Parse(s + (name + ":" + v + "\n" + Unlines(cs))) == None
            case Some(a) =>
              && a != []
              && var p := a[|a| - 1];
                 Parse(s + (name + ":" + v + "\n" + Unlines(cs))) ==
                   Some(a[..|a| - 1] + [p[name := (if name in p then p[name] else []) + [TrimSpace(v)] + Trimmed(cs)]])
  {
    hide ParseLine, ParseLines, Lines, TrimSpace, DropCR;
    ParseMore(s, name + ":" + v + "\n" + Unlines(cs));
    if ParseLines(START, Lines(s)).Some? {
      var st := ParseLines(START, Lines(s)).value;
      ParseOneMore(st, name + ":" + v, Unlines(cs));
      HeaderLine(st, name, v);
      var next := ParseState(st.finished, AddTo(st.current, name, TrimSpace(v)), name);
      assert st.Data()[..|st.finished|] == st.finished;
      if name == "" {
        EndOfText(next);
        assert Trimmed(cs) == [];
      } else {
        ContinuationLines(next, cs);
      }
      var was := if name in st.current then st.current[name] else [];
      assert next.current[name] == was + [TrimSpace(v)];
      AddedTwice(st.current, name, TrimSpace(v), was + [TrimSpace(v)] + Trimmed(cs));
      assert next.current[name := next.current[name]] == next.current;
      assert was + [TrimSpace(v)] + [] == was + [TrimSpace(v)];
    }
  }

  lemma EndOfText(st: ParseState)
    ensures ParseLines(st, Lines(Unlines([]))) == Some(st)
  {
  }

  // --------------------------------------------------------------------- refusals

  predicate Header(l: string) {
    l != "" && !Continuation(l)
  }

  /** Before line `i`, with only continuations between, a field with a name was read. */
  predicate ActiveFrom(ls: seq<string>, i: int, j: int) {
    0 <= j < i <= |ls| && Header(ls[j]) && ls[j][0] != ':' && forall m :: j < m < i ==> Continuation(ls[m])
  }

  ghost predicate Active(ls: seq<string>, i: int) {
    exists j :: ActiveFrom(ls, i, j)
  }

  /** Line `i` is not empty and either has no colon, though it starts with neither space nor
    * tab, or starts with one and follows no field with a name but for its continuations. */
  ghost predicate Bad(ls: seq<string>, i: int) {
    && 0 <= i < |ls| && ls[i] != ""
    && if ls[i][0] == ' ' || ls[i][0] == '\t'
       then forall j :: 0 <= j < i && ls[j] != "" && ls[j][0] != ' ' && ls[j][0] != '\t' && ls[j][0] != ':' ==>
              exists m :: j < m < i && (ls[m] == "" || (ls[m][0] != ' ' && ls[m][0] != '\t'))
       else ':' !in ls[i]
  }

  lemma BadMeaning(ls: seq<string>, i: nat)
    requires i < |ls|
    ensures Bad(ls, i) <==> (Header(ls[i]) && ':' !in ls[i]) || (Continuation(ls[i]) && !Active(ls, i))
  {
    if Continuation(ls[i]) {
      if j :| ActiveFrom(ls, i, j) {
        assert forall m :: j < m < i ==> Continuation(ls[m]);
      } else {
        forall j | 0 <= j < i && ls[j] != "" && ls[j][0] != ' ' && ls[j][0] != '\t' && ls[j][0] != ':'
          ensures exists m :: j < m < i && (ls[m] == "" || (ls[m][0] != ' ' && ls[m][0] != '\t'))
        {
          assert !ActiveFrom(ls, i, j);
          var m :| j < m < i && !Continuation(ls[m]);
          assert ls[m] == "" || (ls[m][0] != ' ' && ls[m][0] != '\t');
        }
      }
    }
  }

  lemma ActiveNext(ls: seq<string>, i: nat)
    requires i < |ls|
    ensures Active(ls, i + 1) <==> if Continuation(ls[i]) then Active(ls, i) else Header(ls[i]) && ls[i][0] != ':'
  {
    hide Continuation;
    var n := i + 1;
    if j :| ActiveFrom(ls, n, j) {
      if Continuation(ls[i]) {
        assert ActiveFrom(ls, i, j);
      } else {
        assert j == i;
      }
    }
    if Continuation(ls[i]) {
      if j :| ActiveFrom(ls, i, j) {
        assert ActiveFrom(ls, n, j);
      }
    } else if Header(ls[i]) && ls[i][0] != ':' {
      assert ActiveFrom(ls, n, i);
    }
  }

  /** The state after the first `n` lines, none of them bad. */
  lemma {:induction false} FieldIsActive(ls: seq<string>, n: nat)
    requires n <= |ls| && forall i :: 0 <= i < n ==> !Bad(ls, i)
    ensures ParseLines(START, ls[..n]).Some?
    ensures ParseLines(START, ls[..n]).value.field != "" <==> Active(ls, n)
  {
    hide Active, TrimSpace, ParseLines, AddTo, Bad;
    if n == 0 {
      NothingActive(ls);
    } else {
      FieldIsActive(ls, n - 1);
      ActiveNext(ls, n - 1);
      var st := ParseLines(START, ls[..n - 1]).value;
      NoFieldNoValue(START, ls[..n - 1]);
      assert ls[..n] == ls[..n - 1] + [ls[n - 1]];
      ParseAppend(START, ls[..n - 1], [ls[n - 1]]);
      ParseOne(st, ls[n - 1]);
      BadMeaning(ls, n - 1);
      ColonFound(ls[n - 1]);
    }
  }

  lemma NothingActive(ls: seq<string>)
    ensures !Active(ls, 0) && ParseLines(START, ls[..0]) == Some(START)
  {
  }

  lemma ParseOne(st: ParseState, l: string)
    ensures ParseLines(st, [l]) == ParseLine(st, l)
  {
    hide ParseLine;
    assert [l][1..] == [];
  }

  lemma ColonFound(l: string)
    ensures ':' in l <==> IndexOf(l, ':') < |l|
    ensures l != "" && l[0] == ':' ==> IndexOf(l, ':') == 0
  {
  }

  lemma {:induction false} FirstBad(ls: seq<string>, i: nat) returns (f: nat)
    requires Bad(ls, i)
    ensures Bad(ls, f) && forall j :: 0 <= j < f ==> !Bad(ls, j)
  {
    hide Bad;
    if j :| 0 <= j < i && Bad(ls, j) {
      f := FirstBad(ls, j);
    } else {
      f := i;
    }
  }

  lemma BadFails(ls: seq<string>, i: nat)
    requires Bad(ls, i) && forall j :: 0 <= j < i ==> !Bad(ls, j)
    ensures ParseLines(START, ls) == None
  {
    hide Active, TrimSpace, ParseLines, AddTo, Bad;
    BadInside(ls, i);
    BadMeaning(ls, i);
    FieldIsActive(ls, i);
    assert ls == ls[..i] + ([ls[i]] + ls[i + 1..]);
    ParseAppend(START, ls[..i], [ls[i]] + ls[i + 1..]);
    ParseAppend(ParseLines(START, ls[..i]).value, [ls[i]], ls[i + 1..]);
    ParseOne(ParseLines(START, ls[..i]).value, ls[i]);
    ColonFound(ls[i]);
  }

  /** Theorem: text is refused iff it has a bad line. */
  lemma RefusedIff(t: string)
    ensures Parse(t) == None ==> exists i :: Bad(Lines(t), i)
    ensures (exists i :: Bad(Lines(t), i)) ==> Parse(t) == None
  {
    hide ParseLines, Bad;
    var ls := Lines(t);
    if i :| Bad(ls, i) {
      BadInside(ls, i);
      var f := FirstBad(ls, i);
      BadFails(ls, f);
    } else {
      FieldIsActive(ls, |ls|);
      assert ls[..|ls|] == ls;
    }
  }

  lemma BadInside(ls: seq<string>, i: int)
    requires Bad(ls, i)
    ensures 0 <= i < |ls|
  {
  }
}
