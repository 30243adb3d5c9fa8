/** Writing a version and reading it back (DebVersion.String and ParseDebVersion
  * in debversion.go). */
module VersionText {
  import opened Basics
  import opened DebVersions
  import opened Control

  const MAX_INT64 := 0x7fff_ffff_ffff_ffff

  predicate IsInt64(n: int) {
    -MAX_INT64 - 1 <= n <= MAX_INT64
  }

  predicate AllDigits(s: string) {
    forall i :: 0 <= i < |s| ==> IsDigit(s[i])
  }

  function Decimal(s: string): nat
    requires AllDigits(s)
  {
    if s == "" then 0 else 10 * Decimal(s[..|s| - 1]) + (s[|s| - 1] as int - '0' as int)
  }

  /** strconv.ParseInt in base 10 with 64 bits. */
  function ParseInt(s: string): Option<int> {
    var body := if s != "" && (s[0] == '-' || s[0] == '+') then s[1..] else s;
    if body == "" || !AllDigits(body) then None
    else
      var size: int := Decimal(body);
      var n := if s[0] == '-' then -size else size;
      if IsInt64(n) then Some(n) else None
  }

  /** Where `c` last stands in `s`; -1 if nowhere. */
  function LastIndexOf(s: string, c: char): (k: int)
    ensures -1 <= k < |s|
    ensures k >= 0 ==> s[k] == c
    ensures forall i :: k < i < |s| ==> s[i] != c
  {
    if s == "" then -1 else if s[|s| - 1] == c then |s| - 1 else LastIndexOf(s[..|s| - 1], c)
  }

  /** What stands before and after the last dash. */
  function SplitRevision(s: string): (string, string) {
    var k := LastIndexOf(s, '-');
    if k >= 0 then (s[..k], s[k + 1..]) else (s, "")
  }

  function ParseDebVersion(str: string): Option<DebVersion> {
    var k := IndexOf(str, ':');
    if k < |str| then
      match ParseInt(str[..k])
      case None => None
      case Some(epoch) =>
        var (version, revision) := SplitRevision(str[k + 1..]);
        Some(DebVersion(epoch, version, revision))
    else
      var (version, revision) := SplitRevision(str);
      Some(DebVersion(0, version, revision))
  }

  // -------------------------------------------------------------------- numbers

  lemma {:induction false} DigitsRead(n: nat)
    ensures Digits(n) != "" && AllDigits(Digits(n)) && Decimal(Digits(n)) == n
  {
    var last := ('0' as int + n % 10) as char;
    if n < 10 {
      assert Digits(n) == [last];
      assert [last][..0] == "";
    } else {
      DigitsRead(n / 10);
      assert Digits(n)[..|Digits(n)| - 1] == Digits(n / 10);
    }
  }

  lemma NatRead(n: nat)
    requires IsInt64(n)
    ensures ParseInt(Digits(n)) == Some(n)
    ensures ':' !in Digits(n)
  {
    hide Digits, Decimal;
    DigitsRead(n);
    assert IsDigit(Digits(n)[0]);
  }

  lemma NegativeRead(s: string)
    requires s != "" && AllDigits(s) && IsInt64(-(Decimal(s) as int))
    ensures ParseInt("-" + s) == Some(-(Decimal(s) as int))
  {
    hide Decimal;
    assert ("-" + s)[1..] == s;
  }

  lemma IntRead(n: int)
    requires IsInt64(n)
    ensures ParseInt(FormatInt(n)) == Some(n)
    ensures ':' !in FormatInt(n)
  {
    hide Digits, Decimal, ParseInt;
    if n < 0 {
      DigitsRead(-n);
      NegativeRead(Digits(-n));
    } else {
      NatRead(n);
    }
  }

  // ------------------------------------------------------------------- round trip

  function Body(v: DebVersion): string {
    v.version + (if v.revision != "" then "-" + v.revision else "")
  }

  lemma LastIsLast(s: string, c: char, k: int)
    requires -1 <= k < |s| && (k >= 0 ==> s[k] == c) && forall i :: k < i < |s| ==> s[i] != c
    ensures LastIndexOf(s, c) == k
  {
  }

  /** The dash is found again iff it is the last one, or there is none to find. */
  lemma SplitOfBody(v: DebVersion)
    ensures SplitRevision(Body(v)) == (v.version, v.revision) <==>
            '-' !in v.revision && (v.revision == "" ==> '-' !in v.version)
  {
    hide LastIndexOf;
    var s, n := Body(v), |v.version|;
    if v.revision == "" {
      assert s == v.version;
      if '-' !in v.version {
        LastIsLast(s, '-', -1);
      }
    } else {
      assert s == v.version + ("-" + v.revision);
      assert s[n] == '-' && s[n + 1..] == v.revision && s[..n] == v.version;
      if '-' !in v.revision {
        assert forall i :: n < i < |s| ==> s[i] == v.revision[i - n - 1];
        LastIsLast(s, '-', n);
      } else {
        var j :| 0 <= j < |v.revision| && v.revision[j] == '-';
        assert s[n + 1 + j] == '-';
      }
    }
  }

  lemma SplitLength(s: string)
    ensures var (version, revision) := SplitRevision(s);
            |s| >= |version| + |revision| && (revision != "" ==> |s| == |version| + 1 + |revision|)
  {
  }

  /** The condition under which a version survives being written and read. */
  predicate Rereadable(v: DebVersion) {
    && (v.epoch == 0 ==> ':' !in v.version && ':' !in v.revision)
    && '-' !in v.revision
    && (v.revision == "" ==> '-' !in v.version)
  }

  lemma ReadWithEpoch(v: DebVersion)
    requires IsInt64(v.epoch) && v.epoch != 0
    ensures ParseDebVersion(ToString(v)) ==
            var (version, revision) := SplitRevision(Body(v)); Some(DebVersion(v.epoch, version, revision))
  {
    hide ParseInt, FormatInt, SplitRevision;
    var str, body, e := ToString(v), Body(v), FormatInt(v.epoch);
    IntRead(v.epoch);
    assert str == e + ":" + body;
    assert str[|e|] == ':' && forall i :: 0 <= i < |e| ==> str[i] == e[i];
    assert IndexOf(str, ':') == |e|;
    assert str[..|e|] == e && str[|e| + 1..] == body;
  }

  lemma ReadWithoutEpoch(v: DebVersion)
    requires v.epoch == 0
    ensures ':' in Body(v) ==> ParseDebVersion(ToString(v)) != Some(v)
    ensures ':' !in Body(v) ==>
              ParseDebVersion(ToString(v)) == var (version, revision) := SplitRevision(Body(v)); Some(DebVersion(0, version, revision))
  {
    hide ParseInt, SplitRevision;
    var str := ToString(v);
    assert str == Body(v);
    var k := IndexOf(str, ':');
    if k < |str| {
      SplitLength(str[k + 1..]);
    } else {
      assert ':' !in Body(v);
    }
  }

  /** Theorem: reading back what String writes gives the version, iff a version without
    * epoch has no colon, the revision no dash, and a version without revision no dash. */
  lemma ParseOfString(v: DebVersion)
    requires IsInt64(v.epoch)
    ensures ParseDebVersion(ToString(v)) == Some(v) <==> Rereadable(v)
  {
    hide ParseDebVersion, ToString, SplitRevision;
    SplitOfBody(v);
    assert ':' in Body(v) <==> ':' in v.version || ':' in v.revision;
    if v.epoch != 0 {
      ReadWithEpoch(v);
    } else {
      ReadWithoutEpoch(v);
    }
  }

  // -------------------------------------------------------------- reading any text

  /** Digits, with or without a sign, are read if they fit into 64 bits; nothing else is. */
  lemma SignedDigits(d: string)
    requires d != "" && forall i :: 0 <= i < |d| ==> '0' <= d[i] <= '9'
    ensures ParseInt(d) == ParseInt("+" + d) == if Decimal(d) <= 0x7fff_ffff_ffff_ffff then Some(Decimal(d) as int) else None
    ensures ParseInt("-" + d) == if Decimal(d) <= 0x8000_0000_0000_0000 then Some(-(Decimal(d) as int)) else None
  {
    hide Decimal, ParseInt;
    assert AllDigits(d);
    UnsignedRead(d);
    SignedRead('+', d);
    SignedRead('-', d);
  }

  lemma UnsignedRead(d: string)
    requires AllDigits(d) && d != ""
    ensures ParseInt(d) == if IsInt64(Decimal(d)) then Some(Decimal(d) as int) else None
  {
    hide Decimal, IsInt64;
    assert IsDigit(d[0]);
  }

  lemma SignedRead(sign: char, d: string)
    requires AllDigits(d) && d != "" && (sign == '+' || sign == '-')
    ensures var n: int := if sign == '-' then -(Decimal(d) as int) else Decimal(d);
            ParseInt([sign] + d) == if IsInt64(n) then Some(n) else None
  {
    hide Decimal, IsInt64, AllDigits;
    assert ([sign] + d)[1..] == d;
  }

  lemma OnlyDigitsAreRead(s: string)
    requires ParseInt(s).Some?
    ensures s != "" && var body := if s[0] == '+' || s[0] == '-' then s[1..] else s;
                       body != "" && forall i :: 0 <= i < |body| ==> '0' <= body[i] <= '9'
  {
    var body := if s[0] == '+' || s[0] == '-' then s[1..] else s;
    assert AllDigits(body);
  }

  /** Theorem: the epoch stands before the first colon, and is 0 without one; the revision
    * stands behind the last dash of what is left, and is empty without one. */
  lemma ParseOfText(e: string, version: string, revision: string)
    requires ':' !in e && '-' !in revision
    ensures match ParseInt(e)
            case None =>
              ParseDebVersion(e + ":" + version) == None
            case Some(n) =>
              && ParseDebVersion(e + ":" + (version + "-" + revision)) == Some(DebVersion(n, version, revision))
              && ParseDebVersion(e + ":" + revision) == Some(DebVersion(n, revision, ""))
    ensures ':' !in version && ':' !in revision ==>
              && ParseDebVersion(version + "-" + revision) == Some(DebVersion(0, version, revision))
              && ParseDebVersion(revision) == Some(DebVersion(0, revision, ""))
  {
    hide ParseInt, LastIndexOf, IndexOf;
    var s := version + "-" + revision;
    LastIsLast(s, '-', |version|);
    LastIsLast(revision, '-', -1);
    assert s[..|version|] == version && s[|version| + 1..] == revision;
    AfterFirst(e, version);
    AfterFirst(e, s);
    AfterFirst(e, revision);
    if ':' !in version && ':' !in revision {
      NoneToFind(s);
      NoneToFind(revision);
    }
  }

  lemma AfterFirst(e: string, s: string)
    requires ':' !in e
    ensures var str := e + ":" + s; IndexOf(str, ':') == |e| < |str| && str[..|e|] == e && str[|e| + 1..] == s
  {
    var str := e + ":" + s;
    assert forall i :: 0 <= i < |e| ==> str[i] == e[i];
    assert str[|e|] == ':';
  }

  lemma NoneToFind(s: string)
    requires ':' !in s
    ensures IndexOf(s, ':') == |s|
  {
  }
}
