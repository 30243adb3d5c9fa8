/** Debian version numbers and the dpkg comparison (debversion.go).
  * A Go string is a string of bytes; here each `char` stands for one byte. */
module DebVersions {
  datatype DebVersion = DebVersion(epoch: int, version: string, revision: string)

  function Digits(n: nat): string {
    var last := [('0' as int + n % 10) as char];
    if n < 10 then last else Digits(n / 10) + last
  }

  /** strconv.FormatInt in base 10. */
  function FormatInt(n: int): string {
    if n < 0 then "-" + Digits(-n) else Digits(n)
  }

  function ToString(v: DebVersion): string {
    (if v.epoch != 0 then FormatInt(v.epoch) + ":" else "")
    + v.version
    + (if v.revision != "" then "-" + v.revision else "")
  }

  // ---------------------------------------------------------------- characters

  predicate IsDigit(c: char) {
    '0' <= c <= '9'
  }

  /** unicode.IsLetter restricted to the code points of one byte. */
  predicate IsLetter(c: char) {
    || 'A' <= c <= 'Z'
    || 'a' <= c <= 'z'
    || c == '\U{AA}' || c == '\U{B5}' || c == '\U{BA}'
    || '\U{C0}' <= c <= '\U{D6}'
    || '\U{D8}' <= c <= '\U{F6}'
    || '\U{F8}' <= c <= '\U{FF}'
  }

  function CharOrder(c: char): int {
    if IsDigit(c) then 0
    else if IsLetter(c) then c as int
    else if c == '~' then -1
    else if c != '\0' then c as int + 256
    else 0
  }

  /** Every NUL in `s` comes directly after a digit; `p` says if one stands before `s`. */
  predicate NulAfterDigits(s: string, p: bool) {
    s == "" || ((s[0] == '\0' ==> p) && NulAfterDigits(s[1..], IsDigit(s[0])))
  }

  /** A NUL weighs as much as the end of the string and as a digit. Directly after a
    * digit, no digit can be its partner. */
  predicate Regular(s: string) {
    NulAfterDigits(s, false)
  }

  function Sign(x: int): int {
    if x < 0 then -1 else if x > 0 then 1 else 0
  }

  // ------------------------------------------- the comparison as a function

  function Tail(s: string): string {
    if s == "" then "" else s[1..]
  }

  /** The weight of the first character; the end of the string weighs 0. */
  function HeadOrder(s: string): int {
    if s == "" then 0 else CharOrder(s[0])
  }

  predicate StartsWithText(s: string) {
    s != "" && !IsDigit(s[0])
  }

  predicate StartsWithDigit(s: string) {
    s != "" && IsDigit(s[0])
  }

  datatype TextOutcome = Differs(gap: int) | Level(a: string, b: string)

  /** The first inner loop: compare non-digits until both sides show a digit or end. */
  function SkipText(a: string, b: string): (o: TextOutcome)
    ensures o.Differs? ==> o.gap != 0
    ensures o.Level? ==> !StartsWithText(o.a) && !StartsWithText(o.b)
    ensures o.Level? ==> |o.a| <= |a| && |o.b| <= |b|
    ensures o.Level? ==> (o.a == a && o.b == b) || |o.a| + |o.b| < |a| + |b|
    decreases |a| + |b|
  {
    if StartsWithText(a) || StartsWithText(b) then
      if HeadOrder(a) != HeadOrder(b) then Differs(HeadOrder(a) - HeadOrder(b))
      else SkipText(Tail(a), Tail(b))
    else Level(a, b)
  }

  function SkipZeros(s: string): (r: string)
    ensures |r| <= |s|
    ensures r == s || |r| < |s|
    ensures r == "" || r[0] != '0'
  {
    if s != "" && s[0] == '0' then SkipZeros(s[1..]) else s
  }

  /** The lock-step digit loop; `diff` is the first difference seen so far. */
  function SkipDigits(a: string, b: string, diff: int): (r: (string, string, int))
    ensures |r.0| <= |a| && |r.1| <= |b|
    ensures (r.0 == a && r.1 == b) || |r.0| < |a|
    ensures !StartsWithDigit(r.0) || !StartsWithDigit(r.1)
  {
    if StartsWithDigit(a) && StartsWithDigit(b) then
      SkipDigits(a[1..], b[1..], if diff == 0 then a[0] as int - b[0] as int else diff)
    else (a, b, diff)
  }

  function CompareComponent(a: string, b: string): int
    decreases |a| + |b|
  {
    if a == "" && b == "" then 0
    else
      match SkipText(a, b)
      case Differs(d) => d
      case Level(a1, b1) =>
        var (a2, b2, diff) := SkipDigits(SkipZeros(a1), SkipZeros(b1), 0);
        if StartsWithDigit(a2) then 1
        else if StartsWithDigit(b2) then -1
        else if diff != 0 then diff
        else CompareComponent(a2, b2)
  }

  function Compare(a: DebVersion, b: DebVersion): int {
    if a.epoch > b.epoch then 1
    else if a.epoch < b.epoch then -1
    else
      var res := CompareComponent(a.version, b.version);
      if res == 0 then CompareComponent(a.revision, b.revision) else res
  }

  // ------------------------------------- the comparison as the program runs it

  /** What is left of `s` at cursor `i`; a cursor may run past the end. */
  function Rest(s: string, i: nat): (r: string)
    ensures r == "" <==> |s| <= i
    ensures i < |s| ==> r[0] == s[i] && |r| == |s| - i
  {
    if i <= |s| then s[i..] else ""
  }

  lemma RestStep(s: string, i: nat)
    ensures Rest(s, i + 1) == Tail(Rest(s, i))
  {
  }

  lemma HeadOfRest(s: string, i: nat)
    ensures StartsWithText(Rest(s, i)) <==> i < |s| && !IsDigit(s[i])
    ensures HeadOrder(Rest(s, i)) == if i < |s| then CharOrder(s[i]) else 0
  {
  }

  /** One turn of the non-digit loop. */
  lemma TextStep(a: string, b: string, i: nat, j: nat)
    ensures var x, y := Rest(a, i), Rest(b, j);
            SkipText(x, y) ==
            if !StartsWithText(x) && !StartsWithText(y) then Level(x, y)
            else if HeadOrder(x) != HeadOrder(y) then Differs(HeadOrder(x) - HeadOrder(y))
            else SkipText(Rest(a, i + 1), Rest(b, j + 1))
  {
  }

  lemma DigitStep(a: string, b: string, i: nat, j: nat, diff: int)
    requires StartsWithDigit(Rest(a, i)) && StartsWithDigit(Rest(b, j))
    ensures SkipDigits(Rest(a, i), Rest(b, j), diff) ==
            SkipDigits(Rest(a, i + 1), Rest(b, j + 1), if diff == 0 then a[i] as int - b[j] as int else diff)
  {
  }

  /** The non-digit loop. A nonzero `gap` is the difference it returns at once. */
  method TextLoop(a: string, b: string, i0: nat, j0: nat) returns (i: nat, j: nat, gap: int)
    ensures SkipText(Rest(a, i0), Rest(b, j0)) ==
            if gap != 0 then Differs(gap) else Level(Rest(a, i), Rest(b, j))
  {
    hide SkipText, CharOrder, IsDigit, StartsWithText, HeadOrder, Rest;
    i, j, gap := i0, j0, 0;
    while (i < |a| && !IsDigit(a[i])) || (j < |b| && !IsDigit(b[j]))
      invariant SkipText(Rest(a, i0), Rest(b, j0)) == SkipText(Rest(a, i), Rest(b, j))
      decreases |Rest(a, i)| + |Rest(b, j)|
    {
      HeadOfRest(a, i);
      HeadOfRest(b, j);
      var ac := if i < |a| then CharOrder(a[i]) else 0;
      var bc := if j < |b| then CharOrder(b[j]) else 0;
      TextStep(a, b, i, j);
      if ac != bc {
        return i, j, ac - bc;
      }
      i, j := i + 1, j + 1;
    }
    HeadOfRest(a, i);
    HeadOfRest(b, j);
    TextStep(a, b, i, j);
  }

  method ZeroLoop(s: string, i0: nat) returns (i: nat)
    ensures Rest(s, i) == SkipZeros(Rest(s, i0))
  {
    i := i0;
    while i < |s| && s[i] == '0'
      invariant SkipZeros(Rest(s, i0)) == SkipZeros(Rest(s, i))
      decreases |s| - i
    {
      RestStep(s, i);
      i := i + 1;
    }
  }

  method DigitLoop(a: string, b: string, i0: nat, j0: nat) returns (i: nat, j: nat, firstdiff: int)
    ensures SkipDigits(Rest(a, i0), Rest(b, j0), 0) == (Rest(a, i), Rest(b, j), firstdiff)
  {
    i, j, firstdiff := i0, j0, 0;
    while i < |a| && IsDigit(a[i]) && j < |b| && IsDigit(b[j])
      invariant SkipDigits(Rest(a, i0), Rest(b, j0), 0) == SkipDigits(Rest(a, i), Rest(b, j), firstdiff)
      decreases |a| - i
    {
      assert StartsWithDigit(Rest(a, i)) && StartsWithDigit(Rest(b, j));
      DigitStep(a, b, i, j, firstdiff);
      firstdiff := if firstdiff == 0 then a[i] as int - b[j] as int else firstdiff;
      i, j := i + 1, j + 1;
    }
  }

  /** The outer loop; its inner loops are the three methods above. */
  method CompareComponentLoop(a: string, b: string) returns (res: int)
    ensures res == CompareComponent(a, b)
  {
    var i: nat, j: nat := 0, 0;
    while i < |a| || j < |b|
      invariant CompareComponent(a, b) == CompareComponent(Rest(a, i), Rest(b, j))
      decreases |Rest(a, i)| + |Rest(b, j)|
    {
      var gap, firstdiff;
      i, j, gap := TextLoop(a, b, i, j);
      if gap != 0 {
        return gap;
      }
      i := ZeroLoop(a, i);
      j := ZeroLoop(b, j);
      i, j, firstdiff := DigitLoop(a, b, i, j);
      if i < |a| && IsDigit(a[i]) {
        return 1;
      }
      if j < |b| && IsDigit(b[j]) {
        return -1;
      }
      if firstdiff != 0 {
        return firstdiff;
      }
    }
    return 0;
  }
}
