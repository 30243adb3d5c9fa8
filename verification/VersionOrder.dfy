/** What the comparison of debversion.go means: section 5.6.12 of the Debian
  * Policy Manual as an order on keys, and the proof that the program agrees. */
module VersionOrder {
  import opened DebVersions

  // ----------------------------------------------------------------- weights

  /** Section 5.6.12: a tilde before anything, even the end (which weighs 0); then the
    * letters; then everything else; each by its code. */
  lemma WeightsFollowPolicy(c: char, d: char)
    requires !IsDigit(c) && !IsDigit(d) && '\0' < c < '\U{100}' && '\0' < d < '\U{100}'
    ensures CharOrder(c) != 0 && (CharOrder(c) < 0 <==> c == '~')
    ensures CharOrder(c) < CharOrder(d) <==>
              if c == '~' || d == '~' then c == '~' && d != '~'
              else if IsLetter(c) == IsLetter(d) then c < d
              else IsLetter(c)
  {
  }

  /** The same on ASCII, with the letters and digits written out. */
  lemma AsciiWeights(c: char, d: char)
    requires '\0' < c < '\U{80}' && '\0' < d < '\U{80}' && !('0' <= c <= '9') && !('0' <= d <= '9')
    ensures (CharOrder(c) < 0 <==> c == '~') && CharOrder(c) != 0
    ensures var letter, other := 'A' <= c <= 'Z' || 'a' <= c <= 'z', 'A' <= d <= 'Z' || 'a' <= d <= 'z';
            CharOrder(c) < CharOrder(d) <==> d != '~' && (c == '~' || (letter && !other) || (letter == other && c < d))
  {
  }

  // -------------------------------------------------------------------- keys

  function Pow10(n: nat): (p: nat)
    ensures p > 0
  {
    if n == 0 then 1 else 10 * Pow10(n - 1)
  }

  /** How many digits `s` starts with. */
  function DigitRun(s: string): (n: nat)
    ensures n <= |s|
    ensures StartsWithDigit(s) <==> n > 0
  {
    if StartsWithDigit(s) then 1 + DigitRun(s[1..]) else 0
  }

  /** The natural number denoted by the digits `s` starts with; 0 for none. */
  function Number(s: string): nat {
    if StartsWithDigit(s) then
      (s[0] as int - '0' as int) * Pow10(DigitRun(s) - 1) + Number(s[1..])
    else 0
  }

  function AfterDigits(s: string): string {
    s[DigitRun(s)..]
  }

  /** The key of a version string: the weights of its non-digits in order, and
    * for every run of digits a 0, which ends the text before it, and the number. */
  function Key(s: string): seq<int>
    decreases |s|
  {
    if s == "" then []
    else if IsDigit(s[0]) then [0, Number(s)] + Key(AfterDigits(s))
    else [CharOrder(s[0])] + Key(s[1..])
  }

  /** A key goes on forever: past its end there is empty text and the number 0. */
  function KeyAt(k: seq<int>, n: nat): int {
    if n < |k| then k[n] else 0
  }

  ghost predicate AgreeBelow(x: seq<int>, y: seq<int>, n: nat) {
    forall m: nat :: m < n ==> KeyAt(x, m) == KeyAt(y, m)
  }

  /** `x` is smaller at the first place where the keys differ. */
  ghost predicate KeyLess(x: seq<int>, y: seq<int>) {
    exists n: nat :: AgreeBelow(x, y, n) && KeyAt(x, n) < KeyAt(y, n)
  }

  ghost predicate KeySame(x: seq<int>, y: seq<int>) {
    forall n: nat :: KeyAt(x, n) == KeyAt(y, n)
  }

  // ---------------------------------------------- the order on keys, computed

  function KeyTail(k: seq<int>): seq<int> {
    if k == [] then [] else k[1..]
  }

  function CompareKeys(x: seq<int>, y: seq<int>): int
    decreases |x| + |y|
  {
    if x == [] && y == [] then 0
    else if KeyAt(x, 0) != KeyAt(y, 0) then KeyAt(x, 0) - KeyAt(y, 0)
    else CompareKeys(KeyTail(x), KeyTail(y))
  }

  lemma {:induction false} CompareKeysMeaning(x: seq<int>, y: seq<int>)
    ensures CompareKeys(x, y) < 0 ==> KeyLess(x, y)
    ensures CompareKeys(x, y) == 0 ==> KeySame(x, y)
    ensures CompareKeys(x, y) > 0 ==> KeyLess(y, x)
    decreases |x| + |y|
  {
    if x == [] && y == [] {
    } else if KeyAt(x, 0) != KeyAt(y, 0) {
      assert AgreeBelow(x, y, 0) && AgreeBelow(y, x, 0);
    } else {
      var x', y' := KeyTail(x), KeyTail(y);
      CompareKeysMeaning(x', y');
      assert forall n: nat :: n > 0 ==> KeyAt(x, n) == KeyAt(x', n - 1) && KeyAt(y, n) == KeyAt(y', n - 1);
      if CompareKeys(x', y') < 0 {
        var n: nat :| AgreeBelow(x', y', n) && KeyAt(x', n) < KeyAt(y', n);
        assert AgreeBelow(x, y, n + 1);
        assert KeyAt(x, n + 1) < KeyAt(y, n + 1);
      } else if CompareKeys(x', y') > 0 {
        var n: nat :| AgreeBelow(y', x', n) && KeyAt(y', n) < KeyAt(x', n);
        assert AgreeBelow(y, x, n + 1);
        assert KeyAt(y, n + 1) < KeyAt(x, n + 1);
      }
    }
  }

  /** Of less, same and greater exactly one holds. */
  lemma KeyTrichotomy(x: seq<int>, y: seq<int>)
    ensures KeyLess(x, y) || KeySame(x, y) || KeyLess(y, x)
    ensures !(KeyLess(x, y) && KeySame(x, y)) && !(KeyLess(y, x) && KeySame(x, y))
    ensures !(KeyLess(x, y) && KeyLess(y, x))
  {
    CompareKeysMeaning(x, y);
  }

  lemma KeyTransitive(x: seq<int>, y: seq<int>, z: seq<int>)
    requires !KeyLess(y, x) && !KeyLess(z, y)
    ensures !KeyLess(z, x)
    ensures KeySame(x, z) <==> KeySame(x, y) && KeySame(y, z)
  {
    KeyTrichotomy(x, y);
    KeyTrichotomy(y, z);
    KeyTrichotomy(x, z);
    if KeyLess(x, y) && KeyLess(y, z) {
      var m: nat :| AgreeBelow(x, y, m) && KeyAt(x, m) < KeyAt(y, m);
      var n: nat :| AgreeBelow(y, z, n) && KeyAt(y, n) < KeyAt(z, n);
      var k := if m < n then m else n;
      assert AgreeBelow(x, z, k);
      assert KeyAt(x, k) < KeyAt(z, k);
      assert KeyLess(x, z);
    } else if KeyLess(x, y) {
      var m: nat :| AgreeBelow(x, y, m) && KeyAt(x, m) < KeyAt(y, m);
      assert AgreeBelow(x, z, m);
      assert KeyAt(x, m) < KeyAt(z, m);
      assert KeyLess(x, z);
    } else if KeyLess(y, z) {
      var n: nat :| AgreeBelow(y, z, n) && KeyAt(y, n) < KeyAt(z, n);
      assert AgreeBelow(x, z, n);
      assert KeyAt(x, n) < KeyAt(z, n);
      assert KeyLess(x, z);
    }
  }

  // ------------------------------------------------------------- digit runs

  lemma DigitBounds(d: nat, p: nat)
    requires d <= 9
    ensures d * p + p <= 10 * p
    ensures d > 0 ==> d * p >= p
  {
  }

  lemma {:induction false} NumberBound(s: string)
    ensures Number(s) < Pow10(DigitRun(s))
  {
    if StartsWithDigit(s) {
      NumberBound(s[1..]);
      DigitBounds(s[0] as int - '0' as int, Pow10(DigitRun(s) - 1));
    }
  }

  lemma {:induction false} Pow10Monotone(m: nat, n: nat)
    requires m <= n
    ensures Pow10(m) <= Pow10(n)
  {
    if m < n {
      Pow10Monotone(m, n - 1);
    }
  }

  /** A run without leading zero is bigger than every shorter run. */
  lemma LongerRunIsBigger(a: string, b: string)
    requires a != "" && a[0] != '0' && DigitRun(a) > DigitRun(b)
    ensures Number(a) > Number(b)
  {
    NumberBound(b);
    Pow10Monotone(DigitRun(b), DigitRun(a) - 1);
    DigitBounds(a[0] as int - '0' as int, Pow10(DigitRun(a) - 1));
  }

  lemma {:induction false} ZerosCountNothing(s: string)
    ensures Number(SkipZeros(s)) == Number(s)
    ensures AfterDigits(SkipZeros(s)) == AfterDigits(s)
  {
    if s != "" && s[0] == '0' {
      ZerosCountNothing(s[1..]);
      assert Number(s) == 0 * Pow10(DigitRun(s) - 1) + Number(s[1..]);
    }
  }

  /** The digit loop eats the common length of the two runs. */
  lemma {:induction false} DigitsEaten(a: string, b: string, diff: int)
    ensures var n := if DigitRun(a) < DigitRun(b) then DigitRun(a) else DigitRun(b);
            var r := SkipDigits(a, b, diff);
            r.0 == a[n..] && r.1 == b[n..] && (diff != 0 ==> r.2 == diff)
  {
    if StartsWithDigit(a) && StartsWithDigit(b) {
      DigitsEaten(a[1..], b[1..], if diff == 0 then a[0] as int - b[0] as int else diff);
    }
  }

  lemma {:induction false} RunAfter(s: string, n: nat)
    requires n <= DigitRun(s)
    ensures DigitRun(s[n..]) == DigitRun(s) - n
  {
    if n == 0 {
      assert s[n..] == s;
    } else {
      RunAfter(s[1..], n - 1);
      assert s[n..] == s[1..][n - 1..];
    }
  }

  lemma LeadingDigitDecides(d: nat, e: nat, p: nat, x: nat, y: nat)
    requires d > e && y < p
    ensures d * p + x > e * p + y
  {
    assert d * p >= (e + 1) * p == e * p + p;
  }

  /** For runs of one length the first difference decides. */
  lemma {:induction false} EqualRuns(a: string, b: string)
    requires DigitRun(a) == DigitRun(b)
    ensures Sign(SkipDigits(a, b, 0).2) == Sign(Number(a) - Number(b))
  {
    if StartsWithDigit(a) {
      var p := Pow10(DigitRun(a) - 1);
      var d, e := a[0] as int - '0' as int, b[0] as int - '0' as int;
      DigitsEaten(a[1..], b[1..], d - e);
      NumberBound(a[1..]);
      NumberBound(b[1..]);
      if d == e {
        EqualRuns(a[1..], b[1..]);
      } else if d > e {
        LeadingDigitDecides(d, e, p, Number(a[1..]), Number(b[1..]));
      } else {
        LeadingDigitDecides(e, d, p, Number(b[1..]), Number(a[1..]));
      }
    }
  }

  /** The sign the zero-skipping and digit loops return for two strings at a digit
    * or their end: more digits left, else the first difference. */
  function DigitVerdict(a: string, b: string): int {
    var (x, y, diff) := SkipDigits(SkipZeros(a), SkipZeros(b), 0);
    if StartsWithDigit(x) then 1 else if StartsWithDigit(y) then -1 else diff
  }

  /** Where the lock-step loop stops, only the longer run has digits left. */
  lemma RunsLeft(x: string, y: string)
    ensures var (r, q, _) := SkipDigits(x, y, 0);
            && (StartsWithDigit(r) <==> DigitRun(x) > DigitRun(y))
            && (StartsWithDigit(q) <==> DigitRun(y) > DigitRun(x))
            && (DigitRun(x) == DigitRun(y) ==> r == AfterDigits(x) && q == AfterDigits(y))
  {
    hide SkipDigits, DigitRun;
    DigitsEaten(x, y, 0);
    var n := if DigitRun(x) < DigitRun(y) then DigitRun(x) else DigitRun(y);
    RunAfter(x, n);
    RunAfter(y, n);
  }

  /** Digit runs of any length compare as the numbers they denote. */
  lemma DigitsCompareAsNumbers(a: string, b: string)
    ensures Sign(DigitVerdict(a, b)) == Sign(Number(a) - Number(b))
    ensures DigitVerdict(a, b) == 0 ==>
              SkipDigits(SkipZeros(a), SkipZeros(b), 0) == (AfterDigits(a), AfterDigits(b), 0)
  {
    hide SkipDigits, SkipZeros, DigitRun, AfterDigits, Number;
    var x, y := SkipZeros(a), SkipZeros(b);
    ZerosCountNothing(a);
    ZerosCountNothing(b);
    RunsLeft(x, y);
    if DigitRun(x) > DigitRun(y) {
      LongerRunIsBigger(x, y);
    } else if DigitRun(x) < DigitRun(y) {
      LongerRunIsBigger(y, x);
    } else {
      EqualRuns(x, y);
    }
  }

  // ------------------------------------------------- the program meets the keys

  /** No digit faces a NUL, now or after what these strings start with. */
  predicate Facing(a: string, b: string) {
    && NulAfterDigits(a, true) && NulAfterDigits(b, true)
    && (a != "" && b != "" && a[0] == '\0' ==> !IsDigit(b[0]))
    && (a != "" && b != "" && b[0] == '\0' ==> !IsDigit(a[0]))
  }

  lemma FacingAfterText(a: string, b: string)
    requires Facing(a, b) && (StartsWithText(a) || StartsWithText(b)) && HeadOrder(a) == HeadOrder(b)
    ensures Facing(Tail(a), Tail(b))
    ensures !StartsWithDigit(a) && !StartsWithDigit(b)
  {
    NoNulFirst(Tail(a));
    NoNulFirst(Tail(b));
  }

  lemma NoNulFirst(s: string)
    ensures NulAfterDigits(s, false) <==> NulAfterDigits(s, true) && (s == "" || s[0] != '\0')
  {
  }

  lemma FacingAfterDigits(a: string, b: string)
    requires NulAfterDigits(a, true) && NulAfterDigits(b, true)
    ensures Facing(AfterDigits(a), AfterDigits(b))
  {
    RunAfter(a, DigitRun(a));
    RunAfter(b, DigitRun(b));
    NulBehindDigits(a, true);
    NulBehindDigits(b, true);
  }

  lemma {:induction false} NulBehindDigits(s: string, p: bool)
    ensures NulAfterDigits(s, p) ==> NulAfterDigits(AfterDigits(s), true)
    ensures StartsWithDigit(s) && NulAfterDigits(AfterDigits(s), true) ==> NulAfterDigits(s, p)
  {
    if StartsWithDigit(s) {
      assert AfterDigits(s) == AfterDigits(s[1..]);
      if !StartsWithDigit(s[1..]) {
        assert AfterDigits(s[1..]) == s[1..];
      }
      NulBehindDigits(s[1..], true);
    }
  }

  lemma {:induction false} TextCompare(a: string, b: string)
    requires Facing(a, b)
    ensures var o := SkipText(a, b);
            match o
            case Differs(d) => CompareKeys(Key(a), Key(b)) == d
            case Level(a', b') => CompareKeys(Key(a), Key(b)) == CompareKeys(Key(a'), Key(b')) && Facing(a', b')
    decreases |a| + |b|
  {
    hide Facing, CharOrder;
    if StartsWithText(a) || StartsWithText(b) {
      KeyOfText(a);
      KeyOfText(b);
      if HeadOrder(a) == HeadOrder(b) {
        FacingAfterText(a, b);
        TextCompare(Tail(a), Tail(b));
      }
    }
  }

  lemma KeyOfText(s: string)
    ensures StartsWithText(s) ==> Key(s) == [HeadOrder(s)] + Key(Tail(s))
    ensures KeyAt(Key(s), 0) == HeadOrder(s)
    ensures !StartsWithDigit(s) ==> KeyTail(Key(s)) == Key(Tail(s))
  {
  }

  /** Theorem: the cursor loops order regular strings by first difference of keys. */
  lemma {:induction false} ComponentMeetsKeys(a: string, b: string)
    requires Facing(a, b)
    ensures Sign(CompareComponent(a, b)) == Sign(CompareKeys(Key(a), Key(b)))
    decreases |a| + |b|
  {
    hide SkipText, SkipZeros, SkipDigits, Key, CompareKeys, Number, DigitRun, AfterDigits, Facing, NulAfterDigits;
    if a == "" && b == "" {
      EmptyKeys();
    } else {
      TextCompare(a, b);
      match SkipText(a, b)
      case Differs(_) =>
      case Level(a1, b1) =>
        DigitsCompareAsNumbers(a1, b1);
        NumberPart(a1, b1);
        if DigitVerdict(a1, b1) == 0 {
          FacingIsAfter(a1, b1);
          FacingAfterDigits(a1, b1);
          ComponentMeetsKeys(AfterDigits(a1), AfterDigits(b1));
        }
    }
  }

  lemma FacingIsAfter(a: string, b: string)
    requires Facing(a, b)
    ensures NulAfterDigits(a, true) && NulAfterDigits(b, true)
  {
  }

  lemma EmptyKeys()
    ensures CompareKeys(Key(""), Key("")) == 0
  {
  }

  /** At a digit or the end, keys compare by number and then by what follows. */
  lemma NumberPart(a: string, b: string)
    requires !StartsWithText(a) && !StartsWithText(b)
    ensures CompareKeys(Key(a), Key(b)) ==
            if Number(a) != Number(b) then Number(a) - Number(b)
            else CompareKeys(Key(AfterDigits(a)), Key(AfterDigits(b)))
  {
  }

  /** Theorem: for regular strings the comparison answers exactly which key is smaller,
    * or that they agree. */
  lemma ComparisonIsKeyOrder(a: string, b: string)
    requires Regular(a) && Regular(b)
    ensures CompareComponent(a, b) < 0 <==> KeyLess(Key(a), Key(b))
    ensures CompareComponent(a, b) == 0 <==> KeySame(Key(a), Key(b))
    ensures CompareComponent(a, b) > 0 <==> KeyLess(Key(b), Key(a))
  {
    NoNulFirst(a);
    NoNulFirst(b);
    ComponentMeetsKeys(a, b);
    CompareKeysMeaning(Key(a), Key(b));
    KeyTrichotomy(Key(a), Key(b));
  }

  // ------------------------------------------- strings that break the order

  /** `s` with a digit in place of each NUL that is not directly after a digit. */
  function Filled(s: string, p: bool, digit: char): (t: string)
    ensures |t| == |s|
  {
    if s == "" then ""
    else [if s[0] == '\0' && !p then digit else s[0]] + Filled(s[1..], IsDigit(s[0]), digit)
  }

  lemma {:induction false} FilledIsRegular(s: string, p: bool, q: bool, digit: char)
    requires IsDigit(digit) && (p ==> q)
    ensures NulAfterDigits(Filled(s, p, digit), q)
  {
    var t := Filled(s, p, digit);
    if s != "" {
      FilledIsRegular(s[1..], IsDigit(s[0]), IsDigit(t[0]), digit);
      assert t[1..] == Filled(s[1..], IsDigit(s[0]), digit);
    }
  }

  /** Behind a string that does not start with a NUL it does not matter what was before. */
  lemma FilledAfter(s: string, p: bool, digit: char)
    requires s == "" || s[0] != '\0'
    ensures Filled(s, p, digit) == Filled(s, true, digit)
  {
  }

  lemma {:induction false} FilledText(s: string, p: bool, digit: char) returns (r: string)
    requires IsDigit(digit)
    ensures SkipText(s, Filled(s, p, digit)) == Level(r, Filled(r, true, digit))
    ensures !StartsWithText(r) && (if StartsWithText(s) then |r| < |s| else r == s)
  {
    if StartsWithText(s) {
      assert Tail(Filled(s, p, digit)) == Filled(s[1..], false, digit);
      r := FilledText(s[1..], false, digit);
    } else {
      FilledAfter(s, p, digit);
      r := s;
    }
  }

  lemma {:induction false} FilledZeros(s: string, digit: char)
    ensures SkipZeros(Filled(s, true, digit)) == Filled(SkipZeros(s), true, digit)
  {
    if s != "" && s[0] == '0' {
      FilledZeros(s[1..], digit);
      assert Filled(s, true, digit)[1..] == Filled(s[1..], true, digit);
    }
  }

  lemma {:induction false} FilledDigits(s: string, digit: char)
    ensures DigitRun(Filled(s, true, digit)) == DigitRun(s)
    ensures Number(Filled(s, true, digit)) == Number(s)
    ensures AfterDigits(Filled(s, true, digit)) == Filled(AfterDigits(s), true, digit)
  {
    if StartsWithDigit(s) {
      FilledDigits(s[1..], digit);
      assert Filled(s, true, digit)[1..] == Filled(s[1..], true, digit);
    }
  }

  lemma {:induction false} DigitsLevel(s: string, digit: char)
    ensures SkipDigits(s, Filled(s, true, digit), 0) == (AfterDigits(s), Filled(AfterDigits(s), true, digit), 0)
  {
    if StartsWithDigit(s) {
      DigitsLevel(s[1..], digit);
      assert Filled(s, true, digit)[1..] == Filled(s[1..], true, digit);
      assert AfterDigits(s) == AfterDigits(s[1..]);
    }
  }

  /** Whatever digit is put in place of its stray NULs, a string ties with the result. */
  lemma {:induction false} TiesWithFilled(s: string, p: bool, digit: char)
    requires IsDigit(digit) && (p ==> !StartsWithDigit(s))
    ensures CompareComponent(s, Filled(s, p, digit)) == 0
    decreases |s|
  {
    hide SkipText, SkipZeros, SkipDigits;
    if s != "" {
      var r := FilledText(s, p, digit);
      FilledZeros(r, digit);
      DigitsLevel(SkipZeros(r), digit);
      ZerosCountNothing(r);
      var rest := AfterDigits(SkipZeros(r));
      RunAfter(r, DigitRun(r));
      assert rest == "" || Filled(rest, true, digit)[0] == rest[0];
      TiesWithFilled(rest, true, digit);
    }
  }

  lemma {:induction false} SameRuns(s: string, p: bool, d: char, e: char)
    requires IsDigit(d) && IsDigit(e)
    ensures DigitRun(Filled(s, p, d)) == DigitRun(Filled(s, p, e))
  {
    if s != "" {
      SameRuns(s[1..], IsDigit(s[0]), d, e);
      assert Filled(s, p, d)[1..] == Filled(s[1..], IsDigit(s[0]), d);
      assert Filled(s, p, e)[1..] == Filled(s[1..], IsDigit(s[0]), e);
    }
  }

  /** The larger digit in place of a stray NUL makes the larger key. */
  lemma {:induction false} FilledDiffers(s: string, p: bool, d: char, e: char)
    requires IsDigit(d) && IsDigit(e) && d < e && !NulAfterDigits(s, p)
    ensures CompareKeys(Key(Filled(s, p, d)), Key(Filled(s, p, e))) < 0
    decreases |s|
  {
    hide CompareKeys, NulAfterDigits;
    var t, u := Filled(s, p, d), Filled(s, p, e);
    Unfolded(s, p);
    if s[0] == '\0' && !p {
      NumberPart(t, u);
      StrayDigits(s, p, d, e);
    } else if StartsWithDigit(s) {
      FilledAfter(s, p, d);
      FilledAfter(s, p, e);
      FilledDigits(s, d);
      FilledDigits(s, e);
      NulBehindDigits(s, p);
      NumberPart(t, u);
      FilledDiffers(AfterDigits(s), true, d, e);
    } else {
      TextPart(t, u);
      FilledDiffers(s[1..], false, d, e);
    }
  }

  lemma Unfolded(s: string, p: bool)
    requires !NulAfterDigits(s, p)
    ensures s != "" && ((s[0] == '\0' && !p) || !NulAfterDigits(s[1..], IsDigit(s[0])))
  {
  }

  lemma TextPart(t: string, u: string)
    requires StartsWithText(t) && StartsWithText(u) && t[0] == u[0]
    ensures CompareKeys(Key(t), Key(u)) == CompareKeys(Key(t[1..]), Key(u[1..]))
  {
    KeyOfText(t);
    KeyOfText(u);
  }

  lemma StrayDigits(s: string, p: bool, d: char, e: char)
    requires IsDigit(d) && IsDigit(e) && d < e && s != "" && s[0] == '\0' && !p
    ensures Number(Filled(s, p, d)) < Number(Filled(s, p, e))
  {
    var t, u := Filled(s, p, d), Filled(s, p, e);
    SameRuns(s, p, d, e);
    NumberBound(t[1..]);
    LeadingDigitDecides(e as int - '0' as int, d as int - '0' as int, Pow10(DigitRun(t) - 1), Number(u[1..]), Number(t[1..]));
  }

  /** `s` compares equal to no two regular strings that differ. */
  ghost predicate TiesAgree(s: string) {
    forall t, u :: Regular(t) && Regular(u) && CompareComponent(s, t) == 0 && CompareComponent(s, u) == 0 ==>
      CompareComponent(t, u) == 0
  }

  /** Theorem: the regular strings are exactly those with which comparing equal is
    * transitive. Any other ties with two regular strings of which one is smaller. */
  lemma RegularIffTiesAgree(s: string)
    ensures Regular(s) <==> TiesAgree(s)
    ensures !Regular(s) ==>
              var t, u := Filled(s, false, '5'), Filled(s, false, '6');
              && Regular(t) && Regular(u)
              && CompareComponent(s, t) == 0 && CompareComponent(s, u) == 0 && CompareComponent(t, u) < 0
  {
    hide CompareComponent, Filled;
    if Regular(s) {
      forall t, u | Regular(t) && Regular(u) && CompareComponent(s, t) == 0 && CompareComponent(s, u) == 0
        ensures CompareComponent(t, u) == 0
      {
        ComponentMirror(s, t);
        ComponentTransitive(t, s, u);
      }
    } else {
      var t, u := Filled(s, false, '5'), Filled(s, false, '6');
      FilledIsRegular(s, false, false, '5');
      FilledIsRegular(s, false, false, '6');
      TiesWithFilled(s, false, '5');
      TiesWithFilled(s, false, '6');
      FilledDiffers(s, false, '5', '6');
      NoNulFirst(t);
      NoNulFirst(u);
      ComponentMeetsKeys(t, u);
    }
  }

  // -------------------------------------------------- the order on versions

  lemma {:induction false} TextMirror(a: string, b: string)
    ensures match SkipText(a, b)
            case Differs(d) => SkipText(b, a) == Differs(-d)
            case Level(x, y) => SkipText(b, a) == Level(y, x)
    decreases |a| + |b|
  {
    if (StartsWithText(a) || StartsWithText(b)) && HeadOrder(a) == HeadOrder(b) {
      TextMirror(Tail(a), Tail(b));
    }
  }

  lemma {:induction false} DigitsMirror(a: string, b: string, diff: int)
    ensures var (x, y, d) := SkipDigits(a, b, diff);
            SkipDigits(b, a, -diff) == (y, x, -d)
  {
    if StartsWithDigit(a) && StartsWithDigit(b) {
      DigitsMirror(a[1..], b[1..], if diff == 0 then a[0] as int - b[0] as int else diff);
    }
  }

  /** For all strings, with or without NULs, swapping the arguments flips the sign. */
  lemma {:induction false} ComponentMirror(a: string, b: string)
    ensures CompareComponent(b, a) == -CompareComponent(a, b)
    decreases |a| + |b|
  {
    if a == "" && b == "" {
    } else {
      TextMirror(a, b);
      match SkipText(a, b)
      case Differs(_) =>
      case Level(a1, b1) =>
        var (a2, b2, diff) := SkipDigits(SkipZeros(a1), SkipZeros(b1), 0);
        DigitsMirror(SkipZeros(a1), SkipZeros(b1), 0);
        if !StartsWithDigit(a2) && !StartsWithDigit(b2) && diff == 0 {
          ComponentMirror(a2, b2);
        }
    }
  }

  predicate Clean(v: DebVersion) {
    Regular(v.version) && Regular(v.revision)
  }

  /** Exactly antisymmetric, hence reflexive. */
  lemma VersionMirror(a: DebVersion, b: DebVersion)
    ensures Compare(b, a) == -Compare(a, b)
    ensures a == b ==> Compare(a, b) == 0
  {
    ComponentMirror(a.version, b.version);
    ComponentMirror(a.revision, b.revision);
  }

  lemma ComponentTransitive(a: string, b: string, c: string)
    requires Regular(a) && Regular(b) && Regular(c)
    requires CompareComponent(a, b) <= 0 && CompareComponent(b, c) <= 0
    ensures CompareComponent(a, c) <= 0
    ensures CompareComponent(a, c) == 0 <==> CompareComponent(a, b) == 0 && CompareComponent(b, c) == 0
  {
    ComparisonIsKeyOrder(a, b);
    ComparisonIsKeyOrder(b, c);
    ComparisonIsKeyOrder(a, c);
    KeyTransitive(Key(a), Key(b), Key(c));
  }

  /** Theorem: with VersionMirror, `Compare` is a total preorder on clean versions. */
  lemma VersionTransitive(a: DebVersion, b: DebVersion, c: DebVersion)
    requires Clean(a) && Clean(b) && Clean(c)
    requires Compare(a, b) <= 0 && Compare(b, c) <= 0
    ensures Compare(a, c) <= 0
    ensures Compare(a, c) == 0 <==> Compare(a, b) == 0 && Compare(b, c) == 0
  {
    if a.epoch == b.epoch == c.epoch {
      ComponentTransitive(a.version, b.version, c.version);
      if CompareComponent(a.version, b.version) == 0 && CompareComponent(b.version, c.version) == 0 {
        ComponentTransitive(a.revision, b.revision, c.revision);
      }
    }
  }

  /** Theorem: the epoch comes first, then the key of the version, then that of the revision. */
  lemma CompareMeaning(a: DebVersion, b: DebVersion)
    requires Clean(a) && Clean(b)
    ensures Compare(a, b) > 0 <==>
              a.epoch > b.epoch ||
              (a.epoch == b.epoch &&
               (KeyLess(Key(b.version), Key(a.version)) ||
                (KeySame(Key(a.version), Key(b.version)) && KeyLess(Key(b.revision), Key(a.revision)))))
    ensures Compare(a, b) == 0 <==>
              a.epoch == b.epoch && KeySame(Key(a.version), Key(b.version)) && KeySame(Key(a.revision), Key(b.revision))
  {
    hide Regular, KeyLess, KeySame, Key, CompareComponent;
    ComparisonIsKeyOrder(a.version, b.version);
    ComparisonIsKeyOrder(a.revision, b.revision);
  }

  // ------------------------------------------------ laws of the comparison itself

  /** A larger epoch is newer, and equal epochs do not matter. */
  lemma EpochFirst(a: DebVersion, b: DebVersion)
    ensures a.epoch > b.epoch ==> Compare(a, b) > 0 && Compare(b, a) < 0
    ensures a.epoch == b.epoch ==> Compare(a, b) == Compare(a.(epoch := 0), b.(epoch := 0))
  {
  }

  /** A tilde comes before anything else, even the end; a character other than a tilde
    * after the end; and of two characters the first difference in weight decides. */
  lemma FirstCharacterDecides(c: char, a: string, b: string)
    requires '\0' < c < '\U{100}' && !('0' <= c <= '9')
    ensures c == '~' && !("~" <= b) ==> CompareComponent([c] + a, b) < 0
    ensures c != '~' && (b == "" || '0' <= b[0] <= '9' || b[0] == '~') ==> CompareComponent([c] + a, b) > 0
    ensures b != "" && !('0' <= b[0] <= '9') && CharOrder(c) < CharOrder(b[0]) ==> CompareComponent([c] + a, b) < 0
    ensures b != "" && !('0' <= b[0] <= '9') && CharOrder(c) > CharOrder(b[0]) ==> CompareComponent([c] + a, b) > 0
  {
  }

  lemma OneInCommon(c: char, a: string, b: string)
    requires !IsDigit(c)
    ensures CompareComponent([c] + a, [c] + b) == CompareComponent(a, b)
  {
    hide SkipZeros, SkipDigits, CharOrder, IsDigit;
    assert ([c] + a)[1..] == a && ([c] + b)[1..] == b;
    assert SkipText([c] + a, [c] + b) == SkipText(a, b);
    if a == "" && b == "" {
      NothingLeft();
    }
  }

  lemma NothingLeft()
    ensures SkipDigits(SkipZeros(""), SkipZeros(""), 0) == ("", "", 0)
  {
  }

  /** Text in common does not matter. */
  lemma {:induction false} CommonText(p: string, a: string, b: string)
    requires forall i :: 0 <= i < |p| ==> !('0' <= p[i] <= '9')
    ensures CompareComponent(p + a, p + b) == CompareComponent(a, b)
  {
    hide CompareComponent;
    if p == "" {
      assert p + a == a && p + b == b;
    } else {
      CommonText(p[1..], a, b);
      OneInCommon(p[0], p[1..] + a, p[1..] + b);
      assert p + a == [p[0]] + (p[1..] + a) && p + b == [p[0]] + (p[1..] + b);
    }
  }

  lemma RunOfMore(s: string, rest: string)
    requires forall i :: 0 <= i < |s| ==> IsDigit(s[i])
    requires !StartsWithDigit(rest)
    ensures DigitRun(s + rest) == |s|
  {
    if s == "" {
      assert s + rest == rest;
    } else {
      RunOfMore(s[1..], rest);
      assert (s + rest)[1..] == s[1..] + rest;
    }
  }

  lemma NumberStep(c: char, s: string)
    requires IsDigit(c)
    ensures Number([c] + s) == (c as int - '0' as int) * Pow10(DigitRun(s)) + Number(s)
  {
    hide DigitRun, Pow10, IsDigit;
    RunStep(c, s);
    assert ([c] + s)[1..] == s;
  }

  lemma RunStep(c: char, s: string)
    requires IsDigit(c)
    ensures DigitRun([c] + s) == 1 + DigitRun(s)
  {
    assert ([c] + s)[1..] == s;
  }

  lemma {:induction false} NumberOfMore(s: string, c: char, rest: string)
    requires forall i :: 0 <= i < |s| ==> IsDigit(s[i])
    requires IsDigit(c) && !StartsWithDigit(rest)
    ensures Number(s + [c] + rest) == 10 * Number(s + rest) + (c as int - '0' as int)
  {
    hide Number, DigitRun;
    RunOfMore([c], rest);
    RunOfMore(s, rest);
    if s == "" {
      assert s + [c] + rest == [c] + rest && s + rest == rest;
      NumberStep(c, rest);
      NoNumber(rest);
    } else {
      var d := s[0] as int - '0' as int;
      var t := s[1..];
      RunOfMore(t, rest);
      RunOfMore(t + [c], rest);
      assert s + [c] + rest == [s[0]] + (t + [c] + rest) && s + rest == [s[0]] + (t + rest);
      NumberStep(s[0], t + [c] + rest);
      NumberStep(s[0], t + rest);
      NumberOfMore(t, c, rest);
      assert d * Pow10(|t| + 1) == 10 * (d * Pow10(|t|));
    }
  }

  lemma NoNumber(rest: string)
    requires !StartsWithDigit(rest)
    ensures Number(rest) == 0 && DigitRun(rest) == 0
  {
  }

  lemma {:induction false} NumberOfDigits(n: nat, rest: string)
    requires !StartsWithDigit(rest)
    ensures Digits(n) != "" && forall i :: 0 <= i < |Digits(n)| ==> IsDigit(Digits(n)[i])
    ensures Number(Digits(n) + rest) == n && AfterDigits(Digits(n) + rest) == rest
  {
    hide Number, DigitRun;
    var c := ('0' as int + n % 10) as char;
    if n < 10 {
      NumberOfMore("", c, rest);
      NoNumber(rest);
      assert "" + rest == rest && "" + [c] + rest == Digits(n) + rest;
    } else {
      NumberOfDigits(n / 10, rest);
      NumberOfMore(Digits(n / 10), c, rest);
      assert Digits(n) == Digits(n / 10) + [c];
    }
    RunOfMore(Digits(n), rest);
  }

  lemma DigitsFirst(x: string, y: string)
    requires !StartsWithText(x) && !StartsWithText(y)
    ensures Sign(CompareComponent(x, y)) ==
            if Number(x) != Number(y) then Sign(Number(x) - Number(y))
            else Sign(CompareComponent(AfterDigits(x), AfterDigits(y)))
    ensures Number(x) == Number(y) ==> CompareComponent(x, y) == CompareComponent(AfterDigits(x), AfterDigits(y))
  {
    hide SkipZeros, SkipDigits, Number, AfterDigits;
    DigitsCompareAsNumbers(x, y);
    if x == "" && y == "" {
      NothingLeft();
    }
  }

  /** Theorem: decimal numbers compare as numbers, and on a tie what follows decides. */
  lemma NumbersDecide(m: nat, n: nat, a: string, b: string)
    requires !(a != "" && '0' <= a[0] <= '9') && !(b != "" && '0' <= b[0] <= '9')
    ensures m < n ==> CompareComponent(Digits(m) + a, Digits(n) + b) < 0
    ensures m > n ==> CompareComponent(Digits(m) + a, Digits(n) + b) > 0
    ensures m == n ==> CompareComponent(Digits(m) + a, Digits(n) + b) == CompareComponent(a, b)
  {
    hide Digits, Number, CompareComponent, AfterDigits;
    NumberOfDigits(m, a);
    NumberOfDigits(n, b);
    DigitsFirst(Digits(m) + a, Digits(n) + b);
  }
}
