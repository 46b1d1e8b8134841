/** Printing and parsing numbers: printnum (lib/printfmt.c) and strtol (lib/string.c). */
module Number {

  const DIGITS := "0123456789abcdef"

  /** The digits of n, as printnum prints them. */
  function Digits(n: nat, base: nat): seq<char>
    requires 2 <= base <= 16
    decreases n
  {
    if n < base then [DIGITS[n]] else Digits(n / base, base) + [DIGITS[n % base]]
  }

  function Padding(c: char, n: int): seq<char>
    decreases n
  {
    if n <= 0 then [] else [c] + Padding(c, n - 1)
  }

  /** The digits of n, filled up to the width from the left. */
  function Formatted(n: nat, base: nat, width: int, padc: char): seq<char>
    requires 2 <= base <= 16
  {
    Padding(padc, width - |Digits(n, base)|) + Digits(n, base)
  }

  /** Where printnum's callback puts the characters. */
  class Output {
    var text: seq<char>

    constructor ()
      ensures text == []
    {
      text := [];
    }

    method Putch(c: char)
      modifies this
      ensures text == old(text) + [c]
    {
      text := text + [c];
    }

    method PrintNum(num: nat, base: nat, width: int, padc: char)
      requires 2 <= base <= 16
      modifies this
      ensures text == old(text) + Formatted(num, base, width, padc)
      decreases num
    {
      hide Formatted, Digits;
      if num >= base {
        QuotientLess(num, base);
        PrintNum(num / base, base, width - 1, padc);
        FormattedMore(num, base, width, padc);
      } else {
        PrintPadding(width, padc);
      }
      if num < base { FormattedOne(num, base, width, padc); }
      Putch(DIGITS[num % base]);
    }

    /** The loop of printnum. */
    method PrintPadding(width: int, padc: char)
      modifies this
      ensures text == old(text) + Padding(padc, width - 1)
    {
      ghost var t0 := text;
      var w := width - 1;
      while w > 0
        invariant text + Padding(padc, w) == t0 + Padding(padc, width - 1)
      {
        Putch(padc);
        w := w - 1;
      }
      assert text + [] == text;
    }
  }

  lemma QuotientLess(num: nat, base: nat)
    requires num >= base >= 2
    ensures 0 <= num / base < num
  {
  }

  lemma FormattedOne(num: nat, base: nat, width: int, padc: char)
    requires 2 <= base <= 16 && num < base
    ensures num % base == num && Formatted(num, base, width, padc) == Padding(padc, width - 1) + [DIGITS[num]]
  {
  }

  lemma FormattedMore(num: nat, base: nat, width: int, padc: char)
    requires 2 <= base <= 16 && num >= base
    ensures Formatted(num, base, width, padc) == Formatted(num / base, base, width - 1, padc) + [DIGITS[num % base]]
  {
  }

  // ------------------------------------------------------------------
  // strtol.
  // ------------------------------------------------------------------

  /** Character i of a string that ends with NUL. */
  function CharAt(s: seq<char>, i: nat): char {
    if i < |s| then s[i] else '\0'
  }

  function DigitValue(c: char): (d: int)
    ensures -1 <= d < 36
  {
    if '0' <= c <= '9' then c as int - '0' as int
    else if 'a' <= c <= 'z' then c as int - 'a' as int + 10
    else if 'A' <= c <= 'Z' then c as int - 'A' as int + 10
    else -1
  }

  predicate IsDigit(c: char, base: int) {
    0 <= DigitValue(c) < base
  }

  /** The first place from i on that is not a blank. */
  function SkipBlanks(s: seq<char>, i: nat): (j: nat)
    decreases |s| - i
  {
    if i < |s| && (s[i] == ' ' || s[i] == '\t') then SkipBlanks(s, i + 1) else i
  }

  /** The first place from i on that is not a digit. */
  function DigitsEnd(s: seq<char>, i: nat, base: int): (j: nat)
    ensures i <= j
    decreases |s| - i
  {
    if i < |s| && IsDigit(s[i], base) then DigitsEnd(s, i + 1, base) else i
  }

  /** The number that digits spell. */
  function Value(ds: seq<char>, base: int): int {
    if ds == [] then 0 else Value(ds[..|ds| - 1], base) * base + DigitValue(ds[|ds| - 1])
  }

  /** Where the digits begin, the base they are in, and whether there is a minus sign. */
  function Prefix(s: seq<char>, base: int): (nat, int, bool) {
    var i := SkipBlanks(s, 0);
    var neg := CharAt(s, i) == '-';
    var j := if CharAt(s, i) == '+' || neg then i + 1 else i;
    if (base == 0 || base == 16) && CharAt(s, j) == '0' && CharAt(s, j + 1) == 'x' then (j + 2, 16, neg)
    else if base == 0 && CharAt(s, j) == '0' then (j + 1, 8, neg)
    else if base == 0 then (j, 10, neg)
    else (j, base, neg)
  }

  lemma {:induction false} DigitsEndIn(s: seq<char>, i: nat, base: int)
    requires i <= |s|
    ensures DigitsEnd(s, i, base) <= |s|
    decreases |s| - i
  {
    if i < |s| && IsDigit(s[i], base) {
      DigitsEndIn(s, i + 1, base);
    }
  }

  /** The first loop of strtol. */
  method Blanks(s: seq<char>) returns (p: nat)
    ensures p == SkipBlanks(s, 0)
  {
    p := 0;
    while CharAt(s, p) == ' ' || CharAt(s, p) == '\t'
      invariant SkipBlanks(s, 0) == SkipBlanks(s, p)
      decreases |s| - p
    {
      p := p + 1;
    }
  }

  /** The test that the digit loop of strtol makes of a character: its value, or -1 to stop. */
  method DigitOrStop(c: char, base: int) returns (dig: int)
    ensures dig == if IsDigit(c, base) then DigitValue(c) else -1
  {
    if '0' <= c <= '9' {
      dig := c as int - '0' as int;
    } else if 'a' <= c <= 'z' {
      dig := c as int - 'a' as int + 10;
    } else if 'A' <= c <= 'Z' {
      dig := c as int - 'A' as int + 10;
    } else {
      return -1;
    }
    if dig >= base { return -1; }
  }

  /** The digit loop of strtol. */
  method Accumulate(s: seq<char>, start: nat, base: int) returns (val: int, p: nat)
    ensures p == DigitsEnd(s, start, base) && (start <= |s| ==> p <= |s|)
    ensures val == if start > |s| then 0 else Value(s[start..p], base)
  {
    p, val := start, 0;
    while true
      invariant start <= p && (start <= |s| ==> p <= |s|) && DigitsEnd(s, start, base) == DigitsEnd(s, p, base)
      invariant val == if start > |s| then 0 else Value(s[start..p], base)
      decreases |s| - p
    {
      hide DigitValue;
      var dig := DigitOrStop(CharAt(s, p), base);
      if dig < 0 { break; }
      assert p < |s| by { NulIsNoDigit(base); }
      ValueMore(s, start, p, base);
      p, val := p + 1, val * base + dig;
    }
  }

  lemma NulIsNoDigit(base: int)
    ensures !IsDigit('\0', base)
  {
  }

  lemma ValueMore(s: seq<char>, start: nat, p: nat, base: int)
    requires start <= p < |s|
    ensures Value(s[start..p + 1], base) == Value(s[start..p], base) * base + DigitValue(s[p])
  {
    assert s[start..p + 1][..p - start] == s[start..p];
  }

  /** strtol: the value, and where the parse ended.  Overflow of `val` is not modelled. */
  method Strtol(s: seq<char>, base0: int) returns (val: int, end: nat)
    ensures var (i, base, neg) := Prefix(s, base0);
            && end == DigitsEnd(s, i, base) && (i <= |s| ==> i <= end <= |s|)
            && val == if i > |s| then 0 else if neg then -Value(s[i..end], base) else Value(s[i..end], base)
  {
    hide SkipBlanks, DigitsEnd, Value;
    var base, neg := base0, false;
    var p := Blanks(s);
    if CharAt(s, p) == '+' {
      p := p + 1;
    } else if CharAt(s, p) == '-' {
      p, neg := p + 1, true;
    }
    if (base == 0 || base == 16) && CharAt(s, p) == '0' && CharAt(s, p + 1) == 'x' {
      p, base := p + 2, 16;
    } else if base == 0 && CharAt(s, p) == '0' {
      p, base := p + 1, 8;
    } else if base == 0 {
      base := 10;
    }
    assert Prefix(s, base0) == (p, base, neg);
    hide Prefix;
    val, end := Accumulate(s, p, base);
    val := if neg then -val else val;
  }

  predicate Blank(c: char) {
    c == ' ' || c == '\t'
  }

  /** A sign may follow the blanks, and then, for base 16 or 0, the prefix 0x, or, for base 0, a 0, which
      make the base 16 and 8; without them base 0 is 10.  The digits begin after that. */
  lemma PrefixIs(blanks: seq<char>, sign: seq<char>, rest: seq<char>, base: int)
    requires forall i: nat | i < |blanks| :: Blank(blanks[i])
    requires sign in {"", "+", "-"} && (sign == "" ==> rest == [] || (!Blank(rest[0]) && rest[0] !in {'+', '-'}))
    ensures var (i, b, neg) := Prefix(blanks + sign + rest, base);
            && (neg <==> sign == "-")
            && if (base == 0 || base == 16) && |rest| > 1 && rest[0] == '0' && rest[1] == 'x'
               then i == |blanks| + |sign| + 2 && b == 16
               else if base == 0 && rest != [] && rest[0] == '0' then i == |blanks| + |sign| + 1 && b == 8
               else i == |blanks| + |sign| && b == if base == 0 then 10 else base
  {
    var s := blanks + sign + rest;
    BlanksEnd(s, 0, |blanks|);
    var p := |blanks| + |sign|;
    assert forall k: nat :: CharAt(s, p + k) == CharAt(rest, k);
    assert CharAt(s, p) == CharAt(rest, 0) && CharAt(s, p + 1) == CharAt(rest, 1);
    assert sign != "" ==> CharAt(s, |blanks|) == sign[0];
    hide CharAt, SkipBlanks;
  }

  lemma {:induction false} BlanksEnd(s: seq<char>, i: nat, n: nat)
    requires i <= n <= |s| && (forall k: nat | i <= k < n :: Blank(s[k])) && (n < |s| ==> !Blank(s[n]))
    ensures SkipBlanks(s, i) == n
    decreases n - i
  {
    if i < n {
      BlanksEnd(s, i + 1, n);
    }
  }

  /** The digits go on to the first character that is none in the base, whether it is written as a decimal
      digit or as a letter, of either case, that stands for ten or more. */
  lemma {:induction false} DigitsEndIs(s: seq<char>, i: nat, base: int)
    requires i <= |s| && base <= 36
    ensures var n := DigitsEnd(s, i, base);
            && i <= n <= |s| && (forall k: nat | i <= k < n :: SpellsDigit(s[k], base))
            && (n < |s| ==> !SpellsDigit(s[n], base))
    decreases |s| - i
  {
    if i < |s| {
      DigitSpelled(s[i], base);
      if IsDigit(s[i], base) {
        DigitsEndIs(s, i + 1, base);
      }
    }
    hide IsDigit, SpellsDigit;
  }

  /** A digit's value is the number that its character stands for. */
  lemma DigitSpelled(c: char, base: int)
    requires base <= 36
    ensures IsDigit(c, base) <==> SpellsDigit(c, base)
    ensures forall d: nat | Spells(c, d) :: DigitValue(c) == d
  {
    if IsDigit(c, base) {
      assert Spells(c, DigitValue(c));
    }
  }

  predicate SpellsDigit(c: char, base: int) {
    exists d: nat :: d < base && Spells(c, d)
  }

  predicate Spells(c: char, d: nat) {
    if d < 10 then c as int == '0' as int + d
    else d < 36 && (c as int == 'a' as int + d - 10 || c as int == 'A' as int + d - 10)
  }

  // ------------------------------------------------------------------
  // The round trip.
  // ------------------------------------------------------------------

  predicate AllDigits(s: seq<char>, base: int) {
    forall i: nat | i < |s| :: IsDigit(s[i], base)
  }

  lemma DigitOf(d: nat, base: nat)
    requires d < base <= 16
    ensures DigitValue(DIGITS[d]) == d && IsDigit(DIGITS[d], base) && LowerDigit(DIGITS[d])
    ensures DIGITS[d] == '0' <==> d == 0
  {
    assert DIGITS[d] == if d < 10 then '0' + d as char else 'a' + (d - 10) as char;
  }

  lemma Quotient(n: nat, base: nat)
    requires base >= 2
    ensures n / base * base + n % base == n
  {
  }

  predicate LowerDigit(c: char) {
    '0' <= c <= '9' || 'a' <= c <= 'f'
  }

  lemma {:induction false} DigitsValue(n: nat, base: nat)
    requires 2 <= base <= 16
    ensures Value(Digits(n, base), base) == n && AllDigits(Digits(n, base), base) && |Digits(n, base)| > 0
    ensures forall i: nat | i < |Digits(n, base)| :: LowerDigit(Digits(n, base)[i])
    ensures Digits(n, base)[0] == '0' ==> n == 0
    decreases n
  {
    hide IsDigit, DigitValue, LowerDigit;
    if n < base {
      assert Digits(n, base) == [DIGITS[n]];
      assert Digits(n, base)[..0] == [];
      DigitOf(n, base);
    } else {
      DigitsValue(n / base, base);
      DigitOf(n % base, base);
      Quotient(n, base);
      var ds := Digits(n / base, base);
      assert Digits(n, base) == ds + [DIGITS[n % base]];
      assert (ds + [DIGITS[n % base]])[..|ds|] == ds;
    }
  }

  lemma {:induction false} ValueOfZeros(k: int, ds: seq<char>, base: nat)
    ensures Value(Padding('0', k) + ds, base) == Value(ds, base)
    decreases if k > 0 then k else 0, |ds|
  {
    var s := Padding('0', k) + ds;
    if ds == [] {
      if k > 0 {
        ZerosEnd(k);
        assert s == Padding('0', k - 1) + ['0'];
        assert s[..|s| - 1] == Padding('0', k - 1) + [];
        ValueOfZeros(k - 1, [], base);
      }
    } else {
      assert s[..|s| - 1] == Padding('0', k) + ds[..|ds| - 1];
      ValueOfZeros(k, ds[..|ds| - 1], base);
    }
  }

  lemma {:induction false} ZerosEnd(k: int)
    requires k > 0
    ensures Padding('0', k) == Padding('0', k - 1) + ['0']
    decreases k
  {
    if k > 1 {
      ZerosEnd(k - 1);
    }
  }

  lemma {:induction false} PaddingChars(c: char, k: int)
    ensures |Padding(c, k)| == if k > 0 then k else 0
    ensures forall i: nat | i < |Padding(c, k)| :: Padding(c, k)[i] == c
    decreases k
  {
    if k > 0 {
      PaddingChars(c, k - 1);
    }
  }

  lemma {:induction false} DigitsEndAll(s: seq<char>, i: nat, base: int)
    requires i <= |s| && AllDigits(s[i..], base)
    ensures DigitsEnd(s, i, base) == |s|
    decreases |s| - i
  {
    if i < |s| {
      assert s[i..][0] == s[i] && s[i + 1..] == s[i..][1..];
      DigitsEndAll(s, i + 1, base);
    }
  }

  lemma {:induction false} SkipAll(s: seq<char>, i: nat, j: nat)
    requires i <= j < |s| && s[j] != ' ' && s[j] != '\t' && forall k: nat | i <= k < j :: s[k] == ' '
    ensures SkipBlanks(s, i) == j
    decreases j - i
  {
    if i < j {
      SkipAll(s, i + 1, j);
    }
  }

  /** strtol reads back what printnum prints, padded with zeros or spaces to any width, and consumes
      all of it; no number on the way is too large for a `long`. */
  lemma RoundTrip(n: nat, base: nat, width: int, padc: char)
    requires 2 <= base <= 16 && (padc == '0' || padc == ' ') && n < 0x8000_0000
    ensures var s := Formatted(n, base, width, padc);
            var (i, b, neg) := Prefix(s, base);
            && i <= |s| && DigitsEnd(s, i, b) == |s| && Value(s[i..], b) == n && !neg && b == base
            && |s| == (if width > |Digits(n, base)| then width else |Digits(n, base)|)
            && forall j: nat | i <= j <= |s| :: 0 <= Value(s[i..j], b) < 0x8000_0000
  {
    var ds := Digits(n, base);
    var k := width - |ds|;
    var pad := Padding(padc, k);
    var s := pad + ds;
    DigitsValue(n, base);
    PaddingChars(padc, k);
    hide Digits, Padding, Value, AllDigits, DigitsEnd, DigitValue, SkipBlanks;
    var start := if padc == ' ' then |pad| else 0;
    PaddedDigits(pad, ds, start, base, padc);
    SkipAll(s, 0, start);
    PlainPrefix(s, start, base);
    hide Prefix, CharAt;
    DigitsEndAll(s, start, base);
    if padc == '0' {
      ValueOfZeros(k, ds, base);
      assert s[start..] == s;
    } else {
      assert s[start..] == ds;
    }
    PartialValues(s, start, base);
  }

  /** No sign and no base prefix. */
  lemma PlainPrefix(s: seq<char>, start: nat, base: nat)
    requires 2 <= base <= 16 && SkipBlanks(s, 0) == start
    requires CharAt(s, start) !in {'+', '-'} && CharAt(s, start + 1) != 'x'
    ensures Prefix(s, base) == (start, base, false)
  {
  }

  lemma PartialValues(s: seq<char>, start: nat, base: nat)
    requires start <= |s| && AllDigits(s[start..], base)
    ensures forall j: nat | start <= j <= |s| :: 0 <= Value(s[start..j], base) <= Value(s[start..], base)
  {
    forall j: nat | start <= j <= |s| ensures 0 <= Value(s[start..j], base) <= Value(s[start..], base) {
      PartialValue(s[start..], j - start, base);
      assert s[start..][..j - start] == s[start..j];
    }
  }

  lemma {:induction false} PartialValue(ds: seq<char>, j: nat, base: nat)
    requires j <= |ds| && AllDigits(ds, base)
    ensures 0 <= Value(ds[..j], base) <= Value(ds, base)
    decreases |ds|
  {
    if j == |ds| {
      assert ds[..j] == ds;
      if ds != [] { PartialValue(ds[..j - 1], j - 1, base); assert ds[..j - 1][..j - 1] == ds[..j - 1]; }
    } else {
      var init := ds[..|ds| - 1];
      PartialValue(init, j, base);
      assert init[..j] == ds[..j];
      assert IsDigit(ds[|ds| - 1], base);
    }
    AtLeast(ds, base);
  }

  lemma AtLeast(ds: seq<char>, base: nat)
    requires AllDigits(ds, base) && (ds != [] ==> Value(ds[..|ds| - 1], base) >= 0)
    ensures ds != [] ==> Value(ds, base) >= Value(ds[..|ds| - 1], base)
  {
    if ds != [] {
      assert IsDigit(ds[|ds| - 1], base);
      Times(Value(ds[..|ds| - 1], base), base);
    }
  }

  lemma Times(v: int, base: int)
    requires v >= 0 && base >= 1
    ensures v * base >= v
  {
  }

  /** Zeros belong to the number, spaces do not, and neither looks like a sign or a prefix. */
  lemma PaddedDigits(pad: seq<char>, ds: seq<char>, start: nat, base: nat, padc: char)
    requires AllDigits(ds, base) && ds != [] && 2 <= base <= 16 && forall i: nat | i < |pad| :: pad[i] == padc
    requires (padc == ' ' && start == |pad|) || (padc == '0' && start == 0)
    ensures AllDigits((pad + ds)[start..], base)
    ensures var s := pad + ds;
            && CharAt(s, start) !in {' ', '\t', '+', '-'} && CharAt(s, start + 1) != 'x'
            && forall k: nat | k < start :: s[k] == ' '
  {
    var s := pad + ds;
    forall i: nat | i < |s[start..]| ensures IsDigit(s[start..][i], base) {
      if start + i >= |pad| {
        assert s[start..][i] == ds[start + i - |pad|];
      }
    }
    NotSpecial(CharAt(s, start), base) by { assert s[start..][0] == s[start]; }
    if start + 1 < |s| {
      assert s[start..][1] == s[start + 1];
      NotSpecial(s[start + 1], base);
    }
  }

  lemma NotSpecial(c: char, base: nat)
    requires IsDigit(c, base) && base <= 16
    ensures c !in {' ', '\t', '+', '-', 'x'}
  {
  }
}
