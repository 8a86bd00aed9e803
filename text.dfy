/**
 * The parts of Go's `strings` and `strconv` packages that the validator calls:
 * `strings.TrimSpace`, `strings.Fields`, the first-separator split behind
 * `strings.SplitN(s, sep, 2)`, and the base-10 parsers `strconv.Atoi`,
 * `strconv.ParseInt(s, 10, 64)` and `strconv.ParseUint(s, 10, 64)`.
 *
 * A `char` stands for one byte of a Go string, so `|s|` is Go's `len(s)`.
 * White space is the ASCII set Go recognises on its fast path.
 */
module Text {
  import opened Wrappers

  /** ASCII white space: '\t', '\n', '\v', '\f', '\r' and ' '. */
  predicate IsSpace(c: char) {
    c == ' ' || c == '\t' || c == '\n' || c == '\U{000B}' || c == '\U{000C}' || c == '\r'
  }

  predicate AllSpace(s: string) {
    forall i :: 0 <= i < |s| ==> IsSpace(s[i])
  }

  predicate NoSpace(s: string) {
    forall i :: 0 <= i < |s| ==> !IsSpace(s[i])
  }

  // ---------------------------------------------------------------------------
  // strings.TrimSpace
  // ---------------------------------------------------------------------------

  /** Drops the leading white space. */
  function TrimLeft(s: string): string {
    if s == [] || !IsSpace(s[0]) then s else TrimLeft(s[1..])
  }

  /** Drops the trailing white space. */
  function TrimRight(s: string): string {
    if s == [] || !IsSpace(s[|s| - 1]) then s else TrimRight(s[..|s| - 1])
  }

  /** strings.TrimSpace: `s` without its leading and trailing white space. */
  function TrimSpace(s: string): string {
    TrimRight(TrimLeft(s))
  }

  /** TrimLeft keeps the suffix of `s` that follows its leading white space. */
  lemma {:induction false} TrimLeftSuffix(s: string)
    ensures var r := TrimLeft(s);
      |r| <= |s| && r == s[|s| - |r|..] && AllSpace(s[..|s| - |r|]) && (r == [] || !IsSpace(r[0]))
  {
    if s != [] && IsSpace(s[0]) {
      TrimLeftSuffix(s[1..]);
      var r := TrimLeft(s);
      assert s[..|s| - |r|] == [s[0]] + s[1..][..|s| - 1 - |r|];
    }
  }

  /** TrimRight keeps the prefix of `s` that precedes its trailing white space. */
  lemma {:induction false} TrimRightPrefix(s: string)
    ensures var r := TrimRight(s);
      |r| <= |s| && r == s[..|r|] && AllSpace(s[|r|..]) && (r == [] || !IsSpace(r[|r| - 1]))
  {
    if s != [] && IsSpace(s[|s| - 1]) {
      TrimRightPrefix(s[..|s| - 1]);
      var r := TrimRight(s);
      assert s[|r|..] == s[..|s| - 1][|r|..] + [s[|s| - 1]];
    }
  }

  /**
   * TrimSpace removes a run of white space at each end and nothing else: the
   * result neither starts nor ends with white space, and `s` is the result
   * with white space around it.
   */
  lemma TrimSpaceSpec(s: string)
    ensures var r := TrimSpace(s);
      (r == [] || (!IsSpace(r[0]) && !IsSpace(r[|r| - 1]))) &&
      exists i :: 0 <= i && i + |r| <= |s| && s[i..i + |r|] == r && AllSpace(s[..i]) && AllSpace(s[i + |r|..])
  {
    var l := TrimLeft(s);
    TrimLeftSuffix(s);
    TrimRightPrefix(l);
    var r := TrimRight(l);
    var i := |s| - |l|;
    assert s[i..i + |r|] == r;
    assert s[i + |r|..] == l[|r|..];
  }

  /** A string that neither starts nor ends with white space is left as it is. */
  lemma TrimSpaceOfTrimmed(s: string)
    requires s == [] || (!IsSpace(s[0]) && !IsSpace(s[|s| - 1]))
    ensures TrimSpace(s) == s
  {
  }

  /** A string without white space is left as it is. */
  lemma TrimSpaceOfNoSpace(s: string)
    requires NoSpace(s)
    ensures TrimSpace(s) == s
  {
    if s != [] {
      assert !IsSpace(s[0]) && !IsSpace(s[|s| - 1]);
    }
  }

  // ---------------------------------------------------------------------------
  // strings.Fields
  // ---------------------------------------------------------------------------

  /** Length of the run of non-space characters that `s` starts with. */
  function RunLength(s: string): (n: nat)
    ensures n <= |s|
    ensures NoSpace(s[..n])
    ensures n < |s| ==> IsSpace(s[n])
  {
    if s == [] || IsSpace(s[0]) then 0 else 1 + RunLength(s[1..])
  }

  /** strings.Fields: the maximal runs of non-space characters, in order. */
  function Fields(s: string): (r: seq<string>)
    ensures forall k :: 0 <= k < |r| ==> r[k] != [] && NoSpace(r[k])
    decreases |s|
  {
    if s == [] then []
    else if IsSpace(s[0]) then Fields(s[1..])
    else
      var n := RunLength(s);
      [s[..n]] + Fields(s[n..])
  }

  function Concat(ss: seq<string>): string {
    if ss == [] then [] else ss[0] + Concat(ss[1..])
  }

  function RemoveSpaces(s: string): (r: string) {
    if s == [] then []
    else (if IsSpace(s[0]) then [] else [s[0]]) + RemoveSpaces(s[1..])
  }

  lemma {:induction false} RemoveSpacesAppend(a: string, b: string)
    ensures RemoveSpaces(a + b) == RemoveSpaces(a) + RemoveSpaces(b)
    decreases |a|
  {
    if a != [] {
      assert (a + b)[0] == a[0];
      assert (a + b)[1..] == a[1..] + b;
      RemoveSpacesAppend(a[1..], b);
    } else {
      assert a + b == b;
    }
  }

  lemma {:induction false} RemoveSpacesOfNoSpace(s: string)
    requires NoSpace(s)
    ensures RemoveSpaces(s) == s
  {
    if s != [] {
      RemoveSpacesOfNoSpace(s[1..]);
    }
  }

  /** Fields loses exactly the white space: its tokens, joined, are `s` without spaces. */
  lemma {:induction false} FieldsConcat(s: string)
    ensures Concat(Fields(s)) == RemoveSpaces(s)
    decreases |s|
  {
    if s == [] {
    } else if IsSpace(s[0]) {
      FieldsConcat(s[1..]);
    } else {
      var n := RunLength(s);
      assert s == s[..n] + s[n..];
      FieldsConcat(s[n..]);
      RemoveSpacesOfNoSpace(s[..n]);
      RemoveSpacesAppend(s[..n], s[n..]);
      assert Fields(s)[1..] == Fields(s[n..]);
    }
  }

  lemma {:induction false} RunLengthStops(a: string, c: char, b: string)
    requires IsSpace(c)
    ensures RunLength(a + [c] + b) == RunLength(a)
    decreases |a|
  {
    if a == [] {
    } else {
      assert (a + [c] + b)[1..] == a[1..] + [c] + b;
      RunLengthStops(a[1..], c, b);
    }
  }

  /** A space character cuts the input into two independent halves. */
  lemma {:induction false} FieldsSplit(a: string, c: char, b: string)
    requires IsSpace(c)
    ensures Fields(a + [c] + b) == Fields(a) + Fields(b)
    decreases |a|
  {
    var s := a + [c] + b;
    if a == [] {
      assert s[1..] == b;
    } else if IsSpace(a[0]) {
      assert s[1..] == a[1..] + [c] + b;
      FieldsSplit(a[1..], c, b);
    } else {
      RunLengthStops(a, c, b);
      var n := RunLength(a);
      assert s[..n] == a[..n];
      assert s[n..] == a[n..] + [c] + b;
      FieldsSplit(a[n..], c, b);
    }
  }

  /** A non-empty space-free string is a single token. */
  lemma {:induction false} FieldsOfToken(s: string)
    requires s != [] && NoSpace(s)
    ensures Fields(s) == [s]
  {
    assert RunLength(s) == |s| by {
      RunLengthOfNoSpace(s);
    }
    assert s[..|s|] == s && s[|s|..] == [];
  }

  lemma {:induction false} RunLengthOfNoSpace(s: string)
    requires NoSpace(s)
    ensures RunLength(s) == |s|
  {
    if s != [] {
      RunLengthOfNoSpace(s[1..]);
    }
  }

  // ---------------------------------------------------------------------------
  // strings.SplitN(s, sep, 2) with a one-character separator
  // ---------------------------------------------------------------------------

  /** Index of the first occurrence of `c` in `s`, if any. */
  function IndexOf(s: string, c: char): (r: Option<nat>)
    ensures r.Some? ==> r.value < |s|
  {
    if s == [] then None
    else if s[0] == c then Some(0)
    else match IndexOf(s[1..], c)
      case None => None
      case Some(i) => Some(i + 1)
  }

  /** Index of the last occurrence of `c` in `s`, if any. */
  function LastIndexOf(s: string, c: char): (r: Option<nat>)
    ensures r.Some? ==> r.value < |s|
  {
    if s == [] then None
    else if s[|s| - 1] == c then Some(|s| - 1)
    else LastIndexOf(s[..|s| - 1], c)
  }

  /** IndexOf finds the first occurrence, and finds none only when there is none. */
  lemma {:induction false} IndexOfSpec(s: string, c: char)
    ensures var r := IndexOf(s, c);
      (r.None? <==> c !in s) &&
      (r.Some? ==> r.value < |s| && s[r.value] == c && c !in s[..r.value])
  {
    if s != [] && s[0] != c {
      IndexOfSpec(s[1..], c);
      assert s == [s[0]] + s[1..];
      match IndexOf(s[1..], c)
      case None =>
      case Some(i) =>
        assert s[..i + 1] == [s[0]] + s[1..][..i];
    }
  }

  /** LastIndexOf finds the last occurrence, and finds none only when there is none. */
  lemma {:induction false} LastIndexOfSpec(s: string, c: char)
    ensures var r := LastIndexOf(s, c);
      (r.None? <==> c !in s) &&
      (r.Some? ==> r.value < |s| && s[r.value] == c && c !in s[r.value + 1..])
  {
    if s != [] && s[|s| - 1] != c {
      LastIndexOfSpec(s[..|s| - 1], c);
      assert s == s[..|s| - 1] + [s[|s| - 1]];
      match LastIndexOf(s[..|s| - 1], c)
      case None =>
      case Some(j) =>
        assert s[j + 1..] == s[..|s| - 1][j + 1..] + [s[|s| - 1]];
    }
  }

  /** The first occurrence is the one with no occurrence before it. */
  lemma IndexOfAt(s: string, c: char, i: nat)
    requires i < |s| && s[i] == c && c !in s[..i]
    ensures IndexOf(s, c) == Some(i)
  {
    IndexOfSpec(s, c);
    var r := IndexOf(s, c);
    assert c in s by {
      assert s[i] == c;
    }
  }

  /** The last occurrence is the one with no occurrence after it. */
  lemma LastIndexOfAt(s: string, c: char, j: nat)
    requires j < |s| && s[j] == c && c !in s[j + 1..]
    ensures LastIndexOf(s, c) == Some(j)
  {
    LastIndexOfSpec(s, c);
    var r := LastIndexOf(s, c);
    assert c in s by {
      assert s[j] == c;
    }
  }

  /** Number of occurrences of `c` in `s`. */
  function Count(s: string, c: char): nat {
    if s == [] then 0 else (if s[0] == c then 1 else 0) + Count(s[1..], c)
  }

  lemma {:induction false} CountAppend(a: string, b: string, c: char)
    ensures Count(a + b, c) == Count(a, c) + Count(b, c)
    decreases |a|
  {
    if a == [] {
      assert a + b == b;
    } else {
      assert (a + b)[0] == a[0] && (a + b)[1..] == a[1..] + b;
      CountAppend(a[1..], b, c);
    }
  }

  lemma {:induction false} CountAbsent(s: string, c: char)
    requires c !in s
    ensures Count(s, c) == 0
  {
    if s != [] {
      assert s[0] != c;
      CountAbsent(s[1..], c);
    }
  }

  // ---------------------------------------------------------------------------
  // strconv, base 10, 64-bit
  // ---------------------------------------------------------------------------

  const MaxInt64: int := 0x7FFF_FFFF_FFFF_FFFF
  const MinInt64: int := -0x8000_0000_0000_0000
  const MaxUint64: int := 0xFFFF_FFFF_FFFF_FFFF

  type Int64 = i: int | MinInt64 <= i <= MaxInt64
  type Uint64 = n: int | 0 <= n <= MaxUint64

  predicate IsDigit(c: char) {
    '0' <= c <= '9'
  }

  /** One or more decimal digits and nothing else: what ParseUint accepts. */
  predicate IsDecimal(s: string) {
    |s| > 0 && forall i :: 0 <= i < |s| ==> IsDigit(s[i])
  }

  function DigitValue(c: char): (d: nat)
    requires IsDigit(c)
    ensures d < 10
  {
    (c as int) - ('0' as int)
  }

  function DigitChar(d: nat): (c: char)
    requires d < 10
    ensures IsDigit(c) && DigitValue(c) == d
  {
    ('0' as int + d) as char
  }

  /** The number a string of digits denotes, read most significant digit first. */
  function DecimalValue(s: string): nat
    requires forall i :: 0 <= i < |s| ==> IsDigit(s[i])
  {
    if s == [] then 0 else 10 * DecimalValue(s[..|s| - 1]) + DigitValue(s[|s| - 1])
  }

  /** Length of the run of decimal digits `s` starts with. */
  function DigitRun(s: string): (n: nat)
    ensures n <= |s|
    ensures forall i :: 0 <= i < n ==> IsDigit(s[i])
    ensures n < |s| ==> !IsDigit(s[n])
  {
    if s == [] || !IsDigit(s[0]) then 0 else 1 + DigitRun(s[1..])
  }

  /**
   * strconv.ParseUint(s, 10, 64) with its error ignored. Go reads the digits
   * left to right and stops at the first one that takes the value past the
   * largest uint64 (a range error, which yields that largest uint64); a sign,
   * any other non-digit or the empty string is a syntax error and yields 0.
   * So overflow in the leading run of digits wins over a later non-digit.
   * ScanUint is that loop, and ParseUintIsScan proves the two agree.
   */
  function ParseUint(s: string): (r: Uint64)
    ensures IsDecimal(s) ==> r == if DecimalValue(s) > MaxUint64 then MaxUint64 else DecimalValue(s)
    ensures DigitRun(s) == 0 ==> r == 0
    ensures DigitRun(s) < |s| && r != 0 ==> r == MaxUint64
  {
    var p := s[..DigitRun(s)];
    assert IsDecimal(s) ==> p == s;
    if DecimalValue(p) > MaxUint64 then MaxUint64
    else if |p| < |s| then 0
    else DecimalValue(s)
  }

  /**
   * The digit loop of strconv.ParseUint for base 10 and 64 bits, `n` being
   * the value read so far: a non-digit is a syntax error (0), and a digit
   * that would take the value past the largest uint64 is a range error.
   */
  function ScanUint(n: Uint64, s: string): Uint64
    decreases |s|
  {
    if s == [] then n
    else if !IsDigit(s[0]) then 0
    else if 10 * n + DigitValue(s[0]) > MaxUint64 then MaxUint64
    else ScanUint(10 * n + DigitValue(s[0]), s[1..])
  }

  function Pow10(k: nat): (p: nat)
    ensures p >= 1
  {
    if k == 0 then 1 else 10 * Pow10(k - 1)
  }

  /** A leading digit contributes its value times the weight of its position. */
  lemma {:induction false} DecimalValueCons(c: char, t: string)
    requires IsDigit(c) && forall i :: 0 <= i < |t| ==> IsDigit(t[i])
    ensures DecimalValue([c] + t) == DigitValue(c) * Pow10(|t|) + DecimalValue(t)
    decreases |t|
  {
    if t == [] {
      assert [c] + t == [c];
      assert [c][..0] == [];
    } else {
      var u := t[..|t| - 1];
      var e := DigitValue(t[|t| - 1]);
      assert ([c] + t)[..|t|] == [c] + u;
      DecimalValueCons(c, u);
      var dc, p := DigitValue(c), Pow10(|u|);
      assert DecimalValue([c] + t) == 10 * (dc * p + DecimalValue(u)) + e;
      MulShift(0, dc, p);
    }
  }

  lemma MulShift(n: nat, d: nat, p: nat)
    ensures n * (10 * p) + d * p == (10 * n + d) * p
    ensures d * (10 * p) == 10 * (d * p)
  {
  }

  /** The value of `n` followed by the leading digits of `s`. */
  function Prefixed(n: nat, s: string): nat {
    n * Pow10(DigitRun(s)) + DecimalValue(s[..DigitRun(s)])
  }

  /** Moving one leading digit into `n` leaves the prefixed value unchanged. */
  lemma PrefixedStep(n: nat, s: string)
    requires s != [] && IsDigit(s[0])
    ensures Prefixed(n, s) == Prefixed(10 * n + DigitValue(s[0]), s[1..])
  {
    var t := s[1..];
    var j := DigitRun(t);
    assert DigitRun(s) == 1 + j;
    assert s[..1 + j] == [s[0]] + t[..j];
    DecimalValueCons(s[0], t[..j]);
    var d, p, w := DigitValue(s[0]), Pow10(j), DecimalValue(t[..j]);
    assert Prefixed(n, s) == n * (10 * p) + (d * p + w);
    MulShift(n, d, p);
  }

  lemma PrefixedAtLeast(n: nat, s: string)
    ensures Prefixed(n, s) >= n
  {
    var p := Pow10(DigitRun(s));
    assert n * p >= n;
  }

  /**
   * What the loop returns from `n` onwards: the value of `n` followed by the
   * leading digits of `s`, clamped, or 0 when a non-digit follows in range.
   */
  lemma {:induction false} ScanUintValue(n: Uint64, s: string)
    ensures ScanUint(n, s) == if Prefixed(n, s) > MaxUint64 then MaxUint64
                              else if DigitRun(s) < |s| then 0 else Prefixed(n, s)
    decreases |s|
  {
    if s == [] || !IsDigit(s[0]) {
      assert DigitRun(s) == 0 && s[..0] == [];
    } else {
      var m := 10 * n + DigitValue(s[0]);
      PrefixedStep(n, s);
      assert DigitRun(s) == 1 + DigitRun(s[1..]);
      if m <= MaxUint64 {
        ScanUintValue(m, s[1..]);
      } else {
        PrefixedAtLeast(m, s[1..]);
      }
    }
  }

  /** The closed form of ParseUint is Go's left-to-right loop. */
  lemma ParseUintIsScan(s: string)
    ensures ParseUint(s) == ScanUint(0, s)
  {
    ScanUintValue(0, s);
    assert Prefixed(0, s) == DecimalValue(s[..DigitRun(s)]);
    assert DigitRun(s) == |s| ==> s[..DigitRun(s)] == s;
  }

  /** The end of the leading digit run of `digits + rest`. */
  lemma {:induction false} DigitRunAppend(digits: string, rest: string)
    requires forall i :: 0 <= i < |digits| ==> IsDigit(digits[i])
    requires rest == [] || !IsDigit(rest[0])
    ensures DigitRun(digits + rest) == |digits|
    decreases |digits|
  {
    if digits != [] {
      assert (digits + rest)[1..] == digits[1..] + rest;
      DigitRunAppend(digits[1..], rest);
    } else {
      assert digits + rest == rest;
    }
  }

  /** Digits that overflow read as the largest uint64 whatever non-digit follows. */
  lemma ParseUintOverflowFirst(digits: string, rest: string)
    requires IsDecimal(digits) && DecimalValue(digits) > MaxUint64
    requires rest == [] || !IsDigit(rest[0])
    ensures ParseUint(digits + rest) == MaxUint64
  {
    DigitRunAppend(digits, rest);
    assert (digits + rest)[..|digits|] == digits;
  }

  /** Digits in range followed by a non-digit are a syntax error: 0. */
  lemma ParseUintSyntaxError(digits: string, rest: string)
    requires forall i :: 0 <= i < |digits| ==> IsDigit(digits[i])
    requires DecimalValue(digits) <= MaxUint64
    requires rest != [] && !IsDigit(rest[0])
    ensures ParseUint(digits + rest) == 0
  {
    DigitRunAppend(digits, rest);
    assert (digits + rest)[..|digits|] == digits;
  }

  /**
   * strconv.ParseInt(s, 10, 64) with its error ignored: one optional sign is
   * stripped and the rest goes to ParseUint, whose result (0 after a syntax
   * error, the largest uint64 after a range error) is clamped to the int64
   * bound of the sign. `strconv.Atoi` behaves the same on 64-bit platforms
   * (its fast path only takes inputs too short to overflow), so it is
   * modelled by this function too.
   */
  function ParseInt(s: string): (r: Int64)
    ensures |s| > 0 && s[0] == '-' ==> r <= 0
    ensures !(|s| > 0 && s[0] == '-') ==> r >= 0
    ensures r != 0 ==> |s| > 0 && (IsDigit(s[0]) || (|s| > 1 && (s[0] == '+' || s[0] == '-') && IsDigit(s[1])))
  {
    if s == [] then 0
    else
      var un := if s[0] == '+' || s[0] == '-' then ParseUint(s[1..]) else ParseUint(s);
      if s[0] == '-' then (if un > -MinInt64 then MinInt64 else -un)
      else (if un > MaxInt64 then MaxInt64 else un)
  }

  /** Digits that overflow clamp to the int64 bound of the sign before a later non-digit. */
  lemma ParseIntOverflowFirst(s: string, digits: string, rest: string)
    requires IsDecimal(digits) && DecimalValue(digits) > MaxUint64
    requires rest == [] || !IsDigit(rest[0])
    requires s == digits + rest || (|s| > 0 && (s[0] == '+' || s[0] == '-') && s[1..] == digits + rest)
    ensures |s| > 0 && ParseInt(s) == if s[0] == '-' then MinInt64 else MaxInt64
  {
    ParseUintOverflowFirst(digits, rest);
    if s == digits + rest {
      assert s[0] == digits[0];
    }
  }

  /** Unsigned digits in range followed by a non-digit other than a sign read as 0. */
  lemma ParseIntSyntaxError(digits: string, rest: string)
    requires forall i :: 0 <= i < |digits| ==> IsDigit(digits[i])
    requires DecimalValue(digits) <= MaxUint64
    requires rest != [] && !IsDigit(rest[0]) && rest[0] != '+' && rest[0] != '-'
    ensures ParseInt(digits + rest) == 0
  {
    var s := digits + rest;
    ParseUintSyntaxError(digits, rest);
    assert s[0] == if digits == [] then rest[0] else digits[0];
  }

  /** The canonical decimal spelling of a natural number (reference for the parsers). */
  function NatToDecimal(n: nat): (s: string)
    ensures IsDecimal(s)
  {
    if n < 10 then [DigitChar(n)] else NatToDecimal(n / 10) + [DigitChar(n % 10)]
  }

  /** The canonical decimal spelling of an integer, with '-' for negatives. */
  function IntToDecimal(i: int): string {
    if i < 0 then "-" + NatToDecimal(-i) else NatToDecimal(i)
  }

  lemma {:induction false} DecimalValueOfNatToDecimal(n: nat)
    ensures DecimalValue(NatToDecimal(n)) == n
  {
    var s := NatToDecimal(n);
    if n >= 10 {
      DecimalValueOfNatToDecimal(n / 10);
      assert s[..|s| - 1] == NatToDecimal(n / 10);
    }
  }

  /** ParseUint reads back every uint64 written in decimal. */
  lemma ParseUintRoundTrip(n: nat)
    requires n <= MaxUint64
    ensures ParseUint(NatToDecimal(n)) == n
  {
    DecimalValueOfNatToDecimal(n);
  }

  /** ParseUint refuses a sign: "+n" and "-n" both read as 0. */
  lemma ParseUintRejectsSign(c: char, n: nat)
    requires c == '+' || c == '-'
    ensures ParseUint([c] + NatToDecimal(n)) == 0
  {
    assert !IsDigit(([c] + NatToDecimal(n))[0]);
  }

  /** ParseInt reads back every int64 written in decimal. */
  lemma ParseIntRoundTrip(i: int)
    requires MinInt64 <= i <= MaxInt64
    ensures ParseInt(IntToDecimal(i)) == i
  {
    var s := IntToDecimal(i);
    if i < 0 {
      ParseUintRoundTrip(-i);
      assert s[0] == '-' && s[1..] == NatToDecimal(-i);
    } else {
      ParseUintRoundTrip(i);
      assert IsDigit(s[0]);
    }
  }

  /** ParseInt accepts an explicit '+' sign. */
  lemma ParseIntPlusSign(n: nat)
    requires n <= MaxInt64
    ensures ParseInt("+" + NatToDecimal(n)) == n
  {
    var s := "+" + NatToDecimal(n);
    ParseUintRoundTrip(n);
    assert s[0] == '+' && s[1..] == NatToDecimal(n);
  }
}
