/**
 * The package constants of consts.go: the violation flags, declared as
 * `2 << iota` in one const block, and the fixed e-mail pattern
 * `^[a-zA-Z0-9._%+\-]+@[a-zA-Z0-9.\-]+\.[a-zA-Z]{2,}$`, written out by hand.
 */
module Consts {
  import opened Wrappers
  import opened Text

  // ---------------------------------------------------------------------------
  // Violation flags
  // ---------------------------------------------------------------------------

  /** The failure kinds, in the order of the const block. */
  datatype Flag = LenMin | LenMax | ValMin | ValMax | RegExp | Email | Req | Type

  /** The flags in declaration order: `AllFlags[Iota(f)] == f`. */
  const AllFlags: seq<Flag> := [LenMin, LenMax, ValMin, ValMax, RegExp, Email, Req, Type]

  /** The value of `iota` on the flag's line of the const block. */
  function Iota(f: Flag): (k: nat)
    ensures k < |AllFlags| && AllFlags[k] == f
  {
    match f
    case LenMin => 0
    case LenMax => 1
    case ValMin => 2
    case ValMax => 3
    case RegExp => 4
    case Email => 5
    case Req => 6
    case Type => 7
  }

  /** Each position of the block holds the flag whose `iota` it is. */
  lemma IotaOfAllFlags(j: nat)
    requires j < |AllFlags|
    ensures Iota(AllFlags[j]) == j
  {
    if j < 4 {
      assert j == 0 || j == 1 || j == 2 || j == 3;
    } else {
      assert j == 4 || j == 5 || j == 6 || j == 7;
    }
  }

  /** Go's `x << n` on non-negative integers. */
  function Shl(x: nat, n: nat): nat {
    if n == 0 then x else 2 * Shl(x, n - 1)
  }

  function Pow2(k: nat): (p: nat)
    ensures p >= 1
  {
    if k == 0 then 1 else 2 * Pow2(k - 1)
  }

  /** The constant a flag stands for: `2 << iota`. */
  function Code(f: Flag): nat {
    Shl(2, Iota(f))
  }

  const FailLenMin: int := 2
  const FailLenMax: int := 4
  const FailValMin: int := 8
  const FailValMax: int := 16
  const FailRegExp: int := 32
  const FailEmail: int := 64
  const FailReq: int := 128
  const FailType: int := 256

  /** The constants are the values `2 << iota` gives them. */
  lemma FlagValues()
    ensures FailLenMin == Code(LenMin) && FailLenMax == Code(LenMax)
    ensures FailValMin == Code(ValMin) && FailValMax == Code(ValMax)
    ensures FailRegExp == Code(RegExp) && FailEmail == Code(Email)
    ensures FailReq == Code(Req) && FailType == Code(Type)
  {
  }

  lemma {:induction false} ShlTwo(n: nat)
    ensures Shl(2, n) == Pow2(n + 1)
  {
    if n > 0 {
      ShlTwo(n - 1);
    }
  }

  /** `Bit(n, k)`: bit k of n is set, i.e. `n & (1 << k) != 0`. */
  predicate Bit(n: nat, k: nat) {
    if k == 0 then n % 2 == 1 else Bit(n / 2, k - 1)
  }

  /** Go's `|` on non-negative integers. */
  function BitOr(a: nat, b: nat): nat
    decreases a + b
  {
    if a == 0 then b
    else if b == 0 then a
    else (if a % 2 == 1 || b % 2 == 1 then 1 else 0) + 2 * BitOr(a / 2, b / 2)
  }

  lemma {:induction false} BitOfZero(k: nat)
    ensures !Bit(0, k)
  {
    if k > 0 {
      BitOfZero(k - 1);
    }
  }

  lemma {:induction false} BitOfPow2(j: nat, k: nat)
    ensures Bit(Pow2(j), k) <==> j == k
  {
    if j == 0 {
      if k > 0 {
        BitOfZero(k - 1);
      }
    } else if k > 0 {
      BitOfPow2(j - 1, k - 1);
    }
  }

  lemma {:induction false} BitOfBitOr(a: nat, b: nat, k: nat)
    ensures Bit(BitOr(a, b), k) <==> Bit(a, k) || Bit(b, k)
    decreases a + b
  {
    if a == 0 {
      BitOfZero(k);
    } else if b == 0 {
      BitOfZero(k);
    } else if k > 0 {
      BitOfBitOr(a / 2, b / 2, k - 1);
    }
  }

  /** Adding a power of two above every bit of `x` is the same as or-ing it in. */
  lemma {:induction false} BitOrHighPow2(x: nat, k: nat)
    requires x < Pow2(k)
    ensures BitOr(x, Pow2(k)) == x + Pow2(k)
  {
    if k > 0 && x > 0 {
      BitOrHighPow2(x / 2, k - 1);
    }
  }

  /** Every flag is a power of two of at least 2: bit 0 is never a flag. */
  lemma FlagIsPowerOfTwo(f: Flag)
    ensures Code(f) == Pow2(Iota(f) + 1) && Code(f) >= 2
    ensures Bit(Code(f), Iota(f) + 1)
    ensures forall k :: k != Iota(f) + 1 ==> !Bit(Code(f), k)
  {
    ShlTwo(Iota(f));
    BitOfPow2(Iota(f) + 1, Iota(f) + 1);
    forall k | k != Iota(f) + 1 ensures !Bit(Code(f), k) {
      BitOfPow2(Iota(f) + 1, k);
    }
  }

  /** Distinct flags have distinct codes. */
  lemma FlagsAreDistinct(f: Flag, g: Flag)
    requires f != g
    ensures Code(f) != Code(g)
  {
    FlagIsPowerOfTwo(f);
    FlagIsPowerOfTwo(g);
  }

  /** The sum of the distinct flags of `fs` among the first `k` of the block. */
  function SumBelow(fs: set<Flag>, k: nat): nat
    requires k <= |AllFlags|
  {
    if k == 0 then 0
    else SumBelow(fs, k - 1) + (if AllFlags[k - 1] in fs then Code(AllFlags[k - 1]) else 0)
  }

  /** The bitwise or of the same flags. */
  function OrBelow(fs: set<Flag>, k: nat): nat
    requires k <= |AllFlags|
  {
    if k == 0 then 0
    else BitOr(OrBelow(fs, k - 1), if AllFlags[k - 1] in fs then Code(AllFlags[k - 1]) else 0)
  }

  /** The code of a set of distinct flags, each added once. */
  function SumOf(fs: set<Flag>): nat {
    SumBelow(fs, |AllFlags|)
  }

  /** The flags whose bit is set in `code`, as `code & FailX != 0` tests them. */
  function FlagsIn(code: nat): (fs: set<Flag>)
    ensures forall f :: f in fs <==> Bit(code, Iota(f) + 1)
  {
    set f | f in AllFlags && Bit(code, Iota(f) + 1)
  }

  lemma {:induction false} SumBelowIsOr(fs: set<Flag>, k: nat)
    requires k <= |AllFlags|
    ensures SumBelow(fs, k) == OrBelow(fs, k) && SumBelow(fs, k) < Pow2(k + 1)
  {
    if k > 0 {
      SumBelowIsOr(fs, k - 1);
      var f := AllFlags[k - 1];
      ShlTwo(Iota(f));
      assert Iota(f) == k - 1;
      if f in fs {
        BitOrHighPow2(SumBelow(fs, k - 1), k);
      }
    }
  }

  lemma {:induction false} BitOfOrBelow(fs: set<Flag>, k: nat, f: Flag)
    requires k <= |AllFlags|
    ensures Bit(OrBelow(fs, k), Iota(f) + 1) <==> f in fs && Iota(f) < k
  {
    if k == 0 {
      BitOfZero(Iota(f) + 1);
    } else {
      var g := AllFlags[k - 1];
      var cg := if g in fs then Code(g) else 0;
      IotaOfAllFlags(k - 1);
      BitOfOrBelow(fs, k - 1, f);
      BitOfBitOr(OrBelow(fs, k - 1), cg, Iota(f) + 1);
      if g in fs {
        ShlTwo(k - 1);
        BitOfPow2(k, Iota(f) + 1);
        assert Bit(cg, Iota(f) + 1) <==> Iota(f) == k - 1;
      } else {
        BitOfZero(Iota(f) + 1);
      }
      assert Iota(f) == k - 1 <==> f == g;
    }
  }

  /**
   * For distinct flags, summing (as the validator does) and or-ing agree,
   * and the flags can be read back from the sum bit by bit.
   */
  lemma SumOfFlags(fs: set<Flag>)
    ensures SumOf(fs) == OrBelow(fs, |AllFlags|)
    ensures FlagsIn(SumOf(fs)) == fs
  {
    SumBelowIsOr(fs, |AllFlags|);
    forall f ensures f in FlagsIn(SumOf(fs)) <==> f in fs {
      BitOfOrBelow(fs, |AllFlags|, f);
    }
  }

  lemma {:induction false} SumBelowZero(fs: set<Flag>, k: nat)
    requires k <= |AllFlags|
    ensures SumBelow(fs, k) == 0 <==> forall j :: 0 <= j < k ==> AllFlags[j] !in fs
  {
    if k > 0 {
      SumBelowZero(fs, k - 1);
      ShlTwo(Iota(AllFlags[k - 1]));
    }
  }

  /** Code 0 means "no violation": it is the sum of the empty set and of no other. */
  lemma SumOfZero(fs: set<Flag>)
    ensures SumOf(fs) == 0 <==> fs == {}
  {
    SumBelowZero(fs, |AllFlags|);
    if fs != {} {
      var f :| f in fs;
      assert AllFlags[Iota(f)] in fs;
    }
  }

  // ---------------------------------------------------------------------------
  // The e-mail pattern
  // ---------------------------------------------------------------------------

  predicate IsLetter(c: char) {
    'a' <= c <= 'z' || 'A' <= c <= 'Z'
  }

  /** `[a-zA-Z0-9._%+\-]` */
  predicate IsLocalChar(c: char) {
    IsLetter(c) || IsDigit(c) || c == '.' || c == '_' || c == '%' || c == '+' || c == '-'
  }

  /** `[a-zA-Z0-9.\-]` */
  predicate IsDomainChar(c: char) {
    IsLetter(c) || IsDigit(c) || c == '.' || c == '-'
  }

  predicate AllLocal(s: string) {
    forall k :: 0 <= k < |s| ==> IsLocalChar(s[k])
  }

  predicate AllDomain(s: string) {
    forall k :: 0 <= k < |s| ==> IsDomainChar(s[k])
  }

  predicate AllLetters(s: string) {
    forall k :: 0 <= k < |s| ==> IsLetter(s[k])
  }

  /** What `[a-zA-Z0-9.\-]+\.[a-zA-Z]{2,}` means, anchored at both ends. */
  ghost predicate DomainPattern(d: string) {
    exists j :: 1 <= j && j + 3 <= |d| && d[j] == '.' && AllDomain(d[..j]) && AllLetters(d[j + 1..])
  }

  /** What the whole anchored pattern means: a local part, '@', then a domain. */
  ghost predicate EmailPattern(s: string) {
    exists i :: 1 <= i < |s| && s[i] == '@' && AllLocal(s[..i]) && DomainPattern(s[i + 1..])
  }

  /** The domain half: the last '.' is the one before the letters. */
  predicate MatchesDomain(d: string) {
    match LastIndexOf(d, '.')
    case None => false
    case Some(j) => 1 <= j && j + 3 <= |d| && AllDomain(d[..j]) && AllLetters(d[j + 1..])
  }

  /** The compiled `emailRegexp.MatchString`: the first '@' ends the local part. */
  predicate MatchesEmail(s: string) {
    match IndexOf(s, '@')
    case None => false
    case Some(i) => 1 <= i && AllLocal(s[..i]) && MatchesDomain(s[i + 1..])
  }

  lemma MatchesDomainIsPattern(d: string)
    ensures MatchesDomain(d) <==> DomainPattern(d)
  {
    LastIndexOfSpec(d, '.');
    if DomainPattern(d) {
      var j :| 1 <= j && j + 3 <= |d| && d[j] == '.' && AllDomain(d[..j]) && AllLetters(d[j + 1..]);
      // '.' is not a letter, so the '.' at j is the last one
      assert '.' !in d[j + 1..] by {
        assert !IsLetter('.');
      }
      LastIndexOfAt(d, '.', j);
    }
  }

  /** The hand-written matcher accepts exactly the strings the pattern describes. */
  lemma MatchesEmailIsPattern(s: string)
    ensures MatchesEmail(s) <==> EmailPattern(s)
  {
    IndexOfSpec(s, '@');
    if MatchesEmail(s) {
      var i := IndexOf(s, '@').value;
      MatchesDomainIsPattern(s[i + 1..]);
    }
    if EmailPattern(s) {
      var i :| 1 <= i < |s| && s[i] == '@' && AllLocal(s[..i]) && DomainPattern(s[i + 1..]);
      // '@' is not a local character, so the '@' at i is the first one
      assert '@' !in s[..i] by {
        assert !IsLocalChar('@');
      }
      IndexOfAt(s, '@', i);
      MatchesDomainIsPattern(s[i + 1..]);
    }
  }

  /** No '@' occurs in a string the domain half accepts. */
  lemma NoAtInDomain(d: string)
    requires MatchesDomain(d)
    ensures '@' !in d
  {
    LastIndexOfSpec(d, '.');
    var j := LastIndexOf(d, '.').value;
    assert d == d[..j] + [d[j]] + d[j + 1..];
  }

  lemma CountAround(s: string, i: nat, c: char)
    requires i < |s| && s[i] == c
    ensures Count(s, c) == Count(s[..i], c) + 1 + Count(s[i + 1..], c)
  {
    assert s == s[..i] + ([s[i]] + s[i + 1..]);
    CountAppend(s[..i], [s[i]] + s[i + 1..], c);
    CountAppend([s[i]], s[i + 1..], c);
  }

  /**
   * Whatever the pattern accepts has a non-empty local part, exactly one '@',
   * and ends in '.' followed by at least two ASCII letters.
   */
  lemma EmailShape(s: string)
    requires MatchesEmail(s)
    ensures Count(s, '@') == 1
    ensures exists i :: 1 <= i < |s| && s[i] == '@'
    ensures exists j :: 0 <= j && j + 3 <= |s| && s[j] == '.' && AllLetters(s[j + 1..])
  {
    IndexOfSpec(s, '@');
    var i := IndexOf(s, '@').value;
    assert Count(s, '@') == 1 by {
      SingleAt(s, i);
    }
    var d := s[i + 1..];
    assert MatchesDomain(d);
    DomainEnding(s, i + 1);
  }

  /** A domain that ends `s` gives `s` its ending: '.' and at least two letters. */
  lemma DomainEnding(s: string, start: nat)
    requires start <= |s| && MatchesDomain(s[start..])
    ensures exists j :: 0 <= j && j + 3 <= |s| && s[j] == '.' && AllLetters(s[j + 1..])
  {
    var d := s[start..];
    LastIndexOfSpec(d, '.');
    var j := LastIndexOf(d, '.').value;
    assert s[start + j] == d[j];
    assert s[start + j + 1..] == d[j + 1..];
  }

  lemma SingleAt(s: string, i: nat)
    requires i < |s| && s[i] == '@' && '@' !in s[..i] && MatchesDomain(s[i + 1..])
    ensures Count(s, '@') == 1
  {
    CountAround(s, i, '@');
    CountAbsent(s[..i], '@');
    NoAtInDomain(s[i + 1..]);
    CountAbsent(s[i + 1..], '@');
  }

  /** A host of domain characters, a '.', and at least two letters make a domain. */
  lemma DomainOfParts(host: string, tld: string)
    requires host != [] && AllDomain(host) && |tld| >= 2 && AllLetters(tld)
    ensures MatchesDomain(host + "." + tld)
  {
    var d := host + "." + tld;
    assert d[..|host|] == host && d[|host| + 1..] == tld;
    assert '.' !in tld by {
      assert !IsLetter('.');
    }
    LastIndexOfAt(d, '.', |host|);
  }

  /** A non-empty local part, '@', and a domain make an address. */
  lemma EmailOfParts(local: string, domain: string)
    requires local != [] && AllLocal(local) && MatchesDomain(domain)
    ensures MatchesEmail(local + "@" + domain)
  {
    var s := local + "@" + domain;
    assert s[..|local|] == local && s[|local| + 1..] == domain;
    assert '@' !in local by {
      assert !IsLocalChar('@');
    }
    IndexOfAt(s, '@', |local|);
  }

  /** The address of the passing test case is accepted. */
  lemma EmailAccepts()
    ensures MatchesEmail("john@example.com")
  {
    assert MatchesDomain("example.com") by {
      assert AllDomain("example") && AllLetters("com");
      assert "example" + "." + "com" == "example.com";
      DomainOfParts("example", "com");
    }
    assert AllLocal("john");
    assert "john" + "@" + "example.com" == "john@example.com";
    EmailOfParts("john", "example.com");
  }

  /** A string without '@', the empty string in particular, is rejected. */
  lemma EmailRejects()
    ensures !MatchesEmail("invalidEmail")
    ensures !MatchesEmail("")
    ensures !MatchesEmail("bad")
  {
    IndexOfSpec("invalidEmail", '@');
    IndexOfSpec("bad", '@');
    assert '@' !in "invalidEmail";
    assert '@' !in "bad";
  }
}
