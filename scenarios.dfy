/**
 * The expectations of validate_test.go, field by field, as instances of
 * the model. The pattern tags of the tests are regular expressions; the
 * engine is a parameter, so a pattern's verdict on a string is stated as
 * PatternCode of that engine.
 */
module Scenarios {
  import opened Wrappers
  import opened Text
  import opened Consts
  import opened Values
  import opened Internal
  import opened Validator
  import opened ValidateProperties

  // ---------------------------------------------------------------------------
  // Rule tags of two and three tokens
  // ---------------------------------------------------------------------------

  lemma TwoFields(a: string, b: string)
    requires a != [] && b != [] && NoSpace(a) && NoSpace(b)
    ensures TrimSpace(a + " " + b) == a + " " + b
    ensures Fields(a + " " + b) == [a, b]
  {
    var t := a + " " + b;
    assert TrimSpace(t) == t by {
      assert t[0] == a[0] && t[|t| - 1] == b[|b| - 1];
      TrimSpaceOfTrimmed(t);
    }
    assert Fields(t) == [a, b] by {
      assert t == a + [' '] + b;
      FieldsSplit(a, ' ', b);
      FieldsOfToken(a);
      FieldsOfToken(b);
    }
  }

  /** A `req` token in front of a trimmed rule tag adds one token at the front. */
  lemma ReqPrefix(rest: string)
    requires rest != [] && TrimSpace(rest) == rest
    ensures TrimSpace("req " + rest) == "req " + rest
    ensures Fields("req " + rest) == ["req"] + Fields(rest)
  {
    var t := "req " + rest;
    TrimSpaceSpec(rest);
    assert TrimSpace(t) == t by {
      assert t[0] == 'r' && t[|t| - 1] == rest[|rest| - 1];
      TrimSpaceOfTrimmed(t);
    }
    assert Fields(t) == ["req"] + Fields(rest) by {
      assert t == "req" + [' '] + rest;
      FieldsSplit("req", ' ', rest);
      FieldsOfToken("req");
    }
  }

  lemma TwoRules(acc: int, a: string, b: string, value: Value)
    ensures Rules(acc, [a, b], value) == RuleStep(RuleStep(acc, a, value), b, value)
  {
    assert [a, b][..1] == [a];
    assert [a][..0] == [];
    assert Rules(acc, [a], value) == RuleStep(Rules(acc, [], value), a, value);
    assert Rules(acc, [a, b], value) == RuleStep(Rules(acc, [a], value), b, value);
  }

  lemma OneRule(acc: int, a: string, value: Value)
    ensures Rules(acc, [a], value) == RuleStep(acc, a, value)
  {
    assert [a][..0] == [];
  }

  /** A leading `req` token changes nothing for a non-nil field. */
  lemma ReqRule(acc: int, tokens: seq<string>, value: Value)
    ensures Rules(acc, ["req"] + tokens, value) == Rules(acc, tokens, value)
  {
    RulesAppend(acc, ["req"], tokens, value);
    OneRule(acc, "req", value);
    ParseRuleSpec("req");
  }

  lemma NoReqTwo(a: string, b: string)
    requires RuleName(a) != "req" && RuleName(b) != "req"
    ensures !HasReq([a, b])
  {
    assert forall k :: 0 <= k < 2 ==> [a, b][k] == a || [a, b][k] == b;
  }

  /** `name:N` with N written in decimal is one token with rule name `name`. */
  lemma NumericToken(name: string, n: int)
    requires name != [] && NoSpace(name) && ':' !in name
    ensures var t := name + ":" + IntToDecimal(n);
      t != [] && NoSpace(t) && RuleName(t) == name && ParseRule(t).1 == IntToDecimal(n)
  {
    var t := name + ":" + IntToDecimal(n);
    var d := IntToDecimal(n);
    assert forall i :: 0 <= i < |d| ==> IsDigit(d[i]) || d[i] == '-' by {
      if n < 0 {
        assert d == "-" + NatToDecimal(-n);
      }
    }
    assert forall i :: 0 <= i < |t| ==> (i < |name| && t[i] == name[i]) || i == |name| || t[i] == d[i - |name| - 1];
    ParseRuleJoin(name, d);
  }

  // ---------------------------------------------------------------------------
  // Rule tags of a field: `rest`, or `req` followed by `rest`
  // ---------------------------------------------------------------------------

  function RuleTag(req: bool, rest: string): string {
    if req then "req " + rest else rest
  }

  /** A non-nil field (behind any number of pointers) gets the rules of `rest`, then its pattern tag. */
  lemma TaggedValue<M>(tags: map<string, string>, tagName: string, req: bool, rest: string, n: nat, v: Value, engine: RegexpEngine<M>)
    requires rest != [] && rest != "-" && TrimSpace(rest) == rest
    requires Tag(tags, tagName) == RuleTag(req, rest)
    requires !v.Nil? && !v.To?
    ensures FieldCode(tags, tagName, PointerChain(n, v), engine)
      == PatternCheck(Rules(0, Fields(rest), v), Tag(tags, tagName + "_regexp"), Resolved(false, KindOf(v), v), engine)
  {
    DereferenceValueChain(n, v);
    if req {
      ReqPrefix(rest);
      assert |"req " + rest| > 1;
      ReqRule(0, Fields(rest), v);
    }
  }

  /** A nil pointer field is FailReq exactly when its tag starts with `req`, given that `rest` asks for none. */
  lemma TaggedNil<M>(tags: map<string, string>, tagName: string, req: bool, rest: string, n: nat, elem: Kind, engine: RegexpEngine<M>)
    requires rest != [] && rest != "-" && TrimSpace(rest) == rest && !HasReq(Fields(rest))
    requires Tag(tags, tagName) == RuleTag(req, rest)
    ensures FieldCode(tags, tagName, PointerChain(n, Nil(elem)), engine) == if req then FailReq else 0
  {
    if req {
      ReqPrefix(rest);
      assert |"req " + rest| > 1;
      NilFieldRequired(tags, tagName, n, elem, engine, 0);
    } else {
      NilField(tags, tagName, n, elem, engine);
    }
  }

  // ---------------------------------------------------------------------------
  // The rule tags of the test structs and what they compute
  // ---------------------------------------------------------------------------

  /** `lenmin:LO lenmax:HI` */
  function LengthsTag(lo: int, hi: int): string {
    "lenmin:" + IntToDecimal(lo) + " " + "lenmax:" + IntToDecimal(hi)
  }

  /** `valmin:LO valmax:HI` */
  function RangeTag(lo: int, hi: int): string {
    "valmin:" + IntToDecimal(lo) + " " + "valmax:" + IntToDecimal(hi)
  }

  /** The expected code of a string field with `lenmin:LO lenmax:HI`. */
  function LenCode(lo: int, hi: int, s: string): int {
    (if |s| < lo then FailLenMin else 0) + (if |s| > hi then FailLenMax else 0)
  }

  /** The expected code of a signed field with `valmin:LO valmax:HI`. */
  function RangeCode(lo: int, hi: int, v: int): int {
    (if v < lo then FailValMin else 0) + (if v > hi then FailValMax else 0)
  }

  function EmailCode(s: string): int {
    if MatchesEmail(s) then 0 else FailEmail
  }

  function PatternCode<M>(engine: RegexpEngine<M>, pattern: string, s: string): int {
    if PatternRejects(engine, pattern, s) then FailRegExp else 0
  }

  lemma TwoNumericTokens(a: string, b: string, lo: int, hi: int)
    requires a != [] && NoSpace(a) && ':' !in a && b != [] && NoSpace(b) && ':' !in b
    requires a != "req" && b != "req"
    ensures var x, y := a + ":" + IntToDecimal(lo), b + ":" + IntToDecimal(hi);
      x + " " + y != "-" && TrimSpace(x + " " + y) == x + " " + y
      && Fields(x + " " + y) == [x, y] && !HasReq([x, y])
  {
    var x := a + ":" + IntToDecimal(lo);
    var y := b + ":" + IntToDecimal(hi);
    NumericToken(a, lo);
    NumericToken(b, hi);
    TwoFields(x, y);
    NoReqTwo(x, y);
  }

  lemma LengthsTagSpec(lo: int, hi: int, s: string)
    requires MinInt64 <= lo <= MaxInt64 && MinInt64 <= hi <= MaxInt64
    ensures var rest := LengthsTag(lo, hi);
      rest != [] && rest != "-" && TrimSpace(rest) == rest && !HasReq(Fields(rest))
      && Rules(0, Fields(rest), Str(s)) == LenCode(lo, hi, s)
  {
    var x := "lenmin:" + IntToDecimal(lo);
    var y := "lenmax:" + IntToDecimal(hi);
    var rest := LengthsTag(lo, hi);
    assert TrimSpace(rest) == rest && Fields(rest) == [x, y] && rest != "-" && !HasReq([x, y]) by {
      assert rest == x + " " + y;
      assert "lenmin:" == "lenmin" + ":" && "lenmax:" == "lenmax" + ":";
      TwoNumericTokens("lenmin", "lenmax", lo, hi);
    }
    LengthsRules(lo, hi, s);
  }

  lemma LengthsRules(lo: int, hi: int, s: string)
    requires MinInt64 <= lo <= MaxInt64 && MinInt64 <= hi <= MaxInt64
    ensures Rules(0, ["lenmin:" + IntToDecimal(lo), "lenmax:" + IntToDecimal(hi)], Str(s)) == LenCode(lo, hi, s)
  {
    var x := "lenmin:" + IntToDecimal(lo);
    TwoRules(0, x, "lenmax:" + IntToDecimal(hi), Str(s));
    LenMinBound(0, lo, s);
    LenMaxBound(RuleStep(0, x, Str(s)), hi, s);
  }

  lemma RangeTagSpec(lo: int, hi: int, v: Int64)
    requires MinInt64 <= lo <= MaxInt64 && MinInt64 <= hi <= MaxInt64
    ensures var rest := RangeTag(lo, hi);
      rest != [] && rest != "-" && TrimSpace(rest) == rest && !HasReq(Fields(rest))
      && Rules(0, Fields(rest), Int(v)) == RangeCode(lo, hi, v)
  {
    var x := "valmin:" + IntToDecimal(lo);
    var y := "valmax:" + IntToDecimal(hi);
    var rest := RangeTag(lo, hi);
    assert TrimSpace(rest) == rest && Fields(rest) == [x, y] && rest != "-" && !HasReq([x, y]) by {
      assert rest == x + " " + y;
      assert "valmin:" == "valmin" + ":" && "valmax:" == "valmax" + ":";
      TwoNumericTokens("valmin", "valmax", lo, hi);
    }
    RangeRules(lo, hi, v);
  }

  lemma RangeRules(lo: int, hi: int, v: Int64)
    requires MinInt64 <= lo <= MaxInt64 && MinInt64 <= hi <= MaxInt64
    ensures Rules(0, ["valmin:" + IntToDecimal(lo), "valmax:" + IntToDecimal(hi)], Int(v)) == RangeCode(lo, hi, v)
  {
    var x := "valmin:" + IntToDecimal(lo);
    TwoRules(0, x, "valmax:" + IntToDecimal(hi), Int(v));
    ValMinSigned(0, lo, v);
    ValMaxSigned(RuleStep(0, x, Int(v)), hi, v);
  }

  /** A rule tag of one token that is trimmed and has no `req`. */
  lemma OneTokenTag(t: string)
    requires t != [] && t != "-" && NoSpace(t) && RuleName(t) != "req"
    ensures TrimSpace(t) == t && Fields(t) == [t] && !HasReq(Fields(t))
  {
    TrimSpaceOfNoSpace(t);
    FieldsOfToken(t);
  }

  lemma LenMaxTagSpec(hi: int, s: string)
    requires MinInt64 <= hi <= MaxInt64
    ensures var rest := "lenmax:" + IntToDecimal(hi);
      rest != "-" && TrimSpace(rest) == rest && !HasReq(Fields(rest))
      && Rules(0, Fields(rest), Str(s)) == (if |s| > hi then FailLenMax else 0)
  {
    assert "lenmax:" == "lenmax" + ":";
    NumericToken("lenmax", hi);
    OneTokenTag("lenmax:" + IntToDecimal(hi));
    OneRule(0, "lenmax:" + IntToDecimal(hi), Str(s));
    LenMaxBound(0, hi, s);
  }

  lemma EmailTagSpec(s: string)
    ensures TrimSpace("email") == "email" && !HasReq(Fields("email"))
    ensures Rules(0, Fields("email"), Str(s)) == EmailCode(s)
  {
    ParseRuleSpec("email");
    OneTokenTag("email");
    OneRule(0, "email", Str(s));
    EmailRule(0, "email", s);
  }

  /** The tag `req` alone asks for a value and checks nothing else. */
  lemma ReqTagSpec(v: Value)
    ensures TrimSpace("req") == "req" && Fields("req") == ["req"] && HasReq(Fields("req"))
    ensures Rules(0, Fields("req"), v) == 0
  {
    TrimSpaceOfNoSpace("req");
    FieldsOfToken("req");
    ReqToken(["req"], 0);
    ReqRule(0, [], v);
    assert ["req"] + [] == ["req"];
  }

  // ---------------------------------------------------------------------------
  // Field-level behaviour of each kind of rule tag used by the tests
  // ---------------------------------------------------------------------------

  /** A string field with `[req ]lenmin:LO lenmax:HI` and no pattern tag. */
  lemma LengthsField<M>(tags: map<string, string>, tagName: string, req: bool, lo: int, hi: int,
                        n: nat, s: string, elem: Kind, engine: RegexpEngine<M>)
    requires MinInt64 <= lo <= MaxInt64 && MinInt64 <= hi <= MaxInt64
    requires Tag(tags, tagName) == RuleTag(req, LengthsTag(lo, hi)) && Tag(tags, tagName + "_regexp") == ""
    ensures FieldCode(tags, tagName, PointerChain(n, Str(s)), engine) == LenCode(lo, hi, s)
    ensures FieldCode(tags, tagName, PointerChain(n, Nil(elem)), engine) == if req then FailReq else 0
  {
    LengthsTagSpec(lo, hi, s);
    TaggedValue(tags, tagName, req, LengthsTag(lo, hi), n, Str(s), engine);
    TaggedNil(tags, tagName, req, LengthsTag(lo, hi), n, elem, engine);
  }

  /** A signed field with `[req ]valmin:LO valmax:HI` and no pattern tag. */
  lemma RangeField<M>(tags: map<string, string>, tagName: string, req: bool, lo: int, hi: int,
                      n: nat, v: Int64, elem: Kind, engine: RegexpEngine<M>)
    requires MinInt64 <= lo <= MaxInt64 && MinInt64 <= hi <= MaxInt64
    requires Tag(tags, tagName) == RuleTag(req, RangeTag(lo, hi)) && Tag(tags, tagName + "_regexp") == ""
    ensures FieldCode(tags, tagName, PointerChain(n, Int(v)), engine) == RangeCode(lo, hi, v)
    ensures FieldCode(tags, tagName, PointerChain(n, Nil(elem)), engine) == if req then FailReq else 0
  {
    RangeTagSpec(lo, hi, v);
    TaggedValue(tags, tagName, req, RangeTag(lo, hi), n, Int(v), engine);
    TaggedNil(tags, tagName, req, RangeTag(lo, hi), n, elem, engine);
  }

  /** A string field with `lenmax:HI` and no pattern tag. */
  lemma LenMaxField<M>(tags: map<string, string>, tagName: string, hi: int, n: nat, s: string, elem: Kind, engine: RegexpEngine<M>)
    requires MinInt64 <= hi <= MaxInt64
    requires Tag(tags, tagName) == "lenmax:" + IntToDecimal(hi) && Tag(tags, tagName + "_regexp") == ""
    ensures FieldCode(tags, tagName, PointerChain(n, Str(s)), engine) == if |s| > hi then FailLenMax else 0
    ensures FieldCode(tags, tagName, PointerChain(n, Nil(elem)), engine) == 0
  {
    LenMaxTagSpec(hi, s);
    TaggedValue(tags, tagName, false, "lenmax:" + IntToDecimal(hi), n, Str(s), engine);
    TaggedNil(tags, tagName, false, "lenmax:" + IntToDecimal(hi), n, elem, engine);
  }

  /** A string field with `[req ]email` and no pattern tag. */
  lemma EmailField<M>(tags: map<string, string>, tagName: string, req: bool, n: nat, s: string, elem: Kind, engine: RegexpEngine<M>)
    requires Tag(tags, tagName) == RuleTag(req, "email") && Tag(tags, tagName + "_regexp") == ""
    ensures FieldCode(tags, tagName, PointerChain(n, Str(s)), engine) == EmailCode(s)
    ensures FieldCode(tags, tagName, PointerChain(n, Nil(elem)), engine) == if req then FailReq else 0
  {
    EmailTagSpec(s);
    TaggedValue(tags, tagName, req, "email", n, Str(s), engine);
    TaggedNil(tags, tagName, req, "email", n, elem, engine);
  }

  /** A string field with no rule tag and a pattern tag. */
  lemma PatternOnlyField<M>(tags: map<string, string>, tagName: string, pattern: string, n: nat, s: string, engine: RegexpEngine<M>)
    requires Tag(tags, tagName) == "" && Tag(tags, tagName + "_regexp") == pattern && pattern != ""
    ensures FieldCode(tags, tagName, PointerChain(n, Str(s)), engine) == PatternCode(engine, pattern, s)
  {
    TrimSpaceOfNoSpace("");
    PatternWithoutRules(tags, tagName, n, s, engine);
  }

  /** A string field with rule tag `req` and a pattern tag. */
  lemma ReqPatternField<M>(tags: map<string, string>, tagName: string, pattern: string, n: nat, s: string, elem: Kind, engine: RegexpEngine<M>)
    requires Tag(tags, tagName) == "req" && Tag(tags, tagName + "_regexp") == pattern && pattern != ""
    ensures FieldCode(tags, tagName, PointerChain(n, Str(s)), engine) == PatternCode(engine, pattern, s)
    ensures FieldCode(tags, tagName, PointerChain(n, Nil(elem)), engine) == FailReq
  {
    ReqTagSpec(Str(s));
    StringFieldCode(tags, tagName, n, s, engine);
    NilFieldRequired(tags, tagName, n, elem, engine, 0);
  }

  /** A field whose rule tag is one token naming no rule (Test3's Country) is never reported. */
  lemma UnknownRuleField<M>(tags: map<string, string>, tagName: string, token: string, n: nat, v: Value, elem: Kind, engine: RegexpEngine<M>)
    requires token != [] && token != "-" && NoSpace(token) && ':' !in token
    requires token !in ["req", "email", "lenmin", "lenmax", "valmin", "valmax"]
    requires Tag(tags, tagName) == token && Tag(tags, tagName + "_regexp") == ""
    requires !v.Nil? && !v.To?
    ensures FieldCode(tags, tagName, PointerChain(n, v), engine) == 0
    ensures FieldCode(tags, tagName, PointerChain(n, Nil(elem)), engine) == 0
  {
    ParseRuleSpec(token);
    OneTokenTag(token);
    OneRule(0, token, v);
    UnknownRule(0, token, v);
    TaggedValue(tags, tagName, false, token, n, v, engine);
    TaggedNil(tags, tagName, false, token, n, elem, engine);
  }

  // ---------------------------------------------------------------------------
  // The pattern tags of the test structs
  // ---------------------------------------------------------------------------

  const PostCodePattern: string := "^[0-9][0-9]-[0-9][0-9][0-9]$"
  const CountryPattern: string := "^[A-Z][A-Z]$"

  // ---------------------------------------------------------------------------
  // The tags of the test structs, spelled as the tag shapes above
  // ---------------------------------------------------------------------------

  /** The decimal spellings of the bounds of the test tags. */
  lemma SmallDecimals()
    ensures IntToDecimal(0) == "0" && IntToDecimal(2) == "2" && IntToDecimal(5) == "5"
    ensures IntToDecimal(-2) == "-2" && IntToDecimal(-6) == "-6"
  {
  }

  lemma TwoDigitDecimals()
    ensures IntToDecimal(18) == "18" && IntToDecimal(25) == "25"
    ensures IntToDecimal(40) == "40" && IntToDecimal(50) == "50"
  {
    assert NatToDecimal(1) == "1" && NatToDecimal(2) == "2";
    assert NatToDecimal(4) == "4" && NatToDecimal(5) == "5";
  }

  lemma Decimal150()
    ensures IntToDecimal(150) == "150"
  {
    assert NatToDecimal(1) == "1" && NatToDecimal(15) == "15";
  }

  lemma Decimal8000()
    ensures IntToDecimal(8000) == "8000"
  {
    assert NatToDecimal(8) == "8" && NatToDecimal(80) == "80" && NatToDecimal(800) == "800";
  }

  lemma Decimal9999()
    ensures IntToDecimal(9999) == "9999"
  {
    assert NatToDecimal(9) == "9" && NatToDecimal(99) == "99" && NatToDecimal(999) == "999";
  }

  lemma FirstNameTag()
    ensures "lenmin:5 lenmax:25" == LengthsTag(5, 25)
  {
    SmallDecimals();
    TwoDigitDecimals();
    assert "lenmin:5 lenmax:25" == "lenmin:" + "5" + " " + "lenmax:" + "25";
  }

  lemma LastNameTag()
    ensures "lenmin:2 lenmax:50" == LengthsTag(2, 50)
  {
    SmallDecimals();
    TwoDigitDecimals();
    assert "lenmin:2 lenmax:50" == "lenmin:" + "2" + " " + "lenmax:" + "50";
  }

  lemma AgeTag()
    ensures "valmin:18 valmax:150" == RangeTag(18, 150)
  {
    TwoDigitDecimals();
    Decimal150();
    assert "valmin:18 valmax:150" == "valmin:" + "18" + " " + "valmax:" + "150";
  }

  lemma PriceTag()
    ensures "valmin:0 valmax:9999" == RangeTag(0, 9999)
  {
    SmallDecimals();
    Decimal9999();
    assert "valmin:0 valmax:9999" == "valmin:" + "0" + " " + "valmax:" + "9999";
  }

  lemma BelowZeroTag()
    ensures "valmin:-6 valmax:-2" == RangeTag(-6, -2)
  {
    SmallDecimals();
    assert "valmin:-6 valmax:-2" == "valmin:" + "-6" + " " + "valmax:" + "-2";
  }

  lemma DiscountPriceTag()
    ensures "valmin:0 valmax:8000" == RangeTag(0, 8000)
  {
    SmallDecimals();
    Decimal8000();
    assert "valmin:0 valmax:8000" == "valmin:" + "0" + " " + "valmax:" + "8000";
  }

  lemma RequiredFirstNameTag()
    ensures "req lenmin:5 lenmax:25" == RuleTag(true, LengthsTag(5, 25))
  {
    FirstNameTag();
    assert "req lenmin:5 lenmax:25" == "req " + "lenmin:5 lenmax:25";
  }

  lemma RequiredAgeTag()
    ensures "req valmin:18 valmax:150" == RuleTag(true, RangeTag(18, 150))
  {
    AgeTag();
    assert "req valmin:18 valmax:150" == "req " + "valmin:18 valmax:150";
  }

  lemma CountyTag()
    ensures "lenmax:40" == "lenmax:" + IntToDecimal(40)
  {
    TwoDigitDecimals();
  }

  /** FirstName `lenmin:5 lenmax:25` in Test1: empty is too short, 30 bytes too long, "Johnny" passes. */
  lemma FirstNameCases<M>(tags: map<string, string>, engine: RegexpEngine<M>)
    requires Tag(tags, "validation") == "lenmin:5 lenmax:25" && "validation_regexp" !in tags
    ensures FieldCode(tags, "validation", Str(""), engine) == FailLenMin
    ensures FieldCode(tags, "validation", Str("123456789012345678901234567890"), engine) == FailLenMax
    ensures FieldCode(tags, "validation", Str("Johnny"), engine) == 0
  {
    assert "validation" + "_regexp" == "validation_regexp";
    FirstNameTag();
    LengthsField(tags, "validation", false, 5, 25, 0, "", StringKind, engine);
    LengthsField(tags, "validation", false, 5, 25, 0, "123456789012345678901234567890", StringKind, engine);
    LengthsField(tags, "validation", false, 5, 25, 0, "Johnny", StringKind, engine);
  }

  /** LastName `lenmin:2 lenmax:50` in Test1: empty and "b" are too short, "Smith" passes. */
  lemma LastNameCases<M>(tags: map<string, string>, engine: RegexpEngine<M>)
    requires Tag(tags, "validation") == "lenmin:2 lenmax:50" && "validation_regexp" !in tags
    ensures FieldCode(tags, "validation", Str(""), engine) == FailLenMin
    ensures FieldCode(tags, "validation", Str("b"), engine) == FailLenMin
    ensures FieldCode(tags, "validation", Str("Smith"), engine) == 0
  {
    assert "validation" + "_regexp" == "validation_regexp";
    LastNameTag();
    LengthsField(tags, "validation", false, 2, 50, 0, "", StringKind, engine);
    LengthsField(tags, "validation", false, 2, 50, 0, "b", StringKind, engine);
    LengthsField(tags, "validation", false, 2, 50, 0, "Smith", StringKind, engine);
  }

  /** Age `valmin:18 valmax:150` in Test1: 0 and 15 are too small, 35 passes. */
  lemma AgeCases<M>(tags: map<string, string>, engine: RegexpEngine<M>)
    requires Tag(tags, "validation") == "valmin:18 valmax:150" && "validation_regexp" !in tags
    ensures FieldCode(tags, "validation", Int(0), engine) == FailValMin
    ensures FieldCode(tags, "validation", Int(15), engine) == FailValMin
    ensures FieldCode(tags, "validation", Int(35), engine) == 0
  {
    assert "validation" + "_regexp" == "validation_regexp";
    AgeTag();
    RangeField(tags, "validation", false, 18, 150, 0, 0, IntKind, engine);
    RangeField(tags, "validation", false, 18, 150, 0, 15, IntKind, engine);
    RangeField(tags, "validation", false, 18, 150, 0, 35, IntKind, engine);
  }

  /** BelowZero `valmin:-6 valmax:-2` in Test1: 0 and 8 are too large, -4 passes. */
  lemma BelowZeroCases<M>(tags: map<string, string>, engine: RegexpEngine<M>)
    requires Tag(tags, "validation") == "valmin:-6 valmax:-2" && "validation_regexp" !in tags
    ensures FieldCode(tags, "validation", Int(0), engine) == FailValMax
    ensures FieldCode(tags, "validation", Int(8), engine) == FailValMax
    ensures FieldCode(tags, "validation", Int(-4), engine) == 0
  {
    assert "validation" + "_regexp" == "validation_regexp";
    BelowZeroTag();
    RangeField(tags, "validation", false, -6, -2, 0, 0, IntKind, engine);
    RangeField(tags, "validation", false, -6, -2, 0, 8, IntKind, engine);
    RangeField(tags, "validation", false, -6, -2, 0, -4, IntKind, engine);
  }

  /** Price `valmin:0 valmax:9999` in Test1: 0 is within the inclusive bounds. */
  lemma PriceCases<M>(tags: map<string, string>, engine: RegexpEngine<M>)
    requires Tag(tags, "validation") == "valmin:0 valmax:9999" && "validation_regexp" !in tags
    ensures FieldCode(tags, "validation", Int(0), engine) == 0
  {
    assert "validation" + "_regexp" == "validation_regexp";
    PriceTag();
    RangeField(tags, "validation", false, 0, 9999, 0, 0, IntKind, engine);
  }

  /** DiscountPrice `valmin:0 valmax:8000` in Test1: both bounds are inclusive, 9999 is too large. */
  lemma DiscountPriceCases<M>(tags: map<string, string>, engine: RegexpEngine<M>)
    requires Tag(tags, "validation") == "valmin:0 valmax:8000" && "validation_regexp" !in tags
    ensures FieldCode(tags, "validation", Int(0), engine) == 0
    ensures FieldCode(tags, "validation", Int(8000), engine) == 0
    ensures FieldCode(tags, "validation", Int(9999), engine) == FailValMax
  {
    assert "validation" + "_regexp" == "validation_regexp";
    DiscountPriceTag();
    RangeField(tags, "validation", false, 0, 8000, 0, 0, IntKind, engine);
    RangeField(tags, "validation", false, 0, 8000, 0, 8000, IntKind, engine);
    RangeField(tags, "validation", false, 0, 8000, 0, 9999, IntKind, engine);
  }

  /** Email `email` in Test1: empty and "invalidEmail" fail, "john@example.com" passes. */
  lemma EmailCases<M>(tags: map<string, string>, engine: RegexpEngine<M>)
    requires Tag(tags, "validation") == "email" && "validation_regexp" !in tags
    ensures FieldCode(tags, "validation", Str(""), engine) == FailEmail
    ensures FieldCode(tags, "validation", Str("invalidEmail"), engine) == FailEmail
    ensures FieldCode(tags, "validation", Str("john@example.com"), engine) == 0
  {
    assert "validation" + "_regexp" == "validation_regexp";
    EmailRejects();
    EmailAccepts();
    EmailField(tags, "validation", false, 0, "", StringKind, engine);
    EmailField(tags, "validation", false, 0, "invalidEmail", StringKind, engine);
    EmailField(tags, "validation", false, 0, "john@example.com", StringKind, engine);
  }

  /** County `lenmax:40` in Test1: empty and "Enfield" pass. */
  lemma CountyCases<M>(tags: map<string, string>, engine: RegexpEngine<M>)
    requires Tag(tags, "validation") == "lenmax:40" && "validation_regexp" !in tags
    ensures FieldCode(tags, "validation", Str(""), engine) == 0
    ensures FieldCode(tags, "validation", Str("Enfield"), engine) == 0
  {
    assert "validation" + "_regexp" == "validation_regexp";
    CountyTag();
    LenMaxField(tags, "validation", 40, 0, "", StringKind, engine);
    LenMaxField(tags, "validation", 40, 0, "Enfield", StringKind, engine);
  }

  /**
   * Test3's FirstName `mytag:"req lenmin:5 lenmax:25"` on a `*string`: nil is
   * FailReq, a pointer to "a" is too short; Test2's plain string with the
   * same tag and 30 bytes is too long.
   */
  lemma RequiredFirstNameCases<M>(tags: map<string, string>, engine: RegexpEngine<M>)
    requires Tag(tags, "mytag") == "req lenmin:5 lenmax:25" && "mytag_regexp" !in tags
    ensures FieldCode(tags, "mytag", Nil(StringKind), engine) == FailReq
    ensures FieldCode(tags, "mytag", To(Str("a")), engine) == FailLenMin
    ensures FieldCode(tags, "mytag", Str("123456789012345678901234567890"), engine) == FailLenMax
  {
    assert "mytag" + "_regexp" == "mytag_regexp";
    RequiredFirstNameTag();
    assert PointerChain(1, Str("a")) == To(Str("a"));
    LengthsField(tags, "mytag", true, 5, 25, 1, "a", StringKind, engine);
    LengthsField(tags, "mytag", true, 5, 25, 0, "123456789012345678901234567890", StringKind, engine);
  }

  /** Test3's LastName `mytag:"lenmin:2 lenmax:50"` has no `req`: a nil pointer is not reported. */
  lemma OptionalLastNameCases<M>(tags: map<string, string>, engine: RegexpEngine<M>)
    requires Tag(tags, "mytag") == "lenmin:2 lenmax:50" && "mytag_regexp" !in tags
    ensures FieldCode(tags, "mytag", Nil(StringKind), engine) == 0
  {
    assert "mytag" + "_regexp" == "mytag_regexp";
    LastNameTag();
    LengthsField(tags, "mytag", false, 2, 50, 0, "", StringKind, engine);
  }

  /** Test3's Age `mytag:"req valmin:18 valmax:150"` on an `*int`: nil is FailReq, a pointer to 3 is too small. */
  lemma RequiredAgeCases<M>(tags: map<string, string>, engine: RegexpEngine<M>)
    requires Tag(tags, "mytag") == "req valmin:18 valmax:150" && "mytag_regexp" !in tags
    ensures FieldCode(tags, "mytag", Nil(IntKind), engine) == FailReq
    ensures FieldCode(tags, "mytag", To(Int(3)), engine) == FailValMin
  {
    assert "mytag" + "_regexp" == "mytag_regexp";
    RequiredAgeTag();
    assert PointerChain(1, Int(3)) == To(Int(3));
    RangeField(tags, "mytag", true, 18, 150, 1, 3, IntKind, engine);
  }

  /** Test3's PostCode `mytag:"req"` with a pattern tag: nil is FailReq, a pointer to a string is matched. */
  lemma RequiredPostCodeCases<M>(tags: map<string, string>, s: string, engine: RegexpEngine<M>)
    requires Tag(tags, "mytag") == "req" && Tag(tags, "mytag_regexp") == PostCodePattern
    ensures FieldCode(tags, "mytag", Nil(StringKind), engine) == FailReq
    ensures FieldCode(tags, "mytag", To(Str(s)), engine) == PatternCode(engine, PostCodePattern, s)
  {
    assert "mytag" + "_regexp" == "mytag_regexp";
    assert PointerChain(1, Str(s)) == To(Str(s));
    ReqPatternField(tags, "mytag", PostCodePattern, 1, s, StringKind, engine);
  }

  /** Test3's Email `mytag:"req email"`: nil is FailReq. */
  lemma RequiredEmailCases<M>(tags: map<string, string>, engine: RegexpEngine<M>)
    requires Tag(tags, "mytag") == "req email" && "mytag_regexp" !in tags
    ensures FieldCode(tags, "mytag", Nil(StringKind), engine) == FailReq
  {
    assert "mytag" + "_regexp" == "mytag_regexp";
    assert "req email" == RuleTag(true, "email");
    EmailField(tags, "mytag", true, 0, "", StringKind, engine);
  }

  /** Test3's Country carries its pattern as a rule tag `mytag:"^[A-Z][A-Z]$"`, which names no rule: never reported. */
  lemma PatternAsRuleCases<M>(tags: map<string, string>, s: string, engine: RegexpEngine<M>)
    requires Tag(tags, "mytag") == CountryPattern && "mytag_regexp" !in tags
    ensures FieldCode(tags, "mytag", Nil(StringKind), engine) == 0
    ensures FieldCode(tags, "mytag", To(Str(s)), engine) == 0
  {
    assert "mytag" + "_regexp" == "mytag_regexp";
    assert PointerChain(1, Str(s)) == To(Str(s));
    assert ':' !in CountryPattern;
    UnknownRuleField(tags, "mytag", CountryPattern, 1, Str(s), StringKind, engine);
    UnknownRuleField(tags, "mytag", CountryPattern, 0, Str(s), StringKind, engine);
  }

  // ---------------------------------------------------------------------------
  // A bound too large for 64 bits
  // ---------------------------------------------------------------------------

  const TwentyNines: string := "99999999999999999999"

  lemma Pow10Of19()
    ensures Pow10(19) == 10_000_000_000_000_000_000
  {
    assert Pow10(1) == 10;
    assert Pow10(2) == 100;
    assert Pow10(3) == 1000;
    assert Pow10(4) == 10000;
    assert Pow10(5) == 100000;
    assert Pow10(6) == 1000000;
    assert Pow10(7) == 10000000;
    assert Pow10(8) == 100000000;
    assert Pow10(9) == 1000000000;
    assert Pow10(10) == 10000000000;
    assert Pow10(11) == 100000000000;
    assert Pow10(12) == 1000000000000;
    assert Pow10(13) == 10000000000000;
    assert Pow10(14) == 100000000000000;
    assert Pow10(15) == 1000000000000000;
    assert Pow10(16) == 10000000000000000;
    assert Pow10(17) == 100000000000000000;
    assert Pow10(18) == 1000000000000000000;
    assert Pow10(19) == 10000000000000000000;
  }

  /** Twenty digits starting with 9 exceed the largest uint64. */
  lemma LeadingNineOverflow(s: string)
    requires IsDecimal(s) && |s| == 20 && s[0] == '9'
    ensures DecimalValue(s) > MaxUint64
  {
    var tail := s[1..];
    assert s == ['9'] + tail;
    DecimalValueCons('9', tail);
    Pow10Of19();
  }

  lemma TwentyNinesOverflow()
    ensures IsDecimal(TwentyNines) && DecimalValue(TwentyNines) > MaxUint64
  {
    LeadingNineOverflow(TwentyNines);
  }

  /**
   * `lenmin:99999999999999999999x` fails a one-byte string: the digits
   * overflow before the trailing `x` is read, so the bound is the largest int64.
   */
  lemma OverflowingLenMin()
    ensures ParseUint(TwentyNines + "x") == MaxUint64
    ensures ParseInt(TwentyNines + "x") == MaxInt64
    ensures RuleStep(0, "lenmin:" + (TwentyNines + "x"), Str("a")) == FailLenMin
  {
    TwentyNinesOverflow();
    ParseUintOverflowFirst(TwentyNines, "x");
    ParseIntOverflowFirst(TwentyNines + "x", TwentyNines, "x");
    LenMinOverflow(0, TwentyNines, "x", "a");
  }

  /** The tag `lenmin:99999999999999999999x` is one token whose rule fails a one-byte string. */
  lemma OverflowingLenMinTag()
    ensures var t := "lenmin:" + (TwentyNines + "x");
      t != "-" && TrimSpace(t) == t && Rules(0, Fields(t), Str("a")) == FailLenMin
  {
    var arg := TwentyNines + "x";
    var t := "lenmin:" + arg;
    assert "lenmin:" == "lenmin" + ":";
    ParseRuleJoin("lenmin", arg);
    TwentyNinesOverflow();
    assert NoSpace(arg) by {
      assert forall i :: 0 <= i < |arg| ==> (i < 20 && arg[i] == TwentyNines[i]) || arg[i] == 'x';
    }
    assert NoSpace("lenmin:");
    assert forall i :: 0 <= i < |t| ==> (i < 7 && t[i] == "lenmin:"[i]) || t[i] == arg[i - 7];
    OneTokenTag(t);
    OneRule(0, t, Str("a"));
    OverflowingLenMin();
  }

  /** The end-to-end verdict: a one-byte string field tagged `lenmin:99999999999999999999x` fails. */
  lemma OverflowingLenMinField<M>(tags: map<string, string>, tagName: string, n: nat, engine: RegexpEngine<M>)
    requires Tag(tags, tagName) == "lenmin:" + (TwentyNines + "x") && Tag(tags, tagName + "_regexp") == ""
    ensures FieldCode(tags, tagName, PointerChain(n, Str("a")), engine) == FailLenMin
  {
    OverflowingLenMinTag();
    TaggedValue(tags, tagName, false, "lenmin:" + (TwentyNines + "x"), n, Str("a"), engine);
  }
}
