/**
 * Properties of what ValidateField and Validate compute (the functions
 * FieldCode and ValidateResult of module Validator): the skip marker, nil
 * pointers, the inclusive bounds, the kind checks, the fold over the rule
 * tokens, the pattern tag, and the field selection and input errors of
 * Validate.
 */
module ValidateProperties {
  import opened Wrappers
  import opened Text
  import opened Consts
  import opened Values
  import opened Internal
  import opened Validator

  // ---------------------------------------------------------------------------
  // The skip marker and nil pointers
  // ---------------------------------------------------------------------------

  /** A rule tag of `-` (after trimming) passes whatever the value and whatever the pattern tag says. */
  lemma SkipMarker<M>(tags: map<string, string>, tagName: string, value: Value, engine: RegexpEngine<M>, pattern: string)
    requires TrimSpace(Tag(tags, tagName)) == "-"
    ensures FieldCode(tags, tagName, value, engine) == 0
    ensures FieldCode(tags[tagName + "_regexp" := pattern], tagName, value, engine) == 0
  {
    assert |tagName + "_regexp"| > |tagName|;
    assert Tag(tags[tagName + "_regexp" := pattern], tagName) == Tag(tags, tagName);
  }

  /**
   * A nil pointer at any depth gets FailReq, once, when some token of its rule
   * tag is named `req`, and 0 otherwise: no other rule and no pattern is read.
   */
  lemma NilField<M>(tags: map<string, string>, tagName: string, n: nat, elem: Kind, engine: RegexpEngine<M>)
    requires TrimSpace(Tag(tags, tagName)) != "-"
    ensures FieldCode(tags, tagName, PointerChain(n, Nil(elem)), engine)
      == (if HasReq(Fields(TrimSpace(Tag(tags, tagName)))) then FailReq else 0)
  {
    DereferenceNilChain(n, elem);
  }

  /** A token `req`, wherever it stands, makes the nil-pointer code exactly FailReq. */
  lemma NilFieldRequired<M>(tags: map<string, string>, tagName: string, n: nat, elem: Kind, engine: RegexpEngine<M>, k: nat)
    requires TrimSpace(Tag(tags, tagName)) != "-"
    requires k < |Fields(TrimSpace(Tag(tags, tagName)))| && Fields(TrimSpace(Tag(tags, tagName)))[k] == "req"
    ensures FieldCode(tags, tagName, PointerChain(n, Nil(elem)), engine) == FailReq
  {
    NilField(tags, tagName, n, elem, engine);
    ReqToken(Fields(TrimSpace(Tag(tags, tagName))), k);
  }

  lemma ReqToken(tokens: seq<string>, k: nat)
    requires k < |tokens| && tokens[k] == "req"
    ensures HasReq(tokens)
  {
    ParseRuleSpec("req");
    assert ParseRule(tokens[k]).0 == "req";
  }

  // ---------------------------------------------------------------------------
  // One rule token
  // ---------------------------------------------------------------------------

  /** The name a token is split into. */
  function RuleName(token: string): string {
    ParseRule(token).0
  }

  /** A `valmin`/`valmax` token on a value that is neither signed nor unsigned. */
  predicate Resets(token: string, concrete: Value) {
    (RuleName(token) == "valmin" || RuleName(token) == "valmax") && !concrete.Int? && !concrete.Uint?
  }

  /** `lenmin:N` compares the byte length with N inclusively. */
  lemma LenMinBound(acc: int, n: int, s: string)
    requires MinInt64 <= n <= MaxInt64
    ensures RuleStep(acc, "lenmin:" + IntToDecimal(n), Str(s)) == acc + (if |s| < n then FailLenMin else 0)
  {
    assert "lenmin:" == "lenmin" + ":";
    ParseRuleJoin("lenmin", IntToDecimal(n));
    ParseIntRoundTrip(n);
  }

  /** `lenmax:N` compares the byte length with N inclusively. */
  lemma LenMaxBound(acc: int, n: int, s: string)
    requires MinInt64 <= n <= MaxInt64
    ensures RuleStep(acc, "lenmax:" + IntToDecimal(n), Str(s)) == acc + (if |s| > n then FailLenMax else 0)
  {
    assert "lenmax:" == "lenmax" + ":";
    ParseRuleJoin("lenmax", IntToDecimal(n));
    ParseIntRoundTrip(n);
  }

  /** `valmin:N` on a signed value compares it with N inclusively. */
  lemma ValMinSigned(acc: int, n: int, v: Int64)
    requires MinInt64 <= n <= MaxInt64
    ensures RuleStep(acc, "valmin:" + IntToDecimal(n), Int(v)) == acc + (if v < n then FailValMin else 0)
  {
    assert "valmin:" == "valmin" + ":";
    ParseRuleJoin("valmin", IntToDecimal(n));
    ParseIntRoundTrip(n);
  }

  /** `valmax:N` on a signed value compares it with N inclusively. */
  lemma ValMaxSigned(acc: int, n: int, v: Int64)
    requires MinInt64 <= n <= MaxInt64
    ensures RuleStep(acc, "valmax:" + IntToDecimal(n), Int(v)) == acc + (if v > n then FailValMax else 0)
  {
    assert "valmax:" == "valmax" + ":";
    ParseRuleJoin("valmax", IntToDecimal(n));
    ParseIntRoundTrip(n);
  }

  /** `valmin:N` on an unsigned value compares it with N inclusively. */
  lemma ValMinUnsigned(acc: int, n: nat, v: Uint64)
    requires n <= MaxUint64
    ensures RuleStep(acc, "valmin:" + NatToDecimal(n), Uint(v)) == acc + (if v < n then FailValMin else 0)
  {
    assert "valmin:" == "valmin" + ":";
    ParseRuleJoin("valmin", NatToDecimal(n));
    ParseUintRoundTrip(n);
  }

  /** `valmax:N` on an unsigned value compares it with N inclusively. */
  lemma ValMaxUnsigned(acc: int, n: nat, v: Uint64)
    requires n <= MaxUint64
    ensures RuleStep(acc, "valmax:" + NatToDecimal(n), Uint(v)) == acc + (if v > n then FailValMax else 0)
  {
    assert "valmax:" == "valmax" + ":";
    ParseRuleJoin("valmax", NatToDecimal(n));
    ParseUintRoundTrip(n);
  }

  /** A signed bound on an unsigned value: ParseUint reads a negative bound as 0. */
  lemma UnsignedNegativeBound(acc: int, n: nat, v: Uint64)
    ensures RuleStep(acc, "valmin:-" + NatToDecimal(n), Uint(v)) == acc
  {
    assert "valmin:-" + NatToDecimal(n) == "valmin" + ":" + ([ '-' ] + NatToDecimal(n));
    ParseRuleJoin("valmin", [ '-' ] + NatToDecimal(n));
    ParseUintRejectsSign('-', n);
  }

  /**
   * A `lenmin` bound whose leading digits overflow reads as the largest int64
   * even when a non-digit follows them, so every string shorter than that fails.
   */
  lemma LenMinOverflow(acc: int, digits: string, rest: string, s: string)
    requires IsDecimal(digits) && DecimalValue(digits) > MaxUint64
    requires rest == [] || !IsDigit(rest[0])
    requires |s| < MaxInt64
    ensures RuleStep(acc, "lenmin:" + (digits + rest), Str(s)) == acc + FailLenMin
  {
    assert "lenmin:" == "lenmin" + ":";
    ParseRuleJoin("lenmin", digits + rest);
    ParseIntOverflowFirst(digits + rest, digits, rest);
  }

  /**
   * A `lenmax` bound made of in-range digits and then a non-digit is a syntax
   * error, read as 0, so every non-empty string fails.
   */
  lemma LenMaxSyntaxError(acc: int, digits: string, rest: string, s: string)
    requires forall i :: 0 <= i < |digits| ==> IsDigit(digits[i])
    requires DecimalValue(digits) <= MaxUint64
    requires rest != [] && !IsDigit(rest[0]) && rest[0] != '+' && rest[0] != '-'
    ensures RuleStep(acc, "lenmax:" + (digits + rest), Str(s)) == acc + (if |s| > 0 then FailLenMax else 0)
  {
    assert "lenmax:" == "lenmax" + ":";
    ParseRuleJoin("lenmax", digits + rest);
    ParseIntSyntaxError(digits, rest);
    assert RuleStep(acc, "lenmax:" + (digits + rest), Str(s)) == ApplyRule(acc, "lenmax", digits + rest, Str(s));
  }

  /** `email` on a string adds FailEmail exactly when the e-mail pattern rejects it. */
  lemma EmailRule(acc: int, token: string, s: string)
    requires RuleName(token) == "email"
    ensures RuleStep(acc, token, Str(s)) == acc + (if MatchesEmail(s) then 0 else FailEmail)
  {
  }

  /** `email`, `lenmin` and `lenmax` on anything but a string add FailType and keep what was there. */
  lemma WrongKindForString(acc: int, token: string, concrete: Value)
    requires RuleName(token) == "email" || RuleName(token) == "lenmin" || RuleName(token) == "lenmax"
    requires !concrete.Str?
    ensures RuleStep(acc, token, concrete) == acc + FailType
  {
  }

  /** `valmin` and `valmax` on a non-numeric value set the code to FailType, discarding `acc`. */
  lemma WrongKindForNumber(acc: int, token: string, concrete: Value)
    requires Resets(token, concrete)
    ensures RuleStep(acc, token, concrete) == FailType
  {
  }

  /** A token whose name is not a rule changes nothing. */
  lemma UnknownRule(acc: int, token: string, concrete: Value)
    requires RuleName(token) !in ["email", "lenmin", "lenmax", "valmin", "valmax"]
    ensures RuleStep(acc, token, concrete) == acc
  {
    assert RuleName(token) != "email" && RuleName(token) != "lenmin" && RuleName(token) != "lenmax";
    assert RuleName(token) != "valmin" && RuleName(token) != "valmax";
  }

  /** A step that does not reset adds to `acc` a contribution that does not depend on `acc`. */
  lemma StepShift(acc: int, d: int, token: string, concrete: Value)
    requires !Resets(token, concrete)
    ensures RuleStep(acc + d, token, concrete) == RuleStep(acc, token, concrete) + d
    ensures RuleStep(acc, token, concrete) >= acc
  {
  }

  // ---------------------------------------------------------------------------
  // The fold over the tokens
  // ---------------------------------------------------------------------------

  /** The tokens are applied left to right: a tag split in two is the second half applied after the first. */
  lemma {:induction false} RulesAppend(acc: int, a: seq<string>, b: seq<string>, concrete: Value)
    ensures Rules(acc, a + b, concrete) == Rules(Rules(acc, a, concrete), b, concrete)
    decreases |b|
  {
    if b == [] {
      assert a + b == a;
    } else {
      var ab := a + b;
      assert ab[..|ab| - 1] == a + b[..|b| - 1];
      assert ab[|ab| - 1] == b[|b| - 1];
      RulesAppend(acc, a, b[..|b| - 1], concrete);
    }
  }

  /** Without a resetting token, the flags already present are carried through unchanged. */
  lemma {:induction false} RulesShift(acc: int, d: int, tokens: seq<string>, concrete: Value)
    requires forall k :: 0 <= k < |tokens| ==> !Resets(tokens[k], concrete)
    ensures Rules(acc + d, tokens, concrete) == Rules(acc, tokens, concrete) + d
    ensures Rules(acc, tokens, concrete) >= acc
    decreases |tokens|
  {
    if tokens != [] {
      var init := tokens[..|tokens| - 1];
      RulesShift(acc, d, init, concrete);
      StepShift(Rules(acc, init, concrete), d, tokens[|tokens| - 1], concrete);
    }
  }

  /**
   * A resetting token at position k makes everything before it irrelevant:
   * the code is FailType followed by the remaining tokens.
   */
  lemma RulesReset(acc: int, tokens: seq<string>, k: nat, concrete: Value)
    requires k < |tokens| && Resets(tokens[k], concrete)
    ensures Rules(acc, tokens, concrete) == Rules(FailType, tokens[k + 1..], concrete)
  {
    assert tokens == tokens[..k + 1] + tokens[k + 1..];
    RulesAppend(acc, tokens[..k + 1], tokens[k + 1..], concrete);
    assert tokens[..k + 1][..k] == tokens[..k];
  }

  /** The code is never negative. */
  lemma {:induction false} RulesNonNegative(acc: int, tokens: seq<string>, concrete: Value)
    requires acc >= 0
    ensures Rules(acc, tokens, concrete) >= 0
    decreases |tokens|
  {
    if tokens != [] {
      RulesNonNegative(acc, tokens[..|tokens| - 1], concrete);
    }
  }

  // ---------------------------------------------------------------------------
  // Whole fields
  // ---------------------------------------------------------------------------

  /** The pattern engine fails to compile `pattern` or the compiled program does not match `s`. */
  predicate PatternRejects<M>(engine: RegexpEngine<M>, pattern: string, s: string) {
    engine.compile(pattern).None? || !engine.matchString(engine.compile(pattern).value, s)
  }

  /**
   * For a string behind any number of pointers, the pattern tag adds FailRegExp
   * exactly when it is present and rejects the string, on top of the rule tag.
   */
  lemma PatternOnStrings<M>(tags: map<string, string>, tagName: string, n: nat, s: string, engine: RegexpEngine<M>)
    requires TrimSpace(Tag(tags, tagName)) != "-"
    ensures var pattern := Tag(tags, tagName + "_regexp");
      FieldCode(tags, tagName, PointerChain(n, Str(s)), engine)
        == TagCode(TrimSpace(Tag(tags, tagName)), Resolved(false, StringKind, Str(s)))
           + (if pattern != "" && PatternRejects(engine, pattern, s) then FailRegExp else 0)
  {
    StringFieldCode(tags, tagName, n, s, engine);
  }

  lemma StringFieldCode<M>(tags: map<string, string>, tagName: string, n: nat, s: string, engine: RegexpEngine<M>)
    requires TrimSpace(Tag(tags, tagName)) != "-"
    ensures FieldCode(tags, tagName, PointerChain(n, Str(s)), engine)
      == PatternCheck(TagCode(TrimSpace(Tag(tags, tagName)), Resolved(false, StringKind, Str(s))),
                      Tag(tags, tagName + "_regexp"), Resolved(false, StringKind, Str(s)), engine)
  {
    DereferenceValueChain(n, Str(s));
  }

  /** With an empty or missing rule tag a string field is still checked against its pattern tag. */
  lemma PatternWithoutRules<M>(tags: map<string, string>, tagName: string, n: nat, s: string, engine: RegexpEngine<M>)
    requires TrimSpace(Tag(tags, tagName)) == ""
    ensures var pattern := Tag(tags, tagName + "_regexp");
      FieldCode(tags, tagName, PointerChain(n, Str(s)), engine)
        == (if pattern != "" && PatternRejects(engine, pattern, s) then FailRegExp else 0)
  {
    PatternOnStrings(tags, tagName, n, s, engine);
    assert TagCode("", Resolved(false, StringKind, Str(s))) == 0;
  }

  /** For a nil pointer or a value that is not a string the pattern tag is never read. */
  lemma PatternIgnored<M>(tags: map<string, string>, tagName: string, value: Value, engine: RegexpEngine<M>)
    requires !DereferenceKind(value).concrete.Str?
    ensures FieldCode(tags, tagName, value, engine) == FieldCode(tags - {tagName + "_regexp"}, tagName, value, engine)
  {
    assert |tagName + "_regexp"| > |tagName|;
    assert Tag(tags - {tagName + "_regexp"}, tagName) == Tag(tags, tagName);
  }

  /** A field whose rule tag is a single token and that has no pattern tag gets the code of that token alone. */
  lemma SingleToken<M>(tags: map<string, string>, tagName: string, value: Value, engine: RegexpEngine<M>)
    requires Tag(tags, tagName) != [] && NoSpace(Tag(tags, tagName)) && Tag(tags, tagName) != "-"
    requires Tag(tags, tagName + "_regexp") == ""
    requires !value.Nil? && !value.To?
    ensures FieldCode(tags, tagName, value, engine) == RuleStep(0, Tag(tags, tagName), value)
  {
    var token := Tag(tags, tagName);
    var r := DereferenceKind(value);
    assert r == Resolved(false, KindOf(value), value);
    TrimSpaceOfNoSpace(token);
    FieldsOfToken(token);
    assert [token][..0] == [];
    assert Rules(0, [token], value) == RuleStep(Rules(0, [], value), token, value);
    assert TagCode(token, r) == Rules(0, [token], value);
  }

  // ---------------------------------------------------------------------------
  // Validate
  // ---------------------------------------------------------------------------

  /** A nil pointer anywhere in the chain handed to Validate is an input error. */
  lemma {:induction false} NilInput<M>(n: nat, elem: Kind, options: Option<ValidateOptions>, engine: RegexpEngine<M>)
    ensures ValidateResult(PointerChain(n, Nil(elem)), options, engine) == Report(false, None, Some(NilPointer))
  {
    NilResolve(n, elem);
  }

  lemma {:induction false} NilResolve(n: nat, elem: Kind)
    ensures ResolveRecord(PointerChain(n, Nil(elem))) == Rejected(NilPointer)
  {
    if n > 0 {
      NilResolve(n - 1, elem);
    }
  }

  /** Anything but a struct, behind any number of pointers, is an input error naming its kind. */
  lemma {:induction false} NotStructInput<M>(n: nat, v: Value, options: Option<ValidateOptions>, engine: RegexpEngine<M>)
    requires !v.Record? && !v.Nil? && !v.To?
    ensures ValidateResult(PointerChain(n, v), options, engine) == Report(false, None, Some(NotStruct(KindOf(v))))
  {
    ValueResolve(n, v);
  }

  lemma {:induction false} ValueResolve(n: nat, v: Value)
    requires !v.Nil? && !v.To?
    ensures ResolveRecord(PointerChain(n, v)) == ResolveRecord(v)
  {
    if n > 0 {
      ValueResolve(n - 1, v);
    }
  }

  /** A struct behind any number of pointers is validated as the struct itself. */
  lemma StructBehindPointers<M>(n: nat, fields: seq<Field>, options: Option<ValidateOptions>, engine: RegexpEngine<M>)
    ensures ValidateResult(PointerChain(n, Record(fields)), options, engine)
      == Report(AllPass(fields, OptionsOrDefault(options), engine),
                Some(Collect(fields, OptionsOrDefault(options), engine)), None)
  {
    ValueResolve(n, Record(fields));
  }

  /** overallOk holds exactly when no field is reported. */
  lemma {:induction false} CollectEmptyIffAllPass<M>(fields: seq<Field>, opts: ValidateOptions, engine: RegexpEngine<M>)
    ensures Collect(fields, opts, engine) == map[] <==> AllPass(fields, opts, engine)
    decreases |fields|
  {
    if fields != [] {
      var init := fields[..|fields| - 1];
      var f := fields[|fields| - 1];
      CollectEmptyIffAllPass(init, opts, engine);
      if FieldVerdict(f, opts, engine) != 0 {
        assert f.name in Collect(fields, opts, engine);
      }
    }
  }

  /** overallOk holds exactly when every field's verdict is 0. */
  lemma {:induction false} AllPassEvery<M>(fields: seq<Field>, opts: ValidateOptions, engine: RegexpEngine<M>)
    ensures AllPass(fields, opts, engine) <==> forall k :: 0 <= k < |fields| ==> FieldVerdict(fields[k], opts, engine) == 0
    decreases |fields|
  {
    if fields != [] {
      var init := fields[..|fields| - 1];
      var last := |fields| - 1;
      AllPassEvery(init, opts, engine);
      if AllPass(fields, opts, engine) {
        forall k | 0 <= k < |fields| ensures FieldVerdict(fields[k], opts, engine) == 0 {
          if k < last {
            assert fields[k] == init[k];
          }
        }
      } else if FieldVerdict(fields[last], opts, engine) == 0 {
        var k :| 0 <= k < |init| && FieldVerdict(init[k], opts, engine) != 0;
        assert fields[k] == init[k];
      }
    }
  }

  /** Every reported code is nonzero, and every reported name belongs to a selected field that failed. */
  lemma {:induction false} CollectEntries<M>(fields: seq<Field>, opts: ValidateOptions, engine: RegexpEngine<M>)
    ensures forall name :: name in Collect(fields, opts, engine) ==> Collect(fields, opts, engine)[name] != 0
    ensures forall name :: name in Collect(fields, opts, engine) ==>
      exists k :: 0 <= k < |fields| && fields[k].name == name && Selected(fields[k], opts)
                  && FieldVerdict(fields[k], opts, engine) == Collect(fields, opts, engine)[name]
    decreases |fields|
  {
    if fields != [] {
      var init := fields[..|fields| - 1];
      CollectEntries(init, opts, engine);
      forall name | name in Collect(fields, opts, engine)
        ensures exists k :: 0 <= k < |fields| && fields[k].name == name && Selected(fields[k], opts)
                  && FieldVerdict(fields[k], opts, engine) == Collect(fields, opts, engine)[name]
      {
        var f := fields[|fields| - 1];
        if FieldVerdict(f, opts, engine) != 0 && name == f.name {
          assert fields[|fields| - 1].name == name;
        } else {
          var m := Collect(init, opts, engine);
          assert name in m && Collect(fields, opts, engine)[name] == m[name];
          var k :| 0 <= k < |init| && init[k].name == name && Selected(init[k], opts)
                  && FieldVerdict(init[k], opts, engine) == Collect(init, opts, engine)[name];
          assert fields[k] == init[k];
        }
      }
    }
  }

  /** Where Validate reports something for a name, it is nonzero and comes from an exported, selected field. */
  lemma ReportedFields<M>(fields: seq<Field>, options: Option<ValidateOptions>, engine: RegexpEngine<M>, name: string)
    requires name in Collect(fields, OptionsOrDefault(options), engine)
    ensures Collect(fields, OptionsOrDefault(options), engine)[name] != 0
    ensures exists k :: (0 <= k < |fields| && fields[k].name == name && fields[k].exported &&
      (|OptionsOrDefault(options).restrictFields| > 0 ==>
         name in OptionsOrDefault(options).restrictFields && OptionsOrDefault(options).restrictFields[name]))
  {
    CollectEntries(fields, OptionsOrDefault(options), engine);
  }

  /** ValidateResult's ok is true exactly when its map is empty. */
  lemma OkIffNoViolations<M>(obj: Value, options: Option<ValidateOptions>, engine: RegexpEngine<M>)
    requires ResolveRecord(obj).Found?
    ensures ValidateResult(obj, options, engine).ok <==> ValidateResult(obj, options, engine).violations == Some(map[])
  {
    CollectEmptyIffAllPass(ResolveRecord(obj).fields, OptionsOrDefault(options), engine);
  }

  /**
   * No exported field shares its name with another field, as in a Go struct,
   * where only blank (`_`) fields, which are unexported, may repeat a name.
   */
  predicate UniqueNames(fields: seq<Field>) {
    forall i, j :: 0 <= i < j < |fields| && (fields[i].exported || fields[j].exported) ==> fields[i].name != fields[j].name
  }

  /** With distinct names for exported fields, a field is reported exactly when its verdict is nonzero, and with that verdict. */
  lemma {:induction false} CollectOfField<M>(fields: seq<Field>, i: nat, opts: ValidateOptions, engine: RegexpEngine<M>)
    requires UniqueNames(fields) && i < |fields|
    ensures fields[i].name in Collect(fields, opts, engine) <==> FieldVerdict(fields[i], opts, engine) != 0
    ensures fields[i].name in Collect(fields, opts, engine) ==>
      Collect(fields, opts, engine)[fields[i].name] == FieldVerdict(fields[i], opts, engine)
    decreases |fields|
  {
    var init := fields[..|fields| - 1];
    if i == |fields| - 1 {
      CollectEntries(init, opts, engine);
    } else {
      assert UniqueNames(init) by {
        forall a, b | 0 <= a < b < |init| && (init[a].exported || init[b].exported) ensures init[a].name != init[b].name {
          assert init[a] == fields[a] && init[b] == fields[b];
        }
      }
      assert init[i] == fields[i];
      CollectOfField(init, i, opts, engine);
    }
  }

  /** An overwrite value whose type differs from the field's type is reported as exactly FailType. */
  lemma OverwriteTypeMismatch<M>(fields: seq<Field>, i: nat, options: Option<ValidateOptions>, engine: RegexpEngine<M>)
    requires UniqueNames(fields) && i < |fields|
    requires Selected(fields[i], OptionsOrDefault(options))
    requires OverwriteFor(fields[i], OptionsOrDefault(options)).Some?
    requires OverwriteFor(fields[i], OptionsOrDefault(options)).value.typ != fields[i].typ
    ensures var report := ValidateResult(Record(fields), options, engine);
      !report.ok && report.violations.Some?
      && fields[i].name in report.violations.value && report.violations.value[fields[i].name] == FailType
  {
    CollectOfField(fields, i, OptionsOrDefault(options), engine);
    CollectEmptyIffAllPass(fields, OptionsOrDefault(options), engine);
  }

  /**
   * A selected nil pointer field (behind any number of pointers) without an
   * overwrite value is reported exactly when its rule tag is not "-" and has
   * a `req` token, and then with exactly FailReq.
   */
  lemma NilPointerReported<M>(fields: seq<Field>, i: nat, options: Option<ValidateOptions>, engine: RegexpEngine<M>)
    requires UniqueNames(fields) && i < |fields|
    requires Selected(fields[i], OptionsOrDefault(options)) && OverwriteFor(fields[i], OptionsOrDefault(options)).None?
    requires DereferenceKind(fields[i].value).isNil
    ensures var opts := OptionsOrDefault(options);
      var tag := TrimSpace(Tag(fields[i].tags, EffectiveTagName(opts)));
      var violations := Collect(fields, opts, engine);
      (fields[i].name in violations <==> tag != "-" && HasReq(Fields(tag)))
      && (fields[i].name in violations ==> violations[fields[i].name] == FailReq)
  {
    var opts := OptionsOrDefault(options);
    var tag := TrimSpace(Tag(fields[i].tags, EffectiveTagName(opts)));
    CollectOfField(fields, i, opts, engine);
    assert FieldVerdict(fields[i], opts, engine) == if tag != "-" && HasReq(Fields(tag)) then FailReq else 0 by {
      assert Fields("") == [];
    }
  }

  /** A name no selected field carries is never reported, whatever the fields' tags and values. */
  lemma NeverReported<M>(fields: seq<Field>, options: Option<ValidateOptions>, engine: RegexpEngine<M>, name: string)
    requires forall k :: 0 <= k < |fields| && fields[k].name == name ==> !Selected(fields[k], OptionsOrDefault(options))
    ensures name !in Collect(fields, OptionsOrDefault(options), engine)
  {
    CollectEntries(fields, OptionsOrDefault(options), engine);
  }

  /** Collect depends on the options only through each field's verdict. */
  lemma {:induction false} CollectSameVerdicts<M>(fields: seq<Field>, a: ValidateOptions, b: ValidateOptions, engine: RegexpEngine<M>)
    requires forall k :: 0 <= k < |fields| ==> FieldVerdict(fields[k], a, engine) == FieldVerdict(fields[k], b, engine)
    ensures Collect(fields, a, engine) == Collect(fields, b, engine)
    ensures AllPass(fields, a, engine) == AllPass(fields, b, engine)
    decreases |fields|
  {
    if fields != [] {
      var init := fields[..|fields| - 1];
      assert forall k :: 0 <= k < |init| ==> init[k] == fields[k];
      CollectSameVerdicts(init, a, b, engine);
    }
  }

  /** Without options, and with an empty TagName, rules are read under the tag `validation`. */
  lemma DefaultTag<M>(obj: Value, restrict: map<string, bool>, overwrite: Option<map<string, Overwrite>>, engine: RegexpEngine<M>)
    ensures ValidateResult(obj, None, engine) == ValidateResult(obj, Some(ValidateOptions(map[], "validation", None)), engine)
    ensures ValidateResult(obj, Some(ValidateOptions(restrict, "", overwrite)), engine)
         == ValidateResult(obj, Some(ValidateOptions(restrict, "validation", overwrite)), engine)
  {
    if ResolveRecord(obj).Found? {
      var fields := ResolveRecord(obj).fields;
      CollectSameVerdicts(fields, DefaultOptions, ValidateOptions(map[], "validation", None), engine);
      CollectSameVerdicts(fields, ValidateOptions(restrict, "", overwrite), ValidateOptions(restrict, "validation", overwrite), engine);
    }
  }
}
