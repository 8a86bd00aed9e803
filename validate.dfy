/**
 * validate.go: the rule evaluation of one field (ValidateField) and the
 * walk over a struct's fields (Validate). Each method is verified against a
 * function that states what it computes; the properties of those functions
 * are proved in module ValidateProperties.
 */
module Validator {
  import opened Wrappers
  import opened Text
  import opened Consts
  import opened Values
  import opened Internal

  // ---------------------------------------------------------------------------
  // Options
  // ---------------------------------------------------------------------------

  /** A substitute value for a field, with the dynamic type of the interface{} holding it. */
  datatype Overwrite = Overwrite(typ: TypeId, value: Value)

  /**
   * ValidateOptions. `overwriteValues` is read by Validate but missing from
   * the struct in options.go; it is modelled as an optional map.
   */
  datatype ValidateOptions = ValidateOptions(
    restrictFields: map<string, bool>,
    tagName: string,
    overwriteValues: Option<map<string, Overwrite>>)

  const DefaultTagName: string := "validation"

  /** `&ValidateOptions{}`, used when the caller passes nil. */
  const DefaultOptions: ValidateOptions := ValidateOptions(map[], "", None)

  function OptionsOrDefault(options: Option<ValidateOptions>): ValidateOptions {
    if options.None? then DefaultOptions else options.value
  }

  /** The tag key Validate looks rules up under. */
  function EffectiveTagName(opts: ValidateOptions): (t: string)
    ensures t != ""
    ensures opts.tagName == "" ==> t == DefaultTagName
    ensures opts.tagName != "" ==> t == opts.tagName
  {
    if opts.tagName != "" then opts.tagName else DefaultTagName
  }

  // ---------------------------------------------------------------------------
  // What ValidateField computes
  // ---------------------------------------------------------------------------

  /** Some token of the rule tag is named `req`. */
  predicate HasReq(tokens: seq<string>) {
    exists k :: 0 <= k < |tokens| && ParseRule(tokens[k]).0 == "req"
  }

  /** What the `req` scan contributes: one FailReq for a nil pointer whose tag asks for it. */
  function ReqCode(tokens: seq<string>, isNil: bool): int {
    if isNil && HasReq(tokens) then FailReq else 0
  }

  /**
   * The effect of the rule `name` with argument `arg` on the accumulated
   * code, for a non-nil field whose dereferenced value is `concrete`.
   */
  function ApplyRule(acc: int, name: string, arg: string, concrete: Value): int {
    if name == "email" then
      if !concrete.Str? then acc + FailType
      else if !MatchesEmail(concrete.s) then acc + FailEmail
      else acc
    else if name == "lenmin" || name == "lenmax" then
      if !concrete.Str? then acc + FailType
      else
        var minMax := ParseInt(arg);
        var strLen := |concrete.s|;
        acc + (if name == "lenmin" && strLen < minMax then FailLenMin else 0)
            + (if name == "lenmax" && strLen > minMax then FailLenMax else 0)
    else if name == "valmin" || name == "valmax" then
      match concrete
      case Int(val) =>
        var limit := ParseInt(arg);
        acc + (if name == "valmin" && val < limit then FailValMin else 0)
            + (if name == "valmax" && val > limit then FailValMax else 0)
      case Uint(val) =>
        var limit := ParseUint(arg);
        acc + (if name == "valmin" && val < limit then FailValMin else 0)
            + (if name == "valmax" && val > limit then FailValMax else 0)
      case _ =>
        // `violations = +FailType`: an assignment, not an addition
        FailType
    else acc
  }

  /** One token of the rule tag, split at its first ':', applied to `acc`. */
  function RuleStep(acc: int, token: string, concrete: Value): int {
    ApplyRule(acc, ParseRule(token).0, ParseRule(token).1, concrete)
  }

  /** The tokens applied one after another, in order, starting from `acc`. */
  function Rules(acc: int, tokens: seq<string>, concrete: Value): int
    decreases |tokens|
  {
    if tokens == [] then acc
    else RuleStep(Rules(acc, tokens[..|tokens| - 1], concrete), tokens[|tokens| - 1], concrete)
  }

  /** The pattern tag's contribution, added to `acc`. */
  function PatternCheck<M>(acc: int, pattern: string, r: Resolved, engine: RegexpEngine<M>): int {
    if r.isNil || pattern == "" || !r.concrete.Str? then acc
    else match engine.compile(pattern)
      case None => acc + FailRegExp
      case Some(m) => if engine.matchString(m, r.concrete.s) then acc else acc + FailRegExp
  }

  /** The code of the rule tag `tag` (already trimmed, not "-") before the pattern tag is read. */
  function TagCode(tag: string, r: Resolved): int {
    if tag == "" then 0
    else
      var tokens := Fields(tag);
      if r.isNil then ReqCode(tokens, true) else Rules(ReqCode(tokens, false), tokens, r.concrete)
  }

  /** The violation code ValidateField returns for a field with these tags and this value. */
  function FieldCode<M>(tags: map<string, string>, tagName: string, value: Value, engine: RegexpEngine<M>): int {
    var tag := TrimSpace(Tag(tags, tagName));
    if tag == "-" then 0
    else
      var r := DereferenceKind(value);
      PatternCheck(TagCode(tag, r), Tag(tags, tagName + "_regexp"), r, engine)
  }

  // ---------------------------------------------------------------------------
  // ValidateField
  // ---------------------------------------------------------------------------

  /** The first loop of ValidateField: stops at the first `req` when the value is a nil pointer. */
  method ScanReq(tokens: seq<string>, isNilPointer: bool) returns (violations: int)
    ensures violations == ReqCode(tokens, isNilPointer)
  {
    violations := 0;
    var i := 0;
    while i < |tokens|
      invariant 0 <= i <= |tokens|
      invariant violations == 0
      invariant !(isNilPointer && HasReq(tokens[..i]))
    {
      var (name, _) := ParseRule(tokens[i]);
      if name == "req" && isNilPointer {
        violations := violations + FailReq;
        break;
      }
      assert tokens[..i + 1] == tokens[..i] + [tokens[i]];
      i := i + 1;
    }
    assert violations == ReqCode(tokens, isNilPointer) by {
      if violations == 0 && isNilPointer {
        assert tokens[..|tokens|] == tokens;
      }
    }
  }

  /**
   * The switch on the rule name inside the second loop of ValidateField,
   * kept statement by statement as validate.go:109-168 has it; ApplyRule is
   * the function it is proved against.
   */
  method EvaluateRule(violations0: int, name: string, arg: string, kind: Kind, concrete: Value)
      returns (violations: int)
    requires kind == KindOf(concrete)
    ensures violations == ApplyRule(violations0, name, arg, concrete)
  {
    violations := violations0;
    if name == "email" {
      // a `break` inside a Go case leaves the switch: the next token is still read
      if kind != StringKind {
        violations := violations + FailType;
      } else if !MatchesEmail(concrete.s) {
        violations := violations + FailEmail;
      }
    } else if name == "lenmin" || name == "lenmax" {
      if kind != StringKind {
        violations := violations + FailType;
      } else {
        var minMax := ParseInt(arg);
        var strLen := |concrete.s|;
        if name == "lenmin" && strLen < minMax {
          violations := violations + FailLenMin;
        }
        if name == "lenmax" && strLen > minMax {
          violations := violations + FailLenMax;
        }
      }
    } else if name == "valmin" || name == "valmax" {
      match concrete
      case Int(val) =>
        var limit := ParseInt(arg);
        if name == "valmin" && val < limit {
          violations := violations + FailValMin;
        }
        if name == "valmax" && val > limit {
          violations := violations + FailValMax;
        }
      case Uint(val) =>
        var limit := ParseUint(arg);
        if name == "valmin" && val < limit {
          violations := violations + FailValMin;
        }
        if name == "valmax" && val > limit {
          violations := violations + FailValMax;
        }
      case _ =>
        violations := FailType;
    }
  }

  /** The second loop of ValidateField: every token, in order, for a value that is not a nil pointer. */
  method EvaluateRules(violations0: int, tokens: seq<string>, kind: Kind, concrete: Value)
      returns (violations: int)
    requires kind == KindOf(concrete)
    ensures violations == Rules(violations0, tokens, concrete)
  {
    violations := violations0;
    var j := 0;
    while j < |tokens|
      invariant 0 <= j <= |tokens|
      invariant violations == Rules(violations0, tokens[..j], concrete)
    {
      assert tokens[..j + 1][..j] == tokens[..j];
      var (name, arg) := ParseRule(tokens[j]);
      violations := EvaluateRule(violations, name, arg, kind, concrete);
      j := j + 1;
    }
    assert tokens[..|tokens|] == tokens;
  }

  /** The pattern tag check at the end of ValidateField; compiled patterns are cached. */
  method CheckPattern<M>(violations0: int, pattern: string, resolved: Resolved, cache: RegexCache<M>)
      returns (violations: int)
    requires cache.Valid()
    requires !resolved.isNil ==> resolved.kind == KindOf(resolved.concrete)
    modifies cache
    ensures cache.Valid()
    ensures cache.entries == if !resolved.isNil && pattern != "" && resolved.kind == StringKind && cache.engine.compile(pattern).Some?
      then old(cache.entries)[pattern := cache.engine.compile(pattern).value] else old(cache.entries)
    ensures violations == PatternCheck(violations0, pattern, resolved, cache.engine)
  {
    violations := violations0;
    if !resolved.isNil {
      if pattern != "" {
        if resolved.kind == StringKind {
          var compiled := cache.GetCompiled(pattern);
          if compiled.None? || !cache.engine.matchString(compiled.value, resolved.concrete.s) {
            violations := violations + FailRegExp;
          }
        }
      }
    }
  }

  /**
   * ValidateField: reads the field's rule tag under `tagName` and its pattern
   * tag under `tagName + "_regexp"`, and evaluates them against `value`.
   */
  method ValidateField<M>(field: Field, value: Value, tagName: string, cache: RegexCache<M>)
      returns (ok: bool, code: int)
    requires cache.Valid()
    modifies cache
    ensures cache.Valid()
    ensures var pattern := Tag(field.tags, tagName + "_regexp");
      var resolved := DereferenceKind(value);
      cache.entries == if TrimSpace(Tag(field.tags, tagName)) != "-" && !resolved.isNil && pattern != ""
                          && resolved.kind == StringKind && cache.engine.compile(pattern).Some?
        then old(cache.entries)[pattern := cache.engine.compile(pattern).value] else old(cache.entries)
    ensures code == FieldCode(field.tags, tagName, value, cache.engine)
    ensures ok <==> code == 0
  {
    var violations := 0;
    var tag := Tag(field.tags, tagName);
    var resolved := DereferenceKind(value);
    tag := TrimSpace(tag);
    if tag == "-" {
      return true, 0;
    }
    if tag != "" {
      var tokens := Fields(tag);
      violations := ScanReq(tokens, resolved.isNil);
      if !resolved.isNil {
        violations := EvaluateRules(violations, tokens, resolved.kind, resolved.concrete);
      }
    }
    assert violations == TagCode(tag, resolved);

    // the pattern tag is read whatever the rule tag was, unless the value is a nil pointer
    var pattern := Tag(field.tags, tagName + "_regexp");
    violations := CheckPattern(violations, pattern, resolved, cache);

    ok := violations == 0;
    code := violations;
  }

  // ---------------------------------------------------------------------------
  // What Validate computes
  // ---------------------------------------------------------------------------

  datatype InputError = NilPointer | NotStruct(kind: Kind)

  /** The three results of Validate; `violations` is None where Go returns a nil map. */
  datatype Report = Report(ok: bool, violations: Option<map<string, int>>, err: Option<InputError>)

  datatype Resolution = Found(fields: seq<Field>) | Rejected(error: InputError)

  /** The pointer loop at the top of Validate and the struct check after it. */
  function ResolveRecord(v: Value): Resolution {
    match v
    case Nil(_) => Rejected(NilPointer)
    case To(target) => ResolveRecord(target)
    case Record(fields) => Found(fields)
    case _ => Rejected(NotStruct(KindOf(v)))
  }

  /** The field is exported and, when RestrictFields is non-empty, listed there as true. */
  predicate Selected(f: Field, opts: ValidateOptions) {
    f.exported && (|opts.restrictFields| == 0 || (f.name in opts.restrictFields && opts.restrictFields[f.name]))
  }

  /** The substitute OverwriteValues holds for this field, if any. */
  function OverwriteFor(f: Field, opts: ValidateOptions): Option<Overwrite> {
    if opts.overwriteValues.Some? && f.name in opts.overwriteValues.value
    then Some(opts.overwriteValues.value[f.name])
    else None
  }

  /** The value ValidateField is given for `f`: its overwrite value if it has one, else its own. */
  function EffectiveValue(f: Field, opts: ValidateOptions): Value {
    match OverwriteFor(f, opts)
    case Some(ov) => ov.value
    case None => f.value
  }

  /** The field has an overwrite value whose type is not the field's type. */
  predicate OverwriteMismatch(f: Field, opts: ValidateOptions) {
    OverwriteFor(f, opts).Some? && OverwriteFor(f, opts).value.typ != f.typ
  }

  /** The code Validate records for one field; 0 when it records nothing. */
  function FieldVerdict<M>(f: Field, opts: ValidateOptions, engine: RegexpEngine<M>): int {
    if !Selected(f, opts) then 0
    else if OverwriteMismatch(f, opts) then FailType
    else FieldCode(f.tags, EffectiveTagName(opts), EffectiveValue(f, opts), engine)
  }

  /** The fieldViolations map after the given fields, in order. */
  function Collect<M>(fields: seq<Field>, opts: ValidateOptions, engine: RegexpEngine<M>): map<string, int>
    decreases |fields|
  {
    if fields == [] then map[]
    else
      var m := Collect(fields[..|fields| - 1], opts, engine);
      var f := fields[|fields| - 1];
      var code := FieldVerdict(f, opts, engine);
      if code == 0 then m else m[f.name := code]
  }

  /** overallOk after the given fields: no field failed. */
  predicate AllPass<M>(fields: seq<Field>, opts: ValidateOptions, engine: RegexpEngine<M>)
    decreases |fields|
  {
    fields == [] || (AllPass(fields[..|fields| - 1], opts, engine) && FieldVerdict(fields[|fields| - 1], opts, engine) == 0)
  }

  /** What Validate returns for `obj` and `options`. */
  function ValidateResult<M>(obj: Value, options: Option<ValidateOptions>, engine: RegexpEngine<M>): Report {
    var opts := OptionsOrDefault(options);
    match ResolveRecord(obj)
    case Rejected(e) => Report(false, None, Some(e))
    case Found(fields) => Report(AllPass(fields, opts, engine), Some(Collect(fields, opts, engine)), None)
  }

  // ---------------------------------------------------------------------------
  // Validate
  // ---------------------------------------------------------------------------

  /** Collect and AllPass over one more field. */
  lemma CollectStep<M>(fields: seq<Field>, i: int, opts: ValidateOptions, engine: RegexpEngine<M>)
    requires 0 <= i < |fields|
    ensures var code := FieldVerdict(fields[i], opts, engine);
      Collect(fields[..i + 1], opts, engine)
        == (if code == 0 then Collect(fields[..i], opts, engine) else Collect(fields[..i], opts, engine)[fields[i].name := code])
    ensures AllPass(fields[..i + 1], opts, engine) <==> AllPass(fields[..i], opts, engine) && FieldVerdict(fields[i], opts, engine) == 0
  {
    assert fields[..i + 1][..i] == fields[..i];
    assert fields[..i + 1][i] == fields[i];
  }

  /**
   * The body of Validate's field loop: skips an unexported or unselected
   * field, substitutes an overwrite value (FailType when its type differs)
   * and otherwise calls ValidateField. Returns 0 when nothing is recorded.
   */
  method CheckField<M>(structField: Field, opts: ValidateOptions, tagName: string, cache: RegexCache<M>)
      returns (code: int)
    requires cache.Valid()
    requires tagName == EffectiveTagName(opts)
    modifies cache
    ensures cache.Valid()
    ensures old(cache.entries).Keys <= cache.entries.Keys
    ensures code == FieldVerdict(structField, opts, cache.engine)
  {
    var fieldValue := structField.value;
    if !structField.exported {
      return 0;
    }
    if |opts.restrictFields| > 0 && !(structField.name in opts.restrictFields && opts.restrictFields[structField.name]) {
      return 0;
    }
    if opts.overwriteValues.Some? {
      if structField.name in opts.overwriteValues.value {
        var overwriteVal := opts.overwriteValues.value[structField.name];
        fieldValue := overwriteVal.value;
        if overwriteVal.typ != structField.typ {
          return FailType;
        }
      }
    }
    var fieldOk, viol := ValidateField(structField, fieldValue, tagName, cache);
    code := if fieldOk then 0 else viol;
  }

  /** The field loop of Validate: one CheckField per field, in order, recording the nonzero codes. */
  method CollectViolations<M>(fields: seq<Field>, opts: ValidateOptions, tagName: string, cache: RegexCache<M>)
      returns (overallOk: bool, fieldViolations: map<string, int>)
    requires cache.Valid()
    requires tagName == EffectiveTagName(opts)
    modifies cache
    ensures cache.Valid()
    ensures old(cache.entries).Keys <= cache.entries.Keys
    ensures fieldViolations == Collect(fields, opts, cache.engine)
    ensures overallOk == AllPass(fields, opts, cache.engine)
  {
    fieldViolations := map[];
    overallOk := true;
    var i := 0;
    while i < |fields|
      invariant 0 <= i <= |fields|
      invariant cache.Valid()
      invariant old(cache.entries).Keys <= cache.entries.Keys
      invariant fieldViolations == Collect(fields[..i], opts, cache.engine)
      invariant overallOk == AllPass(fields[..i], opts, cache.engine)
    {
      var code := CheckField(fields[i], opts, tagName, cache);
      CollectStep(fields, i, opts, cache.engine);
      if code != 0 {
        overallOk := false;
        fieldViolations := fieldViolations[fields[i].name := code];
      }
      i := i + 1;
    }
    assert fields[..|fields|] == fields;
  }

  /** Validate: checks every selected field of the struct `obj` (or of what it points to). */
  method Validate<M>(obj: Value, options: Option<ValidateOptions>, cache: RegexCache<M>)
      returns (ok: bool, violations: Option<map<string, int>>, err: Option<InputError>)
    requires cache.Valid()
    modifies cache
    ensures cache.Valid()
    ensures old(cache.entries).Keys <= cache.entries.Keys
    ensures Report(ok, violations, err) == ValidateResult(obj, options, cache.engine)
  {
    var opts := OptionsOrDefault(options);
    var tagName := DefaultTagName;
    if opts.tagName != "" {
      tagName := opts.tagName;
    }

    var val := obj;
    while val.Nil? || val.To?
      invariant ResolveRecord(val) == ResolveRecord(obj)
      decreases val
    {
      if val.Nil? {
        return false, None, Some(NilPointer);
      }
      val := val.target;
    }
    if !val.Record? {
      return false, None, Some(NotStruct(KindOf(val)));
    }

    var overallOk, fieldViolations := CollectViolations(val.fields, opts, tagName, cache);
    return overallOk, Some(fieldViolations), None;
  }
}
