# struct-validator, modelled in Dafny

struct-validator is a small Go package that validates the fields of a struct
by their tags. A field's rule tag (key `validation` by default, or the key
given in `ValidateOptions.TagName`) holds space-separated rule tokens:

- `req`: the field may not be a nil pointer;
- `email`: the string must match a fixed e-mail pattern;
- `lenmin:N` and `lenmax:N`: byte-length bounds on a string;
- `valmin:N` and `valmax:N`: bounds on a signed or unsigned integer or a
  float (the float case is not modelled; see "## Left out").

A second tag, the rule key followed by `_regexp`, holds a regular expression
that a string field must match. A rule tag of `-` switches all checks off.

Each failure kind has a code, `2 << iota`. A field's code is the sum of the
codes of the rules it fails, except that a `valmin`/`valmax` on a value that
is not an integer replaces the code gathered so far by FailType. `Validate` walks the struct (behind any number of
pointers), skips unexported fields and fields left out by `RestrictFields`,
and can substitute a field's value from `OverwriteValues`. It reports
`overallOk`, a map from each failed field's name to its code, and an error
when the input is a nil pointer or not a struct.

The model has seven modules:

- `Text`: the `strings` and `strconv` functions the package calls. These are
  `TrimSpace`, `Fields`, the split at the first `:` and the base-10 parsers.
  The parsers read digits left to right as Go does: a digit that overflows
  clamps the result to the 64-bit bound even if a non-digit follows it, and
  a syntax error met before any overflow gives 0.
- `Consts`: the flags as `2 << iota`, a proof that summing distinct flags is
  the same as or-ing them, and the e-mail pattern written out as a matcher.
  The matcher is proved equal to a declarative reading of the pattern.
- `Values`: an explicit descriptor of what reflection exposes. It holds
  values, kinds, pointers, and fields with their tag maps and type names.
- `Internal`: `dereferenceKind`, `parseRule`, and the compiled-regexp cache as
  a class whose invariant is "every entry is what compiling its key gives".
- `Validator`: functions stating what `ValidateField` and `Validate` compute
  (`FieldCode`, `ValidateResult`), and imperative methods with the source's
  loops, each proved equal to those functions.
- `ValidateProperties`: what the functions promise. This covers the skip
  marker, nil pointers and `req`, inclusive bounds, the wrong-kind codes, the
  left-to-right fold and the reset done by `=+FailType`, the pattern tag,
  input errors, field selection, overwrite mismatches and the shape of the
  reported map.
- `Scenarios`: the expectations of validate_test.go, field by field. General
  lemmas cover each tag shape the tests use (`lenmin/lenmax`, `valmin/valmax`,
  `email`, `req`, pattern only, an unknown rule name). Concrete lemmas cover
  the test values.

The regular-expression engine for pattern tags is a parameter
(`RegexpEngine`: a compile function and a match function), so the pattern
verdicts of the tests are stated in terms of that engine.

The model keeps two behaviours of validate.go as written:

- Flags are added with `+=` (validate.go:100-181), so a flag triggered twice
  counts twice.
- `violations = +FailType` (validate.go:165) is an assignment that discards
  the code gathered so far. `Validator.ApplyRule` keeps this, and
  `ValidateProperties.WrongKindForNumber` and `ValidateProperties.RulesReset`
  state it.

`OverwriteValues` is read by validate.go but not declared in options.go. The
model follows validate.go and gives `ValidateOptions` an optional map.

## Model

| member | source | states |
|---|---|---|
| Text.TrimSpace | validate.go:88 | the rule tag with leading and trailing white space removed; its properties are stated by TrimSpaceSpec, TrimSpaceOfTrimmed and TrimSpaceOfNoSpace |
| Text.TrimLeftSuffix | validate.go:88 | trimming the left end leaves a suffix of the input, preceded only by white space, that does not start with white space |
| Text.TrimRightPrefix | validate.go:88 | trimming the right end leaves a prefix of the input, followed only by white space, that does not end with white space |
| Text.TrimSpaceSpec | validate.go:88 | the trimmed tag neither starts nor ends with white space, and the original is that result with only white space around it |
| Text.TrimSpaceOfTrimmed | validate.go:88 | a string that neither starts nor ends with white space is left unchanged |
| Text.TrimSpaceOfNoSpace | validate.go:88 | a string without white space is left unchanged |
| Text.Fields | validate.go:93-94 | every token is non-empty and has no white space |
| Text.FieldsConcat | validate.go:94 | the tokens, joined, are exactly the input with its white space removed: nothing but white space is lost, and order is kept |
| Text.FieldsSplit | validate.go:94 | a white-space character splits the input into two halves whose token lists are concatenated |
| Text.FieldsOfToken | validate.go:94 | a non-empty string without white space is a single token |
| Text.IndexOf | internal.go:27 | the index found for the separator lies inside the token |
| Text.IndexOfSpec | internal.go:27-31 | no index is found iff the character is absent; otherwise it is the first occurrence |
| Text.IndexOfAt | internal.go:27-31 | an occurrence with none before it is the one found |
| Text.LastIndexOf | consts.go:17 | helper of the hand-written e-mail matcher (the last `.` of the domain): the index found lies inside the string |
| Text.LastIndexOfSpec | consts.go:17 | no index is found iff the character is absent; otherwise it is the last occurrence |
| Text.LastIndexOfAt | consts.go:17 | an occurrence with none after it is the one found |
| Text.DigitRun | validate.go:146 | the leading run of decimal digits: all of it digits, and the character after it (if any) is not a digit |
| Text.ParseUint | validate.go:146 | the result is a uint64; all decimal digits read as their value clamped to the largest uint64; a string not starting with a digit (a sign, "" included) reads as 0; any other result left by a non-digit is the overflow clamp |
| Text.DecimalValueCons | validate.go:146 | a leading digit contributes its value times ten to the number of digits after it |
| Text.ScanUintValue | validate.go:146 | Go's digit loop, started from any value, returns that value followed by the leading digits, clamped on overflow, or 0 if a non-digit follows in range |
| Text.ParseUintIsScan | validate.go:146 | ParseUint equals Go's left-to-right digit loop `ScanUint` started from 0 |
| Text.DigitRunAppend | validate.go:146 | digits followed by nothing or a non-digit have exactly those digits as their leading run |
| Text.ParseUintOverflowFirst | validate.go:146 | digits whose value exceeds the largest uint64 read as the largest uint64, whatever non-digit follows them |
| Text.ParseUintSyntaxError | validate.go:146 | digits in range followed by a non-digit read as 0 |
| Text.ParseInt | validate.go:125-137 | the result is an int64, at most 0 after a leading `-` and at least 0 otherwise; it is 0 unless the string starts with a digit or with a sign followed by a digit |
| Text.ParseIntOverflowFirst | validate.go:125-137 | digits that overflow, with or without a sign, read as the int64 bound of that sign, whatever non-digit follows them |
| Text.ParseIntSyntaxError | validate.go:125-137 | unsigned digits in range followed by a non-digit other than a sign read as 0 |
| Text.ParseUintRoundTrip | validate.go:146 | every uint64 written in decimal is read back as itself |
| Text.ParseUintRejectsSign | validate.go:146 | an unsigned bound written with `+` or `-` reads as 0 |
| Text.ParseIntRoundTrip | validate.go:125 | every int64 written in decimal, negative ones with `-`, is read back as itself (Atoi and ParseInt alike) |
| Text.ParseIntPlusSign | validate.go:137 | a bound written with an explicit `+` is read as its value |
| Consts.Iota | consts.go:5-14 | each flag's iota is its position in the const block |
| Consts.IotaOfAllFlags | consts.go:5-14 | each position of the block holds the flag whose iota it is |
| Consts.FlagValues | consts.go:5-14 | the constants FailLenMin .. FailType equal `2 << iota` for their line of the block |
| Consts.FlagIsPowerOfTwo | consts.go:6-13 | each flag is a power of two of at least 2, with exactly one bit set, bit iota+1 |
| Consts.FlagsAreDistinct | consts.go:6-13 | distinct flags have distinct codes |
| Consts.FlagsIn | consts.go:5-14 | a flag is in the set read from a code iff its bit is set in the code |
| Consts.SumOfFlags | consts.go:5-14 | for distinct flags, the sum equals the bitwise or, and the set of flags is recovered from the sum |
| Consts.SumOfZero | validate.go:187 | a sum of distinct flags is 0 iff no flag is in it, so code 0 means "no violation" |
| Consts.MatchesDomainIsPattern | consts.go:17 | the domain half of the matcher accepts exactly `[a-zA-Z0-9.\-]+\.[a-zA-Z]{2,}` |
| Consts.MatchesEmail | consts.go:17 | the e-mail matcher that stands for `emailRegexp.MatchString` (validate.go:116); MatchesEmailIsPattern proves it equal to the pattern's declarative reading |
| Consts.MatchesEmailIsPattern | consts.go:17 | the e-mail matcher accepts exactly the strings of the anchored pattern: a local part, `@`, a domain |
| Consts.EmailShape | consts.go:17 | an accepted address has exactly one `@` after a non-empty local part and ends in `.` and at least two letters |
| Consts.DomainOfParts | consts.go:17 | a non-empty host of domain characters, `.`, and two or more letters form an accepted domain |
| Consts.EmailOfParts | consts.go:17 | a non-empty local part, `@`, and an accepted domain form an accepted address |
| Consts.EmailAccepts | validate_test.go:108 | "john@example.com" is accepted |
| Consts.EmailRejects | validate_test.go:75 | "invalidEmail", "" and "bad" are rejected |
| Values.KindOf | internal.go:15-23 | a value's kind is String, Int, Uint, Struct or Pointer exactly for the matching variant, and never Float |
| Internal.DereferenceKind | internal.go:14-24 | a non-nil result has a non-pointer kind that matches its value; a nil result carries the nil pointer's element kind; a non-pointer is returned as it is |
| Internal.DereferenceNilChain | internal.go:15-20 | a nil pointer behind any number of pointers is reported as nil, with its element kind |
| Internal.DereferenceValueChain | internal.go:15-23 | any number of non-nil pointers in front of a non-pointer value are looked through |
| Internal.ParseRule | internal.go:26-33 | splits a token at its first `:` into name and argument, the argument being empty when there is no `:`; ParseRuleSpec and ParseRuleJoin state this |
| Internal.ParseRuleSpec | internal.go:26-33 | a token without `:` is all name with an empty argument; otherwise the name has no `:` and name, `:`, argument rebuild the token |
| Internal.ParseRuleJoin | internal.go:26-33 | `name:arg` with a name free of `:` splits back into exactly that name and argument, further `:` staying in the argument |
| Internal.RegexCache.constructor | internal.go:35-38 | the cache starts empty and valid, for the given engine |
| Internal.RegexCache.GetCompiled | internal.go:42-52 | the result is what compiling the pattern gives; a cached pattern is served from the cache unchanged; a failed compile stores nothing; a successful one stores exactly that pattern; the cache stays valid |
| Validator.EffectiveTagName | validate.go:17-20 | the tag key is `TagName` when it is set and `validation` otherwise, never empty |
| Validator.ScanReq | validate.go:96-103 | the first loop yields FailReq, once, exactly when the value is a nil pointer and some token is named `req`, else 0 |
| Validator.ApplyRule | validate.go:109-168 | the effect of one rule on the code so far: FailEmail, FailLenMin/FailLenMax, FailValMin/FailValMax by the parsed bound, FailType added for a wrong kind and assigned for `valmin`/`valmax` on a non-integer, nothing for an unknown name; stated by the lemmas of ValidateProperties from LenMinBound to StepShift |
| Validator.FieldCode | validate.go:81-189 | the code of ValidateField: 0 for the tag `-`, FailReq for a nil pointer whose tag has `req`, otherwise the rules applied left to right to the dereferenced value and then the pattern tag; stated by NilField, NilFieldRequired, StringFieldCode and the pattern lemmas of ValidateProperties |
| Validator.ValidateResult | validate.go:12-78 | Validate's three results: an error for a nil pointer or a non-struct, and otherwise overallOk and the map of failed selected fields; stated by NilInput, NotStructInput, OkIffNoViolations, CollectOfField and the lemmas after it |
| Validator.EvaluateRule | validate.go:108-168 | the switch on the rule name computes ApplyRule: the email, length and bound checks, FailType for a wrong kind, the reset by `=+FailType`, nothing for an unknown name |
| Validator.EvaluateRules | validate.go:106-170 | the second loop applies every token, in order, as the fold Rules does |
| Validator.CheckPattern | validate.go:173-185 | the pattern tag adds FailRegExp for a present pattern on a non-nil string that fails to compile or to match; the cache stays valid and gains exactly that pattern when it is read and compiles, and is otherwise unchanged |
| Validator.ValidateField | validate.go:81-189 | the code is FieldCode of the field's tags and the value, and ok holds iff the code is 0; the cache stays valid and gains exactly the pattern tag when the rule tag is not `-`, the value is a non-nil string, the pattern is non-empty and it compiles, and is otherwise unchanged |
| Validator.CollectStep | validate.go:43-75 | proof helper for the field loop, unfolding Collect and AllPass by one field: one more field adds its name with its verdict to the map when the verdict is nonzero, and keeps overallOk only when it is 0 |
| Validator.CheckField | validate.go:44-74 | the loop body gives 0 for an unexported or unselected field, FailType for an overwrite of another type, and otherwise ValidateField's code on the effective value; the cache stays valid and loses no entry |
| Validator.CollectViolations | validate.go:39-77 | the field loop returns the map Collect and the flag AllPass of the fields; the cache stays valid and loses no entry |
| Validator.Validate | validate.go:12-78 | the three results are ValidateResult: an error for a nil pointer or a non-struct, and otherwise overallOk and the map of the struct's fields; the cache stays valid and loses no entry |
| ValidateProperties.SkipMarker | validate.go:88-91 | a rule tag that trims to `-` gives 0 whatever the value, and whatever pattern tag is added |
| ValidateProperties.NilField | validate.go:96-106 | a nil pointer at any depth gets FailReq when some token is named `req` and 0 otherwise; no rule or pattern is read |
| ValidateProperties.NilFieldRequired | validate.go:96-103 | a `req` token anywhere in the tag makes a nil pointer's code exactly FailReq |
| ValidateProperties.ReqToken | validate.go:97-99 | a token `req` is found by the req scan |
| ValidateProperties.LenMinBound | validate.go:120-129 | `lenmin:N` adds FailLenMin exactly when the byte length is below N, so the bound is inclusive |
| ValidateProperties.LenMaxBound | validate.go:120-132 | `lenmax:N` adds FailLenMax exactly when the byte length exceeds N |
| ValidateProperties.ValMinSigned | validate.go:136-141 | `valmin:N` on a signed value adds FailValMin exactly when the value is below N |
| ValidateProperties.ValMaxSigned | validate.go:136-144 | `valmax:N` on a signed value adds FailValMax exactly when the value exceeds N |
| ValidateProperties.ValMinUnsigned | validate.go:145-150 | `valmin:N` on an unsigned value adds FailValMin exactly when the value is below N |
| ValidateProperties.ValMaxUnsigned | validate.go:145-153 | `valmax:N` on an unsigned value adds FailValMax exactly when the value exceeds N |
| ValidateProperties.LenMinOverflow | validate.go:125-129 | a `lenmin` bound whose digits overflow reads as the largest int64 even with a non-digit after them, so every shorter string adds FailLenMin |
| ValidateProperties.LenMaxSyntaxError | validate.go:125-132 | a `lenmax` bound of in-range digits followed by a non-digit reads as 0, so every non-empty string adds FailLenMax |
| ValidateProperties.UnsignedNegativeBound | validate.go:146-149 | a negative `valmin` bound on an unsigned value reads as 0 and never fails |
| ValidateProperties.EmailRule | validate.go:110-118 | `email` on a string adds FailEmail exactly when the e-mail pattern rejects it |
| ValidateProperties.WrongKindForString | validate.go:110-124 | `email`, `lenmin` and `lenmax` on a non-string add FailType to what was there |
| ValidateProperties.WrongKindForNumber | validate.go:163-165 | `valmin` or `valmax` on a non-numeric value sets the code to FailType, discarding the earlier flags |
| ValidateProperties.UnknownRule | validate.go:167 | a token naming no rule changes nothing |
| ValidateProperties.StepShift | validate.go:107-169 | a token that does not reset adds a non-negative amount that does not depend on the code so far |
| ValidateProperties.RulesAppend | validate.go:107 | tokens are applied left to right: a tag split in two is its second half applied after its first |
| ValidateProperties.RulesShift | validate.go:107-169 | without a resetting token, the flags already gathered are carried through, and the code only grows |
| ValidateProperties.RulesReset | validate.go:163-165 | after a resetting token only FailType and the tokens that follow it count |
| ValidateProperties.RulesNonNegative | validate.go:82-169 | the code of the rule tag is never negative |
| ValidateProperties.PatternOnStrings | validate.go:173-185 | for a string at any pointer depth, the code is the rule-tag code plus FailRegExp exactly when a present pattern fails to compile or to match |
| ValidateProperties.StringFieldCode | validate.go:173-185 | for a string at any pointer depth, the pattern check is applied to the rule-tag code of the dereferenced string |
| ValidateProperties.PatternWithoutRules | validate.go:93-185 | with an empty or missing rule tag, a string is still checked against its pattern tag |
| ValidateProperties.PatternIgnored | validate.go:174-177 | for a nil pointer or a non-string, removing the pattern tag changes nothing |
| ValidateProperties.SingleToken | validate.go:93-169 | a one-token rule tag without a pattern tag gives that token's code alone |
| ValidateProperties.NilInput | validate.go:26-29 | a nil pointer behind any number of pointers is rejected with the nil-pointer error and no map |
| ValidateProperties.NilResolve | validate.go:26-29 | the pointer loop stops at a nil pointer at any depth with the nil-pointer error |
| ValidateProperties.NotStructInput | validate.go:33-34 | a non-struct behind any number of pointers is rejected with an error naming its kind |
| ValidateProperties.ValueResolve | validate.go:26-31 | the pointer loop looks through any number of non-nil pointers |
| ValidateProperties.StructBehindPointers | validate.go:22-77 | a struct behind any number of pointers is validated as the struct itself, with no error |
| ValidateProperties.CollectEmptyIffAllPass | validate.go:41-77 | overallOk holds iff no field is reported |
| ValidateProperties.AllPassEvery | validate.go:41-77 | overallOk holds iff every field's verdict is 0 |
| ValidateProperties.CollectEntries | validate.go:43-75 | every reported code is nonzero and is the verdict of a selected field of that name |
| ValidateProperties.ReportedFields | validate.go:47-55 | a reported name has a nonzero code and belongs to an exported field which, when RestrictFields is non-empty, is listed there as true |
| ValidateProperties.OkIffNoViolations | validate.go:41-77 | for a struct, ok holds iff the returned map is empty |
| ValidateProperties.CollectOfField | validate.go:43-75 | when no exported field shares its name with another field (blank `_` fields may repeat), a field is reported iff its verdict is nonzero, and then with that verdict |
| ValidateProperties.OverwriteTypeMismatch | validate.go:57-66 | when no exported field shares its name with another field, a selected field whose overwrite value has another type is reported as exactly FailType, and ok is false |
| ValidateProperties.NilPointerReported | validate.go:84-103 | when no exported field shares its name with another field, a selected nil pointer field without an overwrite value is reported iff its trimmed rule tag is not `-` and has a `req` token, and then as exactly FailReq |
| ValidateProperties.NeverReported | validate.go:47-55 | a name that no selected field carries is never reported |
| ValidateProperties.CollectSameVerdicts | validate.go:43-75 | the map and overallOk depend on the options only through each field's verdict |
| ValidateProperties.DefaultTag | validate.go:13-20 | with nil options, or with an empty TagName, rules are read under `validation` |
| Scenarios.TwoFields | validate.go:88-94 | two space-free tokens joined by one space are trimmed to themselves and split back into those two tokens |
| Scenarios.ReqPrefix | validate.go:88-94 | `req ` in front of a trimmed tag adds exactly the token `req` at the front |
| Scenarios.TwoRules | validate.go:107-169 | a two-token tag applies its first token, then its second |
| Scenarios.OneRule | validate.go:107-169 | a one-token tag applies that token |
| Scenarios.ReqRule | validate.go:107-168 | a leading `req` token changes nothing for a non-nil value |
| Scenarios.NoReqTwo | validate.go:97-103 | two tokens neither of which is named `req` have no `req` |
| Scenarios.NumericToken | internal.go:26-33 | `name:N` is one token whose name is `name` and whose argument is N in decimal |
| Scenarios.TaggedValue | validate.go:84-185 | a non-nil field at any depth tagged `[req ]rest` gets the rules of `rest`, then its pattern tag |
| Scenarios.TaggedNil | validate.go:96-106 | a nil field tagged `[req ]rest` is FailReq exactly when `req` is there, given that `rest` has no `req` |
| Scenarios.TwoNumericTokens | validate.go:88-103 | `a:LO b:HI` is trimmed to itself, splits into its two tokens and has no `req` |
| Scenarios.LengthsTagSpec | validate_test.go:9-10 | `lenmin:LO lenmax:HI` is a trimmed tag without `req` whose code on a string is its too-short and too-long flags |
| Scenarios.LengthsRules | validate.go:120-132 | the two length tokens give the too-short flag below LO plus the too-long flag above HI |
| Scenarios.RangeTagSpec | validate_test.go:11-12 | `valmin:LO valmax:HI` is a trimmed tag without `req` whose code on a signed value is its too-small and too-large flags |
| Scenarios.RangeRules | validate.go:136-144 | the two bound tokens give the too-small flag below LO plus the too-large flag above HI |
| Scenarios.OneTokenTag | validate.go:88-103 | a one-token tag other than `req` is trimmed to itself, is its own token list and has no `req` |
| Scenarios.LenMaxTagSpec | validate_test.go:18 | `lenmax:HI` gives FailLenMax exactly above HI |
| Scenarios.EmailTagSpec | validate_test.go:14 | `email` has no `req` and gives FailEmail exactly when the e-mail pattern rejects the string |
| Scenarios.ReqTagSpec | validate_test.go:26 | the tag `req` alone has a `req` token and gives 0 for any non-nil value |
| Scenarios.LengthsField | validate_test.go:9-10 | a string field tagged `[req ]lenmin:LO lenmax:HI` gets its length flags, and a nil one gets FailReq exactly when `req` is there |
| Scenarios.RangeField | validate_test.go:11-12 | a signed field tagged `[req ]valmin:LO valmax:HI` gets its bound flags, and a nil one gets FailReq exactly when `req` is there |
| Scenarios.LenMaxField | validate_test.go:18 | a string field tagged `lenmax:HI` gets FailLenMax exactly above HI, and a nil one gets 0 |
| Scenarios.EmailField | validate_test.go:14 | a string field tagged `[req ]email` gets FailEmail exactly when rejected, and a nil one gets FailReq exactly when `req` is there |
| Scenarios.PatternOnlyField | validate_test.go:13 | a string field with an empty rule tag and a pattern tag gets FailRegExp exactly when the pattern rejects it |
| Scenarios.ReqPatternField | validate_test.go:26 | a string field tagged `req` with a pattern tag gets the pattern's verdict, and a nil one gets FailReq |
| Scenarios.UnknownRuleField | validate_test.go:43 | a field whose rule tag is one token naming no rule is never reported, whether nil or not |
| Scenarios.FirstNameTag | validate_test.go:9 | FirstName's tag is `lenmin:5 lenmax:25` |
| Scenarios.LastNameTag | validate_test.go:10 | LastName's tag is `lenmin:2 lenmax:50` |
| Scenarios.AgeTag | validate_test.go:11 | Age's tag is `valmin:18 valmax:150` |
| Scenarios.PriceTag | validate_test.go:12 | Price's tag is `valmin:0 valmax:9999` |
| Scenarios.BelowZeroTag | validate_test.go:15 | BelowZero's tag is `valmin:-6 valmax:-2` |
| Scenarios.DiscountPriceTag | validate_test.go:16 | DiscountPrice's tag is `valmin:0 valmax:8000` |
| Scenarios.RequiredFirstNameTag | validate_test.go:22 | the required FirstName's tag is `req` followed by `lenmin:5 lenmax:25` |
| Scenarios.RequiredAgeTag | validate_test.go:24 | the required Age's tag is `req` followed by `valmin:18 valmax:150` |
| Scenarios.CountyTag | validate_test.go:18 | County's tag is `lenmax:40` |
| Scenarios.FirstNameCases | validate_test.go:47-123 | FirstName: "" is FailLenMin, 30 bytes is FailLenMax, "Johnny" passes |
| Scenarios.LastNameCases | validate_test.go:47-123 | LastName: "" and "b" are FailLenMin, "Smith" passes |
| Scenarios.AgeCases | validate_test.go:47-123 | Age: 0 and 15 are FailValMin, 35 passes |
| Scenarios.BelowZeroCases | validate_test.go:47-123 | BelowZero: 0 and 8 are FailValMax, -4 passes |
| Scenarios.PriceCases | validate_test.go:47-123 | Price: 0 passes, the lower bound being inclusive |
| Scenarios.DiscountPriceCases | validate_test.go:47-123 | DiscountPrice: 0 and 8000 pass, 9999 is FailValMax |
| Scenarios.EmailCases | validate_test.go:47-123 | Email: "" and "invalidEmail" are FailEmail, "john@example.com" passes |
| Scenarios.CountyCases | validate_test.go:68-123 | County: "" and "Enfield" pass |
| Scenarios.RequiredFirstNameCases | validate_test.go:158-238 | the `*string` FirstName is FailReq when nil and FailLenMin for "a"; the string FirstName of 30 bytes is FailLenMax |
| Scenarios.OptionalLastNameCases | validate_test.go:192-210 | the nil `*string` LastName, which has no `req`, passes |
| Scenarios.RequiredAgeCases | validate_test.go:192-238 | the `*int` Age is FailReq when nil and FailValMin for 3 |
| Scenarios.RequiredPostCodeCases | validate_test.go:192-238 | the `*string` PostCode is FailReq when nil, and otherwise gets the pattern's verdict on the string |
| Scenarios.RequiredEmailCases | validate_test.go:192-238 | the nil `*string` Email is FailReq |
| Scenarios.PatternAsRuleCases | validate_test.go:192-238 | Country, whose pattern stands in the rule tag, is never reported, nil or not |
| Scenarios.LeadingNineOverflow | validate.go:146 | twenty digits starting with 9 exceed the largest uint64 |
| Scenarios.TwentyNinesOverflow | validate.go:146 | `99999999999999999999` is all digits and exceeds the largest uint64 |
| Scenarios.OverflowingLenMin | validate.go:125-129 | `99999999999999999999x` reads as the largest uint64 and the largest int64, and `lenmin:99999999999999999999x` adds FailLenMin to a one-byte string |
| Scenarios.OverflowingLenMinTag | validate.go:88-129 | the tag `lenmin:99999999999999999999x` is one trimmed token whose rules give FailLenMin on `a` |
| Scenarios.OverflowingLenMinField | validate.go:81-189 | a field `a` (at any pointer depth) tagged `lenmin:99999999999999999999x` with no pattern tag has code FailLenMin |

## Left out

- Go reflection is replaced by the descriptor types of `Values`. `StructTag.Get` is a map lookup that defaults to "", so the tag-string syntax is not parsed. `IsExported` is a flag. `AssignableTo` is equality of type names.
- Floating-point fields and the float branch of `valmin`/`valmax` (validate.go:154-162) are not modelled. `FloatKind` exists only as the element kind of a nil pointer.
- `float32`/`float64` parsing (`strconv.ParseFloat`) is left out with the float branch.
- Strings are sequences of bytes (`char` stands for a byte), with no UTF-8 decoding. White space is the ASCII set only, so `TrimSpace` and `Fields` ignore Unicode spaces.
- `strconv.Atoi` is modelled by `Text.ParseInt`, which matches it on 64-bit platforms. The parsers' error results are dropped, as the source drops them.
- Internal.DereferenceKind: for a nil pointer it returns the nil pointer itself, not the zero value of the element type. No caller reads that value.
- The regular-expression engine for pattern tags is a parameter, not an implementation. The test patterns (post code, country) are therefore stated through `PatternCode` of that engine, not evaluated.
- `sync.Map` concurrency in the regexp cache is not modelled. The cache is a class accessed sequentially, so races and duplicate concurrent stores are out of scope.
- A nil interface value in `OverwriteValues` cannot be expressed: every substitute carries a type and a value.
- The package-level `emailRegexp` is not compiled. It is replaced by the hand-written matcher `Consts.MatchesEmail`, which is proved equal to the pattern's declarative reading `Consts.EmailPattern`.
- The whole-struct expectations of validate_test.go are stated field by field, not as maps for whole structs. The field lemmas of `Scenarios` combine with `ValidateProperties.CollectOfField` and `ValidateProperties.NilPointerReported` to give each map entry.
- The restricted-fields test (validate_test.go:125-156) is covered by the general `ValidateProperties.NeverReported` and `ValidateProperties.CollectOfField`, not by a lemma about that struct.
- The `log.Printf` output of the test helper is not modelled.
- Validator.CheckField: says that the regexp cache loses no entry, not exactly which pattern it gains; ValidateField's contract states that.
- Validator.CollectViolations: says that the regexp cache loses no entry, not which pattern tags of the fields it gains.
- Validator.Validate: says that the regexp cache loses no entry, not which pattern tags of the struct's fields it gains.
