/**
 * The helpers of internal.go: pointer dereferencing, splitting a rule token
 * and the package-level cache of compiled regular expressions.
 */
module Internal {
  import opened Wrappers
  import opened Text
  import opened Values

  // ---------------------------------------------------------------------------
  // dereferenceKind
  // ---------------------------------------------------------------------------

  /** The triple dereferenceKind returns. */
  datatype Resolved = Resolved(isNil: bool, kind: Kind, concrete: Value)

  /**
   * Follows pointers until a non-pointer or a nil pointer is reached. For a
   * nil pointer it reports the element kind of that pointer's type; the value
   * it returns then is the nil pointer itself (the Go code returns the zero
   * value of the element type, which no caller reads).
   */
  function DereferenceKind(v: Value): (r: Resolved)
    ensures !r.isNil ==> r.kind != PointerKind && KindOf(r.concrete) == r.kind
    ensures r.isNil ==> r.concrete.Nil? && r.kind == r.concrete.elem
    ensures !v.Nil? && !v.To? ==> r == Resolved(false, KindOf(v), v)
  {
    match v
    case Nil(elem) => Resolved(true, elem, v)
    case To(target) => DereferenceKind(target)
    case _ => Resolved(false, KindOf(v), v)
  }

  /** A nil pointer at any depth is reported as nil, with its element kind. */
  lemma {:induction false} DereferenceNilChain(n: nat, elem: Kind)
    ensures DereferenceKind(PointerChain(n, Nil(elem))) == Resolved(true, elem, Nil(elem))
  {
    if n > 0 {
      DereferenceNilChain(n - 1, elem);
    }
  }

  /** Any number of non-nil pointers in front of a value are looked through. */
  lemma {:induction false} DereferenceValueChain(n: nat, v: Value)
    requires !v.Nil? && !v.To?
    ensures DereferenceKind(PointerChain(n, v)) == Resolved(false, KindOf(v), v)
  {
    if n > 0 {
      DereferenceValueChain(n - 1, v);
    }
  }

  // ---------------------------------------------------------------------------
  // parseRule
  // ---------------------------------------------------------------------------

  /** Splits a rule token at its first ':' into a name and an argument. */
  function ParseRule(tok: string): (string, string) {
    match IndexOf(tok, ':')
    case None => (tok, "")
    case Some(i) => (tok[..i], tok[i + 1..])
  }

  /**
   * Without a ':' the token is all name; with one, the name is what precedes
   * the first ':' and the argument is the rest, further ':' included.
   */
  lemma ParseRuleSpec(tok: string)
    ensures ':' !in tok ==> ParseRule(tok) == (tok, "")
    ensures ':' in tok ==> ':' !in ParseRule(tok).0 && ParseRule(tok).0 + ":" + ParseRule(tok).1 == tok
  {
    IndexOfSpec(tok, ':');
    match IndexOf(tok, ':')
    case None =>
    case Some(i) =>
      assert tok == tok[..i] + ":" + tok[i + 1..];
  }

  lemma ParseRuleJoin(name: string, arg: string)
    requires ':' !in name
    ensures ParseRule(name + ":" + arg) == (name, arg)
  {
    var tok := name + ":" + arg;
    assert tok[..|name|] == name;
    IndexOfAt(tok, ':', |name|);
    assert tok[|name| + 1..] == arg;
  }

  // ---------------------------------------------------------------------------
  // getCompiledRegexp and regexCache
  // ---------------------------------------------------------------------------

  /**
   * The regular-expression engine, left uninterpreted: `compile` is
   * regexp.Compile (None for a pattern that does not compile) and
   * `matchString` is Regexp.MatchString on a compiled program of type M.
   */
  datatype RegexpEngine<!M> = RegexpEngine(compile: string -> Option<M>, matchString: (M, string) -> bool)

  /** The package-level regexCache, owned by one object; accessed sequentially. */
  class RegexCache<M> {
    const engine: RegexpEngine<M>
    var entries: map<string, M>

    /** Every cached program is what compiling its pattern gives. */
    ghost predicate Valid()
      reads this
    {
      forall p :: p in entries ==> engine.compile(p) == Some(entries[p])
    }

    constructor (engine: RegexpEngine<M>)
      ensures Valid() && this.engine == engine && entries == map[]
    {
      this.engine := engine;
      entries := map[];
    }

    /**
     * getCompiledRegexp: a cached program is returned as it is; otherwise the
     * pattern is compiled, and stored only when compiling succeeds. Either
     * way the result is what compiling the pattern afresh gives.
     */
    method GetCompiled(pattern: string) returns (m: Option<M>)
      requires Valid()
      modifies this
      ensures Valid()
      ensures m == engine.compile(pattern)
      ensures pattern in old(entries) ==> m == Some(old(entries)[pattern]) && entries == old(entries)
      ensures m.None? ==> entries == old(entries)
      ensures m.Some? ==> entries == old(entries)[pattern := m.value]
    {
      if pattern in entries {
        return Some(entries[pattern]);
      }
      var compiled := engine.compile(pattern);
      if compiled.None? {
        return None;
      }
      entries := entries[pattern := compiled.value];
      return compiled;
    }
  }
}
