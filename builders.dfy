/** The chainable patterns and what `a ** b` builds from them. Each chainable
    pattern only knows how to bind a continuation pattern; the node it builds
    is one of the pattern kinds matching is defined on. Chaining associates to
    the right: `a ** b ** c` is `a ** (b ** c)`. */
module Builders {
  import opened Values
  import opened Patterns
  import opened TraceLaws
  import opened PatternLaws

  /** The patterns that can stand left of `**`. */
  datatype Chainable =
    | Attribute(name: string)
    | Subtype(cls: string)
    | Index(key: Value)
    | Get(extractor: Value -> Lookup)
    | If(condition: Value -> bool)
    | Any(mustExist: bool, onlyOnce: bool)
    | ChainVar(id: VarId)

  /** The three preset quantifiers. `Any()` with its default arguments is
      `FirstElement`. */
  const SomeElements: Chainable := Any(true, false)
  const FirstElement: Chainable := Any(true, true)
  const EachElement: Chainable := Any(false, false)

  /** The pattern that ends a chain written without a continuation. */
  const Return: Pattern := Anything

  /** `c ** next`. */
  function Bind(c: Chainable, next: Pattern): Pattern
  {
    match c
    case Attribute(name) => Match(v => GetAttr(v, name), next)
    case Subtype(cls) => Ensure(v => IsInstance(v, cls), next)
    case Index(key) => Match(v => GetItem(v, key), next)
    case Get(extractor) => Match(extractor, next)
    case If(condition) => Ensure(condition, next)
    case Any(mustExist, onlyOnce) => MatchAny(mustExist, onlyOnce, next)
    case ChainVar(id) => And(Var(id), next)
  }

  /** A chainable pattern matched on its own: a variable matches as itself,
      any other chainable as `c ** Return`. */
  function AsPattern(c: Chainable): Pattern
  {
    if c.ChainVar? then Var(c.id) else Bind(c, Return)
  }

  /** `cs[0] ** (cs[1] ** (... ** last))`. */
  function Chain(cs: seq<Chainable>, last: Pattern): Pattern
  {
    if |cs| == 0 then last else Bind(cs[0], Chain(cs[1..], last))
  }

  /** A chain of attribute lookups, one per name. */
  function Attributes(names: seq<string>): (cs: seq<Chainable>)
    ensures |cs| == |names|
    ensures forall i | 0 <= i < |names| :: cs[i] == Attribute(names[i])
  {
    if |names| == 0 then [] else [Attribute(names[0])] + Attributes(names[1..])
  }

  /** Following attribute names one after the other from `v`. */
  function Resolve(v: Value, names: seq<string>): Lookup
  {
    if |names| == 0 then Found(v)
    else match GetAttr(v, names[0])
      case Found(w) => Resolve(w, names[1..])
      case other => other
  }

  // ---------------------------------------------------------------------
  // Composition

  /** Chaining associates to the right: splitting a chain anywhere and
      chaining the two halves gives the same pattern. */
  lemma {:induction false} ChainAppend(xs: seq<Chainable>, ys: seq<Chainable>, last: Pattern)
    ensures Chain(xs + ys, last) == Chain(xs, Chain(ys, last))
  {
    if |xs| == 0 {
      assert xs + ys == ys;
    } else {
      assert (xs + ys)[1..] == xs[1..] + ys;
      ChainAppend(xs[1..], ys, last);
    }
  }

  /** The variables chained in `cs`. */
  function ChainedVars(cs: seq<Chainable>): set<VarId>
  {
    if |cs| == 0 then {}
    else (if cs[0].ChainVar? then {cs[0].id} else {}) + ChainedVars(cs[1..])
  }

  /** A chain binds no variable except those chained in it and those of the
      last pattern. */
  lemma {:induction false} ChainVars(cs: seq<Chainable>, last: Pattern)
    ensures Vars(Chain(cs, last)) == Vars(last) + ChainedVars(cs)
  {
    if |cs| > 0 {
      ChainVars(cs[1..], last);
    }
  }

  /** A variable matched on its own behaves as the default `variable ** Return`. */
  lemma VariableAsPatternIsBindReturn(x: VarId, v: Value, env: Env)
    ensures Unify(AsPattern(ChainVar(x)), v, env) == Unify(Bind(ChainVar(x), Return), v, env)
  {
    UnifyWellFormed(Var(x), v, env);
    ContinueKeeps(Unify(Var(x), v, env), e => Unify(Anything, v, e), Reraise);
  }

  // ---------------------------------------------------------------------
  // What each chainable does

  /** `Attribute(name) ** next` continues with the attribute's value, and
      fails once, reporting itself and the object, when there is none. */
  lemma AttributeLookup(name: string, next: Pattern, v: Value, env: Env)
    ensures v.Object? && name in v.attrs ==>
      Unify(Bind(Attribute(name), next), v, env) == Unify(next, v.attrs[name], env)
    ensures !(v.Object? && name in v.attrs) ==>
      Unify(Bind(Attribute(name), next), v, env) == [Fail(Bind(Attribute(name), next), v, env)]
  {
  }

  /** A chain of attribute lookups continues with the value at the end of
      the path, and fails once when some attribute on the way is missing. */
  lemma {:induction false} AttributePath(names: seq<string>, last: Pattern, v: Value, env: Env)
    ensures Resolve(v, names).Found? ==>
      Unify(Chain(Attributes(names), last), v, env) == Unify(last, Resolve(v, names).v, env)
    ensures !Resolve(v, names).Found? ==>
      var t := Unify(Chain(Attributes(names), last), v, env);
      |t| == 1 && t[0].Fail? && t[0].env == env
  {
    if |names| > 0 {
      var cs := Attributes(names);
      assert cs[1..] == Attributes(names[1..]);
      AttributeLookup(names[0], Chain(cs[1..], last), v, env);
      if v.Object? && names[0] in v.attrs {
        AttributePath(names[1..], last, v.attrs[names[0]], env);
      }
    }
  }

  /** `Index(key) ** next` continues with the item at `key` (counting from
      the end for a negative index), fails once on an index out of range or
      a missing key, and ends the match with a fault when the value cannot
      be subscripted with `key`. */
  lemma IndexLookup(key: Value, next: Pattern, v: Value, env: Env)
    ensures GetItem(v, key).Found? ==>
      Unify(Bind(Index(key), next), v, env) == Unify(next, GetItem(v, key).v, env)
    ensures GetItem(v, key).SoftFault? ==>
      Unify(Bind(Index(key), next), v, env) == [Fail(Bind(Index(key), next), v, env)]
    ensures GetItem(v, key).HardFault? ==>
      Unify(Bind(Index(key), next), v, env) == [Abort(env)]
  {
  }

  /** On a list, `Index(i) ** next` is `next` on item `i`, or item `|xs| + i`
      for a negative `i`; outside the range it fails once. */
  lemma ListIndex(xs: seq<Value>, i: int, next: Pattern, env: Env)
    ensures 0 <= i < |xs| ==>
      Unify(Bind(Index(Int(i)), next), List(xs), env) == Unify(next, xs[i], env)
    ensures -|xs| <= i < 0 ==>
      Unify(Bind(Index(Int(i)), next), List(xs), env) == Unify(next, xs[|xs| + i], env)
    ensures !(-|xs| <= i < |xs|) ==>
      Unify(Bind(Index(Int(i)), next), List(xs), env) == [Fail(Bind(Index(Int(i)), next), List(xs), env)]
  {
  }

  /** `Subtype(cls) ** next` succeeds once, with the caller's bindings, iff
      the value is an instance of `cls`, and otherwise fails once reporting
      itself and the value. As written it never runs `next`: on an instance
      it succeeds whatever `next` and `other` are. */
  lemma SubtypeChecks(cls: string, next: Pattern, other: Pattern, v: Value, env: Env)
    ensures Unify(Bind(Subtype(cls), next), v, env) ==
      (if IsInstance(v, cls) then [Succ(env)] else [Fail(Bind(Subtype(cls), next), v, env)])
    ensures IsInstance(v, cls) ==>
      Unify(Bind(Subtype(cls), next), v, env) == Unify(Bind(Subtype(cls), other), v, env)
  {
  }

  /** `If(cond) ** next` succeeds once, with the caller's bindings, iff the
      condition holds, and otherwise fails once reporting itself and the
      value. As written it never runs `next`, so no variable in `next` is
      ever bound by it. */
  lemma IfIgnoresContinuation(cond: Value -> bool, next: Pattern, other: Pattern, v: Value, env: Env)
    ensures Unify(Bind(If(cond), next), v, env) ==
      (if cond(v) then [Succ(env)] else [Fail(Bind(If(cond), next), v, env)])
    ensures cond(v) ==>
      Unify(Bind(If(cond), next), v, env) == Unify(Bind(If(cond), other), v, env)
  {
  }

  /** `variable ** next` runs `next` on the same value: with the variable
      bound to it when it was unbound, unchanged when it was already bound to
      an equal value; a bound variable holding a different value fails once
      and `next` never runs. */
  lemma VariableThen(x: VarId, next: Pattern, v: Value, env: Env)
    ensures x !in env ==> Unify(Bind(ChainVar(x), next), v, env) == Unify(next, v, env[x := v])
    ensures x in env && env[x] == v ==> Unify(Bind(ChainVar(x), next), v, env) == Unify(next, v, env)
    ensures x in env && env[x] != v ==> Unify(Bind(ChainVar(x), next), v, env) == [Fail(Var(x), v, env)]
  {
    if x !in env {
      AndSecondSeesBinding(x, next, v, env);
    } else if env[x] == v {
      ContinueSingle(Succ(env), e => Unify(next, v, e), Reraise);
    } else {
      ContinueSingle(Fail(Var(x), v, env), e => Unify(next, v, e), Reraise);
    }
  }

  /** `Get(f) ** next` is `Match(f, next)`: it continues with what `f`
      extracts and fails once, with the original value, on a soft fault. */
  lemma GetExtracts(f: Value -> Lookup, next: Pattern, v: Value, env: Env)
    ensures f(v).Found? ==> Unify(Bind(Get(f), next), v, env) == Unify(next, f(v).v, env)
    ensures f(v).SoftFault? ==> Unify(Bind(Get(f), next), v, env) == [Fail(Bind(Get(f), next), v, env)]
    ensures f(v).HardFault? ==> Unify(Bind(Get(f), next), v, env) == [Abort(env)]
  {
  }

  /** `Attribute(name)` is `Get` with the attribute lookup as extractor. */
  lemma AttributeIsGet(name: string, next: Pattern, v: Value, env: Env)
    ensures Unify(Bind(Attribute(name), next), v, env) ==
      Unify(Bind(Get(w => GetAttr(w, name)), next), v, env)
  {
  }
}
