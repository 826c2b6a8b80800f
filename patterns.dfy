/** Pattern trees and what matching one against a value does.

    Matching is continuation-passing: a pattern calls the caller's success
    continuation zero or more times and its failure continuation with the
    failing sub-pattern and value. The model records those calls, in the
    order they fire, as a trace of events. The only mutable state in the
    matcher is whether each variable is bound and to what; it is the
    environment `env` live when a continuation fires. */
module Patterns {
  import opened Values

  type VarId = nat

  /** Which variables are bound, and to what: a variable is bound exactly
      when its id is a key. */
  type Env = map<VarId, Value>

  /** The node kinds every pattern is built from. `Match` extracts a value and
      continues with `into`; `Ensure` checks a predicate (and, as written,
      never runs `into`); `MatchAny` runs `into` on each element of a
      collection. */
  datatype Pattern =
    | Anything
    | Nothing
    | Constant(k: Value)
    | Var(id: VarId)
    | And(first: Pattern, second: Pattern)
    | Or(first: Pattern, second: Pattern)
    | Match(extract: Value -> Lookup, into: Pattern)
    | Ensure(pred: Value -> bool, into: Pattern)
    | MatchAny(mustExist: bool, onlyOnce: bool, into: Pattern)

  /** One call of a continuation, or a fault that propagates out of the match. */
  datatype Event =
    | Succ(env: Env)
    | Fail(pattern: Pattern, value: Value, env: Env)
    | Abort(env: Env)

  type Trace = seq<Event>

  /** The trace ended with a fault: nothing runs after it. */
  predicate Halted(t: Trace)
  {
    |t| > 0 && t[|t| - 1].Abort?
  }

  /** `t`, then `rest`, unless a fault ended `t`. */
  function Append(t: Trace, rest: Trace): (r: Trace)
    ensures Halted(t) ==> r == t
    ensures !Halted(t) ==> r == t + rest
  {
    if Halted(t) then t else t + rest
  }

  /** Runs `t` against a pair of continuations: each success event calls
      `cont` with the bindings live at that point, each failure event calls
      `fail`, and a fault stops everything. */
  function Continue(t: Trace, cont: Env -> Trace, fail: (Pattern, Value, Env) -> Trace): Trace
    decreases |t|
  {
    if |t| == 0 then []
    else
      match t[0]
      case Succ(e) => Append(cont(e), Continue(t[1..], cont, fail))
      case Fail(q, w, e) => Append(fail(q, w, e), Continue(t[1..], cont, fail))
      case Abort(e) => [Abort(e)]
  }

  /** The caller's own success continuation, passed on unchanged. */
  function Proceed(e: Env): Trace
  {
    [Succ(e)]
  }

  /** The caller's own failure continuation, passed on unchanged. */
  function Reraise(q: Pattern, w: Value, e: Env): Trace
  {
    [Fail(q, w, e)]
  }

  /** The default failure continuation, which does nothing. */
  function Swallow(q: Pattern, w: Value, e: Env): Trace
  {
    []
  }

  /** The events `p.unify(v, cont, fail)` produces when the variables are bound as in `env`. */
  function Unify(p: Pattern, v: Value, env: Env): Trace
    decreases p, 0
  {
    match p
    case Anything => [Succ(env)]
    case Nothing => [Fail(p, v, env)]
    case Constant(k) => if v == k then [Succ(env)] else [Fail(p, v, env)]
    case Var(x) =>
      if x in env then
        if v == env[x] then [Succ(env)] else [Fail(p, v, env)]
      else
        // bind, run the continuation with the binding live, unbind
        [Succ(env[x := v])]
    case And(a, b) => Continue(Unify(a, v, env), e => Unify(b, v, e), Reraise)
    case Or(a, b) => Continue(Unify(a, v, env), Proceed, (q, w, e) => Unify(b, v, e))
    case Match(f, into) =>
      (match f(v)
       case Found(w) => Unify(into, w, env)
       case SoftFault => [Fail(p, v, env)]
       case HardFault => [Abort(env)])
    case Ensure(pred, _) => if pred(v) then [Succ(env)] else [Fail(p, v, env)]
    case MatchAny(mustExist, onlyOnce, into) =>
      match Elements(v)
      case Iterable(xs) => AnyLoop(mustExist, onlyOnce, into, v, ElementTraces(into, xs, env), env, false)
      case NotIterable => [Abort(env)]
  }

  /** The successes of matching `into` against one element, as `MatchAny`
      passes them on: each is forwarded to the outer continuation and every
      failure is dropped. */
  function ElementTrace(into: Pattern, x: Value, env: Env): Trace
    decreases into, 1
  {
    Continue(Unify(into, x, env), Proceed, Swallow)
  }

  /** What matching `into` against each element would contribute, in
      iteration order. Matching is free of effects here, so computing the
      contribution of an element the loop never reaches changes nothing. */
  function ElementTraces(into: Pattern, xs: seq<Value>, env: Env): (outs: seq<Trace>)
    decreases into, 2 + |xs|
    ensures |outs| == |xs|
    ensures forall i | 0 <= i < |xs| :: outs[i] == ElementTrace(into, xs[i], env)
  {
    if |xs| == 0 then [] else [ElementTrace(into, xs[0], env)] + ElementTraces(into, xs[1..], env)
  }

  /** The loop of `MatchAny` over the contributions `outs` of the remaining
      elements of `whole`; `matched` says whether an earlier element reached
      the success continuation. A fault, or the first match when only one is
      wanted, ends the loop. */
  function AnyLoop(mustExist: bool, onlyOnce: bool, into: Pattern, whole: Value, outs: seq<Trace>, env: Env, matched: bool): Trace
    decreases |outs|
  {
    if |outs| == 0 then
      if mustExist && !matched then [Fail(MatchAny(mustExist, onlyOnce, into), whole, env)] else []
    else
      var m := matched || HasSucc(outs[0]);
      if Halted(outs[0]) || (onlyOnce && m) then outs[0]
      else outs[0] + AnyLoop(mustExist, onlyOnce, into, whole, outs[1..], env, m)
  }

  /** Some event of `t` calls the success continuation. */
  predicate HasSucc(t: Trace)
  {
    exists i :: 0 <= i < |t| && t[i].Succ?
  }

  /** Some event of `t` calls the failure continuation. */
  predicate HasFail(t: Trace)
  {
    exists i :: 0 <= i < |t| && t[i].Fail?
  }
}
