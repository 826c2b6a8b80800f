/** What matching promises, for every pattern and every value: the leaf
    patterns, the scoping of variable bindings, the two combinators, and
    what a failure reports. */
module PatternLaws {
  import opened Values
  import opened Patterns
  import opened TraceLaws

  /** The variables occurring in a pattern. */
  function Vars(p: Pattern): set<VarId>
  {
    match p
    case Anything => {}
    case Nothing => {}
    case Constant(_) => {}
    case Var(x) => {x}
    case And(a, b) => Vars(a) + Vars(b)
    case Or(a, b) => Vars(a) + Vars(b)
    case Match(_, into) => Vars(into)
    case Ensure(_, into) => Vars(into)
    case MatchAny(_, _, into) => Vars(into)
  }

  /** `q` is `p` or a node inside it. */
  ghost predicate SubPattern(q: Pattern, p: Pattern)
  {
    q == p ||
    match p
    case And(a, b) => SubPattern(q, a) || SubPattern(q, b)
    case Or(a, b) => SubPattern(q, a) || SubPattern(q, b)
    case Match(_, into) => SubPattern(q, into)
    case Ensure(_, into) => SubPattern(q, into)
    case MatchAny(_, _, into) => SubPattern(q, into)
    case _ => false
  }

  /** Every binding of `env` is still there, with the same value, in `e`. */
  ghost predicate Extends(e: Env, env: Env)
  {
    forall x :: x in env ==> x in e && e[x] == env[x]
  }

  /** `e` is `env` plus bindings of variables from `vs` only. */
  ghost predicate Within(e: Env, env: Env, vs: set<VarId>)
  {
    Extends(e, env) && e.Keys <= env.Keys + vs
  }

  // ---------------------------------------------------------------------
  // Leaf patterns

  /** `Anything` calls the success continuation exactly once and never fails. */
  lemma AnythingSucceedsOnce(v: Value, env: Env)
    ensures Unify(Anything, v, env) == [Succ(env)]
  {
  }

  /** `Nothing` reports itself and the value exactly once and never succeeds. */
  lemma NothingFailsOnce(v: Value, env: Env)
    ensures Unify(Nothing, v, env) == [Fail(Nothing, v, env)]
  {
  }

  /** `Constant(k)` answers once: a success iff the value equals `k`,
      otherwise a failure reporting the constant and the value. */
  lemma ConstantMatchesIffEqual(k: Value, v: Value, env: Env)
    ensures var r := Unify(Constant(k), v, env);
      |r| == 1 && r[0].env == env &&
      (r[0].Succ? <==> v == k) &&
      (r[0].Fail? ==> r[0].pattern == Constant(k) && r[0].value == v)
  {
  }

  /** An unbound variable binds the value for the one call of the success
      continuation and never fails; the caller's bindings are untouched. */
  lemma UnboundVarBinds(x: VarId, v: Value, env: Env)
    requires x !in env
    ensures var r := Unify(Var(x), v, env);
      |r| == 1 && r[0].Succ? && r[0].env == env[x := v] && r[0].env[x] == v
  {
  }

  /** A bound variable succeeds iff the value equals the bound one, otherwise
      reports itself and the value; either way no binding changes. */
  lemma BoundVarCompares(x: VarId, v: Value, env: Env)
    requires x in env
    ensures var r := Unify(Var(x), v, env);
      |r| == 1 && r[0].env == env &&
      (r[0].Succ? <==> v == env[x]) &&
      (r[0].Fail? ==> r[0].pattern == Var(x) && r[0].value == v)
  {
  }

  // ---------------------------------------------------------------------
  // Whole-tree properties

  /** Every event of `t` runs with `env` plus bindings of variables from `vs`. */
  ghost predicate EventsWithin(t: Trace, env: Env, vs: set<VarId>)
  {
    forall i | 0 <= i < |t| :: Within(t[i].env, env, vs)
  }

  /** Every failure event of `t` reports a node of `p`. */
  ghost predicate FailuresFrom(t: Trace, p: Pattern)
  {
    forall i | 0 <= i < |t| :: t[i].Fail? ==> SubPattern(t[i].pattern, p)
  }

  /** Every event of `t` runs with exactly the bindings `env`. */
  ghost predicate EnvsAre(t: Trace, env: Env)
  {
    forall i | 0 <= i < |t| :: t[i].env == env
  }

  lemma EventsWithinConcat(x: Trace, y: Trace, env: Env, vs: set<VarId>)
    requires EventsWithin(x, env, vs) && EventsWithin(y, env, vs)
    ensures EventsWithin(x + y, env, vs)
  {
    assert forall i | |x| <= i < |x + y| :: (x + y)[i] == y[i - |x|];
  }

  /** A fault is always the last event of a match. */
  lemma {:induction false} UnifyWellFormed(p: Pattern, v: Value, env: Env)
    ensures WellFormed(Unify(p, v, env))
    decreases p, 0
  {
    match p
    case And(a, b) =>
      var t := Unify(a, v, env);
      forall i | 0 <= i < |t| && t[i].Succ? ensures WellFormed(Unify(b, v, t[i].env)) {
        UnifyWellFormed(b, v, t[i].env);
      }
      ContinueWellFormed(t, e => Unify(b, v, e), Reraise);
    case Or(a, b) =>
      var t := Unify(a, v, env);
      forall i | 0 <= i < |t| && t[i].Fail? ensures WellFormed(Unify(b, v, t[i].env)) {
        UnifyWellFormed(b, v, t[i].env);
      }
      ContinueWellFormed(t, Proceed, (q, w, e) => Unify(b, v, e));
    case Match(f, into) =>
      if f(v).Found? {
        UnifyWellFormed(into, f(v).v, env);
      }
    case MatchAny(mustExist, onlyOnce, into) =>
      if Elements(v).Iterable? {
        var xs := Elements(v).elems;
        var outs := ElementTraces(into, xs, env);
        forall i | 0 <= i < |outs| ensures WellFormed(outs[i]) {
          UnifyWellFormed(into, xs[i], env);
          ContinueWellFormed(Unify(into, xs[i], env), Proceed, Swallow);
        }
        AnyLoopWellFormed(mustExist, onlyOnce, into, v, outs, env, false);
      }
    case _ =>
  }

  lemma {:induction false} AnyLoopWellFormed(mustExist: bool, onlyOnce: bool, into: Pattern, whole: Value,
                                             outs: seq<Trace>, env: Env, matched: bool)
    requires forall i | 0 <= i < |outs| :: WellFormed(outs[i])
    ensures WellFormed(AnyLoop(mustExist, onlyOnce, into, whole, outs, env, matched))
    decreases |outs|
  {
    if |outs| > 0 {
      var m := matched || HasSucc(outs[0]);
      if !(Halted(outs[0]) || (onlyOnce && m)) {
        assert forall i | 0 <= i < |outs| - 1 :: outs[1..][i] == outs[i + 1];
        AnyLoopWellFormed(mustExist, onlyOnce, into, whole, outs[1..], env, m);
        AppendWellFormed(outs[0], AnyLoop(mustExist, onlyOnce, into, whole, outs[1..], env, m));
      }
    }
  }

  lemma WithinWiden(e: Env, env: Env, vs: set<VarId>, ws: set<VarId>)
    requires Within(e, env, vs) && vs <= ws
    ensures Within(e, env, ws)
  {
  }

  lemma WithinTrans(e2: Env, e1: Env, env: Env, va: set<VarId>, vb: set<VarId>, vs: set<VarId>)
    requires Within(e1, env, va) && Within(e2, e1, vb) && va + vb <= vs
    ensures Within(e2, env, vs)
  {
  }

  /** Matching never loses or changes a binding the caller had, and the only
      bindings it adds are of variables occurring in the pattern: a binding
      lives exactly as long as the continuation that followed it. */
  lemma {:induction false} UnifyWithin(p: Pattern, v: Value, env: Env)
    ensures EventsWithin(Unify(p, v, env), env, Vars(p))
    decreases p, 1
  {
    match p
    case And(a, b) => AndWithin(a, b, v, env);
    case Or(a, b) => OrWithin(a, b, v, env);
    case Match(f, into) =>
      if f(v).Found? {
        UnifyWithin(into, f(v).v, env);
      }
    case MatchAny(mustExist, onlyOnce, into) =>
      if Elements(v).Iterable? {
        var xs := Elements(v).elems;
        var outs := ElementTraces(into, xs, env);
        forall i | 0 <= i < |outs| ensures EventsWithin(outs[i], env, Vars(into)) {
          UnifyWithin(into, xs[i], env);
          ElementWithin(into, xs[i], env);
        }
        AnyLoopWithin(mustExist, onlyOnce, into, v, outs, env, false);
      }
    case _ =>
  }

  lemma {:induction false} AndWithin(a: Pattern, b: Pattern, v: Value, env: Env)
    ensures EventsWithin(Unify(And(a, b), v, env), env, Vars(a) + Vars(b))
    decreases And(a, b), 0
  {
    var vs := Vars(a) + Vars(b);
    var t := Unify(a, v, env);
    UnifyWithin(a, v, env);
    forall i | 0 <= i < |t| ensures Within(t[i].env, env, vs) {
      WithinWiden(t[i].env, env, Vars(a), vs);
    }
    forall i | 0 <= i < |t| && t[i].Succ? ensures EventsWithin(Unify(b, v, t[i].env), env, vs) {
      UnifyWithin(b, v, t[i].env);
      EventsWithinAfter(Unify(b, v, t[i].env), t[i].env, env, Vars(a), Vars(b), vs);
    }
    ContinueWithin(t, e => Unify(b, v, e), Reraise, env, vs);
  }

  lemma {:induction false} OrWithin(a: Pattern, b: Pattern, v: Value, env: Env)
    ensures EventsWithin(Unify(Or(a, b), v, env), env, Vars(a) + Vars(b))
    decreases Or(a, b), 0
  {
    var vs := Vars(a) + Vars(b);
    var t := Unify(a, v, env);
    UnifyWithin(a, v, env);
    forall i | 0 <= i < |t| ensures Within(t[i].env, env, vs) {
      WithinWiden(t[i].env, env, Vars(a), vs);
    }
    forall i | 0 <= i < |t| && t[i].Fail? ensures EventsWithin(Unify(b, v, t[i].env), env, vs) {
      UnifyWithin(b, v, t[i].env);
      EventsWithinAfter(Unify(b, v, t[i].env), t[i].env, env, Vars(a), Vars(b), vs);
    }
    ContinueWithin(t, Proceed, (q, w, e) => Unify(b, v, e), env, vs);
  }

  /** Events that stay within `vb` of a point `e1` that is itself within `va`
      of `env` stay within `va + vb` of `env`. */
  lemma EventsWithinAfter(u: Trace, e1: Env, env: Env, va: set<VarId>, vb: set<VarId>, vs: set<VarId>)
    requires Within(e1, env, va) && EventsWithin(u, e1, vb) && va + vb <= vs
    ensures EventsWithin(u, env, vs)
  {
    forall j | 0 <= j < |u| ensures Within(u[j].env, env, vs) {
      WithinTrans(u[j].env, e1, env, va, vb, vs);
    }
  }

  /** Running continuations whose outputs stay within `vs` of `env`, on events
      that do too, stays within `vs` of `env`; a success or failure event
      that calls the caller's own continuation re-emits itself. */
  lemma ContinueWithin(t: Trace, cont: Env -> Trace, fail: (Pattern, Value, Env) -> Trace, env: Env, vs: set<VarId>)
    requires EventsWithin(t, env, vs)
    requires forall i | 0 <= i < |t| && t[i].Succ? :: EventsWithin(cont(t[i].env), env, vs)
    requires forall i | 0 <= i < |t| && t[i].Fail? :: EventsWithin(fail(t[i].pattern, t[i].value, t[i].env), env, vs)
    ensures EventsWithin(Continue(t, cont, fail), env, vs)
  {
    var P := (ev: Event) => Within(ev.env, env, vs);
    forall i | 0 <= i < |t|
      ensures t[i].Succ? ==> All(cont(t[i].env), P)
      ensures t[i].Fail? ==> All(fail(t[i].pattern, t[i].value, t[i].env), P)
      ensures t[i].Abort? ==> P(t[i])
    {
    }
    ContinueAll(t, cont, fail, P);
  }

  /** An element's contribution keeps the bindings its own match keeps. */
  lemma ElementWithin(into: Pattern, x: Value, env: Env)
    requires EventsWithin(Unify(into, x, env), env, Vars(into))
    ensures EventsWithin(ElementTrace(into, x, env), env, Vars(into))
  {
    var P := (ev: Event) => Within(ev.env, env, Vars(into));
    var t := Unify(into, x, env);
    forall i | 0 <= i < |t|
      ensures t[i].Succ? ==> All(Proceed(t[i].env), P)
      ensures t[i].Fail? ==> All(Swallow(t[i].pattern, t[i].value, t[i].env), P)
      ensures t[i].Abort? ==> P(t[i])
    {
    }
    ContinueAll(t, Proceed, Swallow, P);
  }

  lemma {:induction false} AnyLoopWithin(mustExist: bool, onlyOnce: bool, into: Pattern, whole: Value,
                                         outs: seq<Trace>, env: Env, matched: bool)
    requires forall i | 0 <= i < |outs| :: EventsWithin(outs[i], env, Vars(into))
    ensures EventsWithin(AnyLoop(mustExist, onlyOnce, into, whole, outs, env, matched), env, Vars(into))
    decreases |outs|
  {
    if |outs| > 0 {
      var m := matched || HasSucc(outs[0]);
      if !(Halted(outs[0]) || (onlyOnce && m)) {
        assert forall i | 0 <= i < |outs| - 1 :: outs[1..][i] == outs[i + 1];
        AnyLoopWithin(mustExist, onlyOnce, into, whole, outs[1..], env, m);
        EventsWithinConcat(outs[0], AnyLoop(mustExist, onlyOnce, into, whole, outs[1..], env, m), env, Vars(into));
      }
    }
  }

  /** A pattern without variables runs every continuation with the caller's
      bindings exactly. */
  lemma ClosedPatternKeepsEnv(p: Pattern, v: Value, env: Env)
    requires Vars(p) == {}
    ensures EnvsAre(Unify(p, v, env), env)
  {
    var t := Unify(p, v, env);
    UnifyWithin(p, v, env);
    forall i | 0 <= i < |t| ensures t[i].env == env {
      assert Within(t[i].env, env, {});
      assert t[i].env.Keys == env.Keys;
    }
  }

  /** A failure always reports a node of the pattern itself, never a wrapper
      made up along the way. */
  lemma {:induction false} FailuresReportSubpatterns(p: Pattern, v: Value, env: Env)
    ensures FailuresFrom(Unify(p, v, env), p)
    decreases p, 1
  {
    match p
    case And(a, b) => AndFailures(a, b, v, env);
    case Or(a, b) => OrFailures(a, b, v, env);
    case Match(f, into) =>
      if f(v).Found? {
        FailuresReportSubpatterns(into, f(v).v, env);
      }
    case MatchAny(mustExist, onlyOnce, into) =>
      if Elements(v).Iterable? {
        var xs := Elements(v).elems;
        var outs := ElementTraces(into, xs, env);
        forall i | 0 <= i < |outs| ensures !HasFail(outs[i]) {
          ElementNeverFails(into, xs[i], env);
        }
        var t := AnyLoop(mustExist, onlyOnce, into, v, outs, env, false);
        AnyLoopFailsAsWhole(mustExist, onlyOnce, into, v, outs, env, false);
        assert forall i | 0 <= i < |t| :: t[i].Fail? ==> t[i].pattern == p;
      }
    case _ =>
  }

  lemma {:induction false} AndFailures(a: Pattern, b: Pattern, v: Value, env: Env)
    ensures FailuresFrom(Unify(And(a, b), v, env), And(a, b))
    decreases And(a, b), 0
  {
    var p := And(a, b);
    var P := (ev: Event) => ev.Fail? ==> SubPattern(ev.pattern, p);
    var t := Unify(a, v, env);
    FailuresReportSubpatterns(a, v, env);
    forall i | 0 <= i < |t|
      ensures t[i].Succ? ==> All(Unify(b, v, t[i].env), P)
      ensures t[i].Fail? ==> All(Reraise(t[i].pattern, t[i].value, t[i].env), P)
      ensures t[i].Abort? ==> P(t[i])
    {
      if t[i].Succ? {
        FailuresReportSubpatterns(b, v, t[i].env);
      }
    }
    ContinueAll(t, e => Unify(b, v, e), Reraise, P);
  }

  lemma {:induction false} OrFailures(a: Pattern, b: Pattern, v: Value, env: Env)
    ensures FailuresFrom(Unify(Or(a, b), v, env), Or(a, b))
    decreases Or(a, b), 0
  {
    var p := Or(a, b);
    var P := (ev: Event) => ev.Fail? ==> SubPattern(ev.pattern, p);
    var t := Unify(a, v, env);
    forall i | 0 <= i < |t|
      ensures t[i].Succ? ==> All(Proceed(t[i].env), P)
      ensures t[i].Fail? ==> All(Unify(b, v, t[i].env), P)
      ensures t[i].Abort? ==> P(t[i])
    {
      if t[i].Fail? {
        FailuresReportSubpatterns(b, v, t[i].env);
      }
    }
    ContinueAll(t, Proceed, (q, w, e) => Unify(b, v, e), P);
  }

  /** `ev`, when a failure, is among the events of matching its reported node
      again against its reported value under the bindings live at the report. */
  ghost predicate Replays(ev: Event)
  {
    ev.Fail? ==> ev in Unify(ev.pattern, ev.value, ev.env)
  }

  /** Every failure event of `t` replays. */
  ghost predicate FailuresReplay(t: Trace)
  {
    forall i | 0 <= i < |t| :: Replays(t[i])
  }

  /** A failure reports the node that did not match together with the value it
      did not match: matching that node again against that value, under the
      same bindings, reports the same failure. */
  lemma {:induction false} FailuresReplayed(p: Pattern, v: Value, env: Env)
    ensures FailuresReplay(Unify(p, v, env))
    decreases p, 1
  {
    match p
    case And(a, b) => AndReplays(a, b, v, env);
    case Or(a, b) => OrReplays(a, b, v, env);
    case Match(f, into) =>
      if f(v).Found? {
        FailuresReplayed(into, f(v).v, env);
      }
    case MatchAny(mustExist, onlyOnce, into) =>
      if Elements(v).Iterable? {
        var xs := Elements(v).elems;
        var outs := ElementTraces(into, xs, env);
        forall i | 0 <= i < |outs| ensures !HasFail(outs[i]) {
          ElementNeverFails(into, xs[i], env);
        }
        AnyLoopFailsAsWhole(mustExist, onlyOnce, into, v, outs, env, false);
        var t := Unify(p, v, env);
        forall i | 0 <= i < |t| ensures Replays(t[i]) {
          if t[i].Fail? {
            assert t[i] == Fail(p, v, env);
          }
        }
      }
    case _ =>
  }

  lemma {:induction false} AndReplays(a: Pattern, b: Pattern, v: Value, env: Env)
    ensures FailuresReplay(Unify(And(a, b), v, env))
    decreases And(a, b), 0
  {
    var P := (ev: Event) => Replays(ev);
    var t := Unify(a, v, env);
    FailuresReplayed(a, v, env);
    forall i | 0 <= i < |t|
      ensures t[i].Succ? ==> All(Unify(b, v, t[i].env), P)
      ensures t[i].Fail? ==> All(Reraise(t[i].pattern, t[i].value, t[i].env), P)
      ensures t[i].Abort? ==> P(t[i])
    {
      if t[i].Succ? {
        FailuresReplayed(b, v, t[i].env);
      }
    }
    ContinueAll(t, e => Unify(b, v, e), Reraise, P);
  }

  lemma {:induction false} OrReplays(a: Pattern, b: Pattern, v: Value, env: Env)
    ensures FailuresReplay(Unify(Or(a, b), v, env))
    decreases Or(a, b), 0
  {
    var P := (ev: Event) => Replays(ev);
    var t := Unify(a, v, env);
    forall i | 0 <= i < |t|
      ensures t[i].Succ? ==> All(Proceed(t[i].env), P)
      ensures t[i].Fail? ==> All(Unify(b, v, t[i].env), P)
      ensures t[i].Abort? ==> P(t[i])
    {
      if t[i].Fail? {
        FailuresReplayed(b, v, t[i].env);
      }
    }
    ContinueAll(t, Proceed, (q, w, e) => Unify(b, v, e), P);
  }

  /** Every failure event of `t` is `ev`. */
  ghost predicate OnlyFailureIs(t: Trace, ev: Event)
  {
    forall i | 0 <= i < |t| :: t[i].Fail? ==> t[i] == ev
  }

  /** `MatchAny` hands each element's match a failure continuation that
      does nothing, so an element's contribution holds no failure. */
  lemma ElementNeverFails(into: Pattern, x: Value, env: Env)
    ensures !HasFail(ElementTrace(into, x, env))
  {
    var P := (ev: Event) => !ev.Fail?;
    var t := Unify(into, x, env);
    forall i | 0 <= i < |t|
      ensures t[i].Succ? ==> All(Proceed(t[i].env), P)
      ensures t[i].Fail? ==> All(Swallow(t[i].pattern, t[i].value, t[i].env), P)
      ensures t[i].Abort? ==> P(t[i])
    {
    }
    ContinueAll(t, Proceed, Swallow, P);
    var out := ElementTrace(into, x, env);
    assert forall i | 0 <= i < |out| :: P(out[i]);
  }

  /** Inside `MatchAny` the failures of single elements never surface: the
      only failure reported is the quantifier itself with the whole collection. */
  lemma {:induction false} AnyLoopFailsAsWhole(mustExist: bool, onlyOnce: bool, into: Pattern, whole: Value,
                                               outs: seq<Trace>, env: Env, matched: bool)
    requires forall i | 0 <= i < |outs| :: !HasFail(outs[i])
    ensures OnlyFailureIs(AnyLoop(mustExist, onlyOnce, into, whole, outs, env, matched),
                          Fail(MatchAny(mustExist, onlyOnce, into), whole, env))
    decreases |outs|
  {
    if |outs| > 0 {
      var out := outs[0];
      var m := matched || HasSucc(out);
      if !(Halted(out) || (onlyOnce && m)) {
        assert forall i | 0 <= i < |outs| - 1 :: outs[1..][i] == outs[i + 1];
        AnyLoopFailsAsWhole(mustExist, onlyOnce, into, whole, outs[1..], env, m);
        var rest := AnyLoop(mustExist, onlyOnce, into, whole, outs[1..], env, m);
        assert forall i | |out| <= i < |out + rest| :: (out + rest)[i] == rest[i - |out|];
      }
    }
  }

  // ---------------------------------------------------------------------
  // And

  /** When the first pattern never reaches its success continuation, the
      second never runs and the conjunction reports exactly the first
      pattern's failures. */
  lemma AndFirstOnlyFails(a: Pattern, b: Pattern, v: Value, env: Env)
    requires !HasSucc(Unify(a, v, env))
    ensures Unify(And(a, b), v, env) == Unify(a, v, env)
  {
    UnifyWellFormed(a, v, env);
    ContinueKeeps(Unify(a, v, env), e => Unify(b, v, e), Reraise);
  }

  /** The second pattern runs inside the first one's success continuation, so
      a variable the first one binds is live while the second runs. */
  lemma AndSecondSeesBinding(x: VarId, b: Pattern, v: Value, env: Env)
    requires x !in env
    ensures Unify(And(Var(x), b), v, env) == Unify(b, v, env[x := v])
  {
    ContinueSingle(Succ(env[x := v]), e => Unify(b, v, e), Reraise);
  }

  /** `Anything` is a unit of conjunction on both sides. */
  lemma AndAnythingUnit(p: Pattern, v: Value, env: Env)
    ensures Unify(And(Anything, p), v, env) == Unify(p, v, env)
    ensures Unify(And(p, Anything), v, env) == Unify(p, v, env)
  {
    ContinueSingle(Succ(env), e => Unify(p, v, e), Reraise);
    UnifyWellFormed(p, v, env);
    ContinueKeeps(Unify(p, v, env), e => Unify(Anything, v, e), Reraise);
  }

  /** Conjunction is associative. */
  lemma AndAssoc(a: Pattern, b: Pattern, c: Pattern, v: Value, env: Env)
    ensures Unify(And(And(a, b), c), v, env) == Unify(And(a, And(b, c)), v, env)
  {
    var kb := (e: Env) => Unify(b, v, e);
    var kc := (e: Env) => Unify(c, v, e);
    var kbc := (e: Env) => Unify(And(b, c), v, e);
    forall q, w, e ensures Reraise(q, w, e) == Continue(Reraise(q, w, e), kc, Reraise) {
      ContinueSingle(Fail(q, w, e), kc, Reraise);
    }
    ContinueAssoc(Unify(a, v, env), kb, Reraise, kc, Reraise, kbc, Reraise);
  }

  // ---------------------------------------------------------------------
  // Or

  /** When the first pattern never fails, the second never runs. */
  lemma OrFirstNeverFails(a: Pattern, b: Pattern, v: Value, env: Env)
    requires !HasFail(Unify(a, v, env))
    ensures Unify(Or(a, b), v, env) == Unify(a, v, env)
  {
    UnifyWellFormed(a, v, env);
    ContinueKeeps(Unify(a, v, env), Proceed, (q, w, e) => Unify(b, v, e));
  }

  /** A failure of the first pattern is discarded: the second pattern runs
      against the same value with the caller's continuations, under the
      bindings live when the failure was reported. */
  lemma OrRetriesOnFailure(a: Pattern, b: Pattern, v: Value, env: Env, q: Pattern, w: Value, e: Env)
    requires Unify(a, v, env) == [Fail(q, w, e)]
    ensures Unify(Or(a, b), v, env) == Unify(b, v, e)
  {
    ContinueSingle(Fail(q, w, e), Proceed, (q, w, e) => Unify(b, v, e));
  }

  /** The second alternative run once for each event of `fails`, in order,
      under the bindings live at that event; a fault ends the run. */
  function RetryEach(b: Pattern, v: Value, fails: Trace): Trace
    decreases |fails|
  {
    if |fails| == 0 then [] else Append(Unify(b, v, fails[0].env), RetryEach(b, v, fails[1..]))
  }

  /** When the first alternative only fails, the second runs once per failure,
      in the order the failures are reported, and nothing else happens. */
  lemma OrRetriesEachFailure(a: Pattern, b: Pattern, v: Value, env: Env)
    requires forall i | 0 <= i < |Unify(a, v, env)| :: Unify(a, v, env)[i].Fail?
    ensures Unify(Or(a, b), v, env) == RetryEach(b, v, Unify(a, v, env))
  {
    ContinueFailures(Unify(a, v, env), b, v);
  }

  lemma {:induction false} ContinueFailures(t: Trace, b: Pattern, v: Value)
    requires forall i | 0 <= i < |t| :: t[i].Fail?
    ensures Continue(t, Proceed, (q, w, e) => Unify(b, v, e)) == RetryEach(b, v, t)
  {
    if |t| > 0 {
      assert forall i | 0 <= i < |t| - 1 :: t[1..][i] == t[i + 1];
      ContinueFailures(t[1..], b, v);
    }
  }

  /** Two failing alternatives fail, reporting the second. */
  lemma OrNothingNothingFails(v: Value, env: Env)
    ensures Unify(Or(Nothing, Nothing), v, env) == [Fail(Nothing, v, env)]
  {
    ContinueSingle(Fail(Nothing, v, env), Proceed, (q, w, e) => Unify(Nothing, v, e));
  }

  /** Disjunction is associative. */
  lemma OrAssoc(a: Pattern, b: Pattern, c: Pattern, v: Value, env: Env)
    ensures Unify(Or(Or(a, b), c), v, env) == Unify(Or(a, Or(b, c)), v, env)
  {
    var fb := (q: Pattern, w: Value, e: Env) => Unify(b, v, e);
    var fc := (q: Pattern, w: Value, e: Env) => Unify(c, v, e);
    var fbc := (q: Pattern, w: Value, e: Env) => Unify(Or(b, c), v, e);
    forall e ensures Proceed(e) == Continue(Proceed(e), Proceed, fc) {
      ContinueSingle(Succ(e), Proceed, fc);
    }
    ContinueAssoc(Unify(a, v, env), Proceed, fb, Proceed, fc, Proceed, fbc);
  }

  /** The second alternative runs inside the first one's failure callback, so
      a binding made by the first alternative before it failed is still live
      while the second runs. */
  lemma OrSecondSeesFirstBinding(x: VarId, b: Pattern, v: Value, env: Env)
    requires x !in env
    ensures Unify(Or(And(Var(x), Nothing), b), v, env) == Unify(b, v, env[x := v])
  {
    AndSecondSeesBinding(x, Nothing, v, env);
    OrRetriesOnFailure(And(Var(x), Nothing), b, v, env, Nothing, v, env[x := v]);
  }
}
