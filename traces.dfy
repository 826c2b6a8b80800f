/** The algebra of traces and continuations: how running a trace against a
    pair of continuations composes. These are the facts the laws of `And`,
    `Or` and `MatchAny` rest on. */
module TraceLaws {
  import opened Values
  import opened Patterns

  /** A fault can only be the last event: nothing runs after it. */
  ghost predicate WellFormed(t: Trace)
  {
    forall i | 0 <= i < |t| - 1 :: !t[i].Abort?
  }

  /** Every event of `t` satisfies `P`. */
  ghost predicate All(t: Trace, P: Event -> bool)
  {
    forall i | 0 <= i < |t| :: P(t[i])
  }

  /** Some event of `t` is a fault. */
  ghost predicate HasAbort(t: Trace)
  {
    exists i :: 0 <= i < |t| && t[i].Abort?
  }

  /** A one-event trace calls the matching continuation once. */
  lemma ContinueSingle(ev: Event, cont: Env -> Trace, fail: (Pattern, Value, Env) -> Trace)
    ensures ev.Succ? ==> Continue([ev], cont, fail) == cont(ev.env)
    ensures ev.Fail? ==> Continue([ev], cont, fail) == fail(ev.pattern, ev.value, ev.env)
    ensures ev.Abort? ==> Continue([ev], cont, fail) == [ev]
  {
    assert [ev][1..] == [];
    assert cont(ev.env) + [] == cont(ev.env);
    if ev.Fail? {
      assert fail(ev.pattern, ev.value, ev.env) + [] == fail(ev.pattern, ev.value, ev.env);
    }
  }

  lemma AppendAssoc(a: Trace, b: Trace, c: Trace)
    ensures Append(a, Append(b, c)) == Append(Append(a, b), c)
  {
    if !Halted(a) && |b| == 0 {
      assert a + b == a;
    }
  }

  /** Once a fault is among the events, running them against continuations ends in a fault. */
  lemma {:induction false} ContinueHalts(t: Trace, cont: Env -> Trace, fail: (Pattern, Value, Env) -> Trace)
    requires HasAbort(t)
    ensures Halted(Continue(t, cont, fail))
  {
    if !t[0].Abort? {
      var i :| 0 <= i < |t| && t[i].Abort?;
      assert t[1..][i - 1].Abort?;
      ContinueHalts(t[1..], cont, fail);
    }
  }

  /** Running two traces one after the other against continuations is running
      each of them, unless the first ends in a fault. */
  lemma {:induction false} ContinueConcat(x: Trace, y: Trace, cont: Env -> Trace, fail: (Pattern, Value, Env) -> Trace)
    ensures Continue(x + y, cont, fail) == Append(Continue(x, cont, fail), Continue(y, cont, fail))
  {
    if |x| == 0 {
      assert x + y == y;
    } else {
      assert (x + y)[0] == x[0];
      assert (x + y)[1..] == x[1..] + y;
      ContinueConcat(x[1..], y, cont, fail);
      match x[0]
      case Succ(e) =>
        AppendAssoc(cont(e), Continue(x[1..], cont, fail), Continue(y, cont, fail));
      case Fail(q, w, e) =>
        AppendAssoc(fail(q, w, e), Continue(x[1..], cont, fail), Continue(y, cont, fail));
      case Abort(e) =>
    }
  }

  lemma ContinueAppend(x: Trace, y: Trace, cont: Env -> Trace, fail: (Pattern, Value, Env) -> Trace)
    ensures Continue(Append(x, y), cont, fail) == Append(Continue(x, cont, fail), Continue(y, cont, fail))
  {
    if Halted(x) {
      assert x[|x| - 1].Abort?;
      ContinueHalts(x, cont, fail);
    } else {
      ContinueConcat(x, y, cont, fail);
    }
  }

  /** Running continuations in two stages is running, once, the
      continuations that do both stages. */
  lemma {:induction false} ContinueAssoc(t: Trace, k1: Env -> Trace, f1: (Pattern, Value, Env) -> Trace,
                                         k2: Env -> Trace, f2: (Pattern, Value, Env) -> Trace,
                                         k: Env -> Trace, f: (Pattern, Value, Env) -> Trace)
    requires forall e :: k(e) == Continue(k1(e), k2, f2)
    requires forall q, w, e :: f(q, w, e) == Continue(f1(q, w, e), k2, f2)
    ensures Continue(Continue(t, k1, f1), k2, f2) == Continue(t, k, f)
  {
    if |t| > 0 {
      ContinueAssoc(t[1..], k1, f1, k2, f2, k, f);
      match t[0]
      case Succ(e) =>
        ContinueAppend(k1(e), Continue(t[1..], k1, f1), k2, f2);
      case Fail(q, w, e) =>
        ContinueAppend(f1(q, w, e), Continue(t[1..], k1, f1), k2, f2);
      case Abort(e) =>
    }
  }

  /** Continuations that agree on every argument give the same run. */
  lemma {:induction false} ContinueCongruent(t: Trace, k1: Env -> Trace, f1: (Pattern, Value, Env) -> Trace,
                                             k2: Env -> Trace, f2: (Pattern, Value, Env) -> Trace)
    requires forall e :: k1(e) == k2(e)
    requires forall q, w, e :: f1(q, w, e) == f2(q, w, e)
    ensures Continue(t, k1, f1) == Continue(t, k2, f2)
  {
    if |t| > 0 {
      ContinueCongruent(t[1..], k1, f1, k2, f2);
    }
  }

  /** Continuations that re-emit each event of a well-formed trace leave it unchanged. */
  lemma {:induction false} ContinueKeeps(t: Trace, cont: Env -> Trace, fail: (Pattern, Value, Env) -> Trace)
    requires WellFormed(t)
    requires forall i | 0 <= i < |t| :: t[i].Succ? ==> cont(t[i].env) == [t[i]]
    requires forall i | 0 <= i < |t| :: t[i].Fail? ==> fail(t[i].pattern, t[i].value, t[i].env) == [t[i]]
    ensures Continue(t, cont, fail) == t
  {
    if |t| > 0 {
      assert forall i | 0 <= i < |t| - 1 :: t[1..][i] == t[i + 1];
      ContinueKeeps(t[1..], cont, fail);
      if t[0].Abort? {
        assert |t| == 1;
      } else {
        assert [t[0]] + t[1..] == t;
      }
    }
  }

  /** The caller's own continuations reproduce a well-formed trace. */
  lemma ContinueIdentity(t: Trace)
    requires WellFormed(t)
    ensures Continue(t, Proceed, Reraise) == t
  {
    ContinueKeeps(t, Proceed, Reraise);
  }

  /** A property of every event survives running continuations whose
      outputs all have it. */
  lemma {:induction false} ContinueAll(t: Trace, cont: Env -> Trace, fail: (Pattern, Value, Env) -> Trace, P: Event -> bool)
    requires forall i | 0 <= i < |t| :: t[i].Succ? ==> All(cont(t[i].env), P)
    requires forall i | 0 <= i < |t| :: t[i].Fail? ==> All(fail(t[i].pattern, t[i].value, t[i].env), P)
    requires forall i | 0 <= i < |t| :: t[i].Abort? ==> P(t[i])
    ensures All(Continue(t, cont, fail), P)
  {
    if |t| > 0 {
      assert forall i | 0 <= i < |t| - 1 :: t[1..][i] == t[i + 1];
      ContinueAll(t[1..], cont, fail, P);
    }
  }

  lemma AppendWellFormed(x: Trace, y: Trace)
    requires WellFormed(x) && WellFormed(y)
    ensures WellFormed(Append(x, y))
  {
    if !Halted(x) {
      var r := x + y;
      forall i | 0 <= i < |r| - 1 ensures !r[i].Abort? {
        if i >= |x| { assert r[i] == y[i - |x|]; }
      }
    }
  }

  /** Running continuations with well-formed outputs gives a well-formed trace. */
  lemma {:induction false} ContinueWellFormed(t: Trace, cont: Env -> Trace, fail: (Pattern, Value, Env) -> Trace)
    requires forall i | 0 <= i < |t| :: t[i].Succ? ==> WellFormed(cont(t[i].env))
    requires forall i | 0 <= i < |t| :: t[i].Fail? ==> WellFormed(fail(t[i].pattern, t[i].value, t[i].env))
    ensures WellFormed(Continue(t, cont, fail))
  {
    if |t| > 0 {
      assert forall i | 0 <= i < |t| - 1 :: t[1..][i] == t[i + 1];
      ContinueWellFormed(t[1..], cont, fail);
      match t[0]
      case Succ(e) => AppendWellFormed(cont(e), Continue(t[1..], cont, fail));
      case Fail(q, w, e) => AppendWellFormed(fail(q, w, e), Continue(t[1..], cont, fail));
      case Abort(e) =>
    }
  }
}
