/** The collection quantifier `MatchAny` and its presets `Some`, `First`
    and `Each`: what each element contributes, when the quantifier fails,
    and where `First` stops. */
module Quantifiers {
  import opened Values
  import opened Patterns
  import opened TraceLaws
  import opened PatternLaws

  /** The failure `MatchAny` reports when no element matched. */
  function NoneMatched(mustExist: bool, onlyOnce: bool, into: Pattern, whole: Value, env: Env): Event
  {
    Fail(MatchAny(mustExist, onlyOnce, into), whole, env)
  }

  lemma HasConcat(x: Trace, y: Trace)
    ensures HasSucc(x + y) <==> HasSucc(x) || HasSucc(y)
    ensures HasFail(x + y) <==> HasFail(x) || HasFail(y)
  {
    var xy := x + y;
    assert forall i | 0 <= i < |x| :: xy[i] == x[i];
    assert forall i | 0 <= i < |y| :: xy[|x| + i] == y[i];
    if HasSucc(xy) {
      var i :| 0 <= i < |xy| && xy[i].Succ?;
      if i >= |x| { assert y[i - |x|] == xy[i]; }
    }
    if HasFail(xy) {
      var i :| 0 <= i < |xy| && xy[i].Fail?;
      if i >= |x| { assert y[i - |x|] == xy[i]; }
    }
  }

  lemma ConcatAssoc(a: Trace, b: Trace, c: Trace)
    ensures a + (b + c) == (a + b) + c
  {
  }

  lemma LastOfConcat(x: Trace, y: Trace)
    ensures Halted(x + y) <==> (if |y| == 0 then Halted(x) else Halted(y))
  {
    if |y| > 0 {
      assert (x + y)[|x + y| - 1] == y[|y| - 1];
    } else {
      assert x + y == x;
    }
  }

  /** The shape of what one element contributes: no failure, and a fault
      only at the end. */
  ghost predicate Contribution(t: Trace)
  {
    !HasFail(t) && WellFormed(t)
  }

  /** An element that neither matched nor faulted contributes nothing. */
  lemma EmptyContribution(t: Trace)
    requires Contribution(t)
    ensures HasSucc(t) || Halted(t) || t == []
  {
    if |t| > 0 && !t[0].Succ? {
      assert !t[0].Fail? && t[0].Abort?;
      assert |t| == 1;
    }
  }

  /** Every element contributes only successes, possibly ended by a fault. */
  lemma ElementTraceShape(into: Pattern, x: Value, env: Env)
    ensures Contribution(ElementTrace(into, x, env))
  {
    ElementNeverFails(into, x, env);
    UnifyWellFormed(into, x, env);
    ContinueWellFormed(Unify(into, x, env), Proceed, Swallow);
  }

  lemma ElementTracesShape(into: Pattern, xs: seq<Value>, env: Env)
    ensures forall i | 0 <= i < |xs| :: Contribution(ElementTraces(into, xs, env)[i])
  {
    forall i | 0 <= i < |xs| ensures Contribution(ElementTraces(into, xs, env)[i]) {
      ElementTraceShape(into, xs[i], env);
    }
  }

  /** One turn of the loop, on the contribution at position `i`. */
  lemma AnyLoopTurn(mustExist: bool, onlyOnce: bool, into: Pattern, whole: Value,
                    outs: seq<Trace>, env: Env, matched: bool, i: nat)
    requires i < |outs|
    ensures var m := matched || HasSucc(outs[i]);
      AnyLoop(mustExist, onlyOnce, into, whole, outs[i..], env, matched) ==
        if Halted(outs[i]) || (onlyOnce && m) then outs[i]
        else outs[i] + AnyLoop(mustExist, onlyOnce, into, whole, outs[i + 1..], env, m)
  {
    assert outs[i..][0] == outs[i] && outs[i..][1..] == outs[i + 1..];
  }

  /** The loop reports at most the quantifier's own failure, and none when
      nothing must exist; without a fault, it fails iff no element matched
      (counting those already visited), and then that failure is its only
      event. */
  lemma {:induction false} AnyLoopOutcome(mustExist: bool, onlyOnce: bool, into: Pattern, whole: Value,
                                          outs: seq<Trace>, env: Env, matched: bool)
    requires forall i | 0 <= i < |outs| :: Contribution(outs[i])
    ensures !mustExist ==> !HasFail(AnyLoop(mustExist, onlyOnce, into, whole, outs, env, matched))
    ensures var t := AnyLoop(mustExist, onlyOnce, into, whole, outs, env, matched);
      !Halted(t) ==> (HasFail(t) <==> mustExist && !matched && !HasSucc(t))
    ensures var t := AnyLoop(mustExist, onlyOnce, into, whole, outs, env, matched);
      !Halted(t) && !HasSucc(t) ==>
        t == (if mustExist && !matched then [NoneMatched(mustExist, onlyOnce, into, whole, env)] else [])
    decreases |outs|
  {
    if |outs| > 0 {
      var out := outs[0];
      var m := matched || HasSucc(out);
      assert Contribution(out);
      if !(Halted(out) || (onlyOnce && m)) {
        assert forall i | 0 <= i < |outs| - 1 :: outs[1..][i] == outs[i + 1];
        var rest := AnyLoop(mustExist, onlyOnce, into, whole, outs[1..], env, m);
        AnyLoopOutcome(mustExist, onlyOnce, into, whole, outs[1..], env, m);
        HasConcat(out, rest);
        LastOfConcat(out, rest);
        if !HasSucc(out) {
          EmptyContribution(out);
          assert out + rest == rest;
        }
      } else if !Halted(out) && !HasSucc(out) {
        EmptyContribution(out);
      }
    }
  }

  /** Requiring a match changes the loop only by one failure added at the
      end when no element matched and nothing faulted. */
  lemma {:induction false} MustExistAddsOneFailure(onlyOnce: bool, into: Pattern, whole: Value,
                                                   outs: seq<Trace>, env: Env, matched: bool)
    ensures var t := AnyLoop(false, onlyOnce, into, whole, outs, env, matched);
      AnyLoop(true, onlyOnce, into, whole, outs, env, matched) ==
        Append(t, if !matched && !HasSucc(t) then [NoneMatched(true, onlyOnce, into, whole, env)] else [])
    decreases |outs|
  {
    var t := AnyLoop(false, onlyOnce, into, whole, outs, env, matched);
    if |outs| > 0 {
      var out := outs[0];
      var m := matched || HasSucc(out);
      if Halted(out) {
      } else if onlyOnce && m {
        assert out + [] == out;
      } else {
        var rest := AnyLoop(false, onlyOnce, into, whole, outs[1..], env, m);
        MustExistAddsOneFailure(onlyOnce, into, whole, outs[1..], env, m);
        HasConcat(out, rest);
        LastOfConcat(out, rest);
        var tail := if !m && !HasSucc(rest) then [NoneMatched(true, onlyOnce, into, whole, env)] else [];
        assert (!matched && !HasSucc(t)) == (!m && !HasSucc(rest));
        ConcatAssoc(out, rest, tail);
      }
    }
  }

  /** Leading elements that neither matched nor faulted contribute nothing
      and leave the flag unset. */
  lemma {:induction false} AnyLoopSkips(mustExist: bool, onlyOnce: bool, into: Pattern, whole: Value,
                                        outs: seq<Trace>, env: Env, k: nat)
    requires k <= |outs|
    requires forall j | 0 <= j < k :: outs[j] == []
    ensures AnyLoop(mustExist, onlyOnce, into, whole, outs, env, false) ==
            AnyLoop(mustExist, onlyOnce, into, whole, outs[k..], env, false)
    decreases k
  {
    if k > 0 {
      assert outs[0] == [] && !HasSucc(outs[0]);
      assert forall j | 0 <= j < k - 1 :: outs[1..][j] == outs[j + 1];
      AnyLoopSkips(mustExist, onlyOnce, into, whole, outs[1..], env, k - 1);
      assert outs[1..][k - 1..] == outs[k..];
    }
  }

  /** The successes of one element after another, in order. */
  function Flatten(ts: seq<Trace>): Trace
  {
    if |ts| == 0 then [] else ts[0] + Flatten(ts[1..])
  }

  /** Without the cut, and when no element faults, the loop passes on every
      element's successes in order, followed by the quantifier's failure
      when a match is required and nothing matched. */
  lemma {:induction false} AnyLoopGathersAll(mustExist: bool, into: Pattern, whole: Value,
                                             outs: seq<Trace>, env: Env, matched: bool)
    requires forall j | 0 <= j < |outs| :: !Halted(outs[j])
    ensures var all := Flatten(outs);
      AnyLoop(mustExist, false, into, whole, outs, env, matched) ==
        all + (if mustExist && !matched && !HasSucc(all) then [NoneMatched(mustExist, false, into, whole, env)] else [])
    decreases |outs|
  {
    if |outs| > 0 {
      var out := outs[0];
      var m := matched || HasSucc(out);
      assert forall j | 0 <= j < |outs| - 1 :: outs[1..][j] == outs[j + 1];
      AnyLoopGathersAll(mustExist, into, whole, outs[1..], env, m);
      var restAll := Flatten(outs[1..]);
      HasConcat(out, restAll);
      var tail := if mustExist && !m && !HasSucc(restAll) then [NoneMatched(mustExist, false, into, whole, env)] else [];
      ConcatAssoc(out, restAll, tail);
    }
  }

  /** On a collection, `MatchAny` is its loop over the elements' contributions. */
  lemma MatchAnyIsLoop(mustExist: bool, onlyOnce: bool, into: Pattern, v: Value, env: Env)
    requires Elements(v).Iterable?
    ensures Unify(MatchAny(mustExist, onlyOnce, into), v, env) ==
            AnyLoop(mustExist, onlyOnce, into, v, ElementTraces(into, Elements(v).elems, env), env, false)
  {
  }

  // ---------------------------------------------------------------------
  // The quantifier as a pattern

  /** Matching elements never reports their failures: the only failure
      `MatchAny` reports is itself with the whole collection. */
  lemma OnlyWholeFails(mustExist: bool, onlyOnce: bool, into: Pattern, v: Value, env: Env)
    ensures OnlyFailureIs(Unify(MatchAny(mustExist, onlyOnce, into), v, env),
                          NoneMatched(mustExist, onlyOnce, into, v, env))
  {
    if Elements(v).Iterable? {
      var xs := Elements(v).elems;
      ElementTracesShape(into, xs, env);
      AnyLoopFailsAsWhole(mustExist, onlyOnce, into, v, ElementTraces(into, xs, env), env, false);
    }
  }

  /** `Each` (nothing required) never fails. */
  lemma EachNeverFails(onlyOnce: bool, into: Pattern, v: Value, env: Env)
    ensures !HasFail(Unify(MatchAny(false, onlyOnce, into), v, env))
  {
    if Elements(v).Iterable? {
      var xs := Elements(v).elems;
      ElementTracesShape(into, xs, env);
      AnyLoopOutcome(false, onlyOnce, into, v, ElementTraces(into, xs, env), env, false);
    }
  }

  /** On an empty collection `Each` calls neither continuation, while `Some`
      and `First` fail once. */
  lemma EmptyCollection(mustExist: bool, onlyOnce: bool, into: Pattern, v: Value, env: Env)
    requires Elements(v) == Iterable([])
    ensures Unify(MatchAny(mustExist, onlyOnce, into), v, env) ==
      (if mustExist then [NoneMatched(mustExist, onlyOnce, into, v, env)] else [])
  {
  }

  /** With a match required and no fault, `MatchAny` fails iff no element
      matched, and it then reports exactly one failure and nothing else. */
  lemma MustExistFailsIffNoneMatched(onlyOnce: bool, into: Pattern, v: Value, env: Env)
    requires !Halted(Unify(MatchAny(true, onlyOnce, into), v, env))
    ensures var t := Unify(MatchAny(true, onlyOnce, into), v, env);
      (HasFail(t) <==> !HasSucc(t)) &&
      (!HasSucc(t) ==> t == [NoneMatched(true, onlyOnce, into, v, env)])
  {
    var xs := Elements(v).elems;
    ElementTracesShape(into, xs, env);
    AnyLoopOutcome(true, onlyOnce, into, v, ElementTraces(into, xs, env), env, false);
  }

  /** Iterating something that is not a collection is a fault that ends the match. */
  lemma NotIterableFaults(mustExist: bool, onlyOnce: bool, into: Pattern, v: Value, env: Env)
    requires Elements(v).NotIterable?
    ensures Unify(MatchAny(mustExist, onlyOnce, into), v, env) == [Abort(env)]
  {
  }

  /** `First ** into` proceeds with the first element that matches, and only
      with it: its events are that element's successes. */
  lemma FirstTakesFirstMatch(mustExist: bool, into: Pattern, v: Value, env: Env, i: nat)
    requires Elements(v).Iterable? && i < |Elements(v).elems|
    requires forall j | 0 <= j < i :: ElementTrace(into, Elements(v).elems[j], env) == []
    requires HasSucc(ElementTrace(into, Elements(v).elems[i], env))
    ensures Unify(MatchAny(mustExist, true, into), v, env) == ElementTrace(into, Elements(v).elems[i], env)
  {
    var outs := ElementTraces(into, Elements(v).elems, env);
    AnyLoopSkips(mustExist, true, into, v, outs, env, i);
    AnyLoopTurn(mustExist, true, into, v, outs, env, false, i);
  }

  /** `Some ** into`, when no element faults, passes on every element's
      successes in iteration order and fails once at the end iff there were none. */
  lemma SomeGathersAll(into: Pattern, v: Value, env: Env)
    requires Elements(v).Iterable?
    requires forall j | 0 <= j < |Elements(v).elems| :: !Halted(ElementTrace(into, Elements(v).elems[j], env))
    ensures var all := Flatten(ElementTraces(into, Elements(v).elems, env));
      Unify(MatchAny(true, false, into), v, env) ==
        all + (if !HasSucc(all) then [NoneMatched(true, false, into, v, env)] else [])
  {
    MatchAnyIsLoop(true, false, into, v, env);
    AnyLoopGathersAll(true, into, v, ElementTraces(into, Elements(v).elems, env), env, false);
  }

  /** `Some` is `Each` plus one failure when nothing matched. */
  lemma SomeIsEachOrFail(into: Pattern, v: Value, env: Env)
    ensures var t := Unify(MatchAny(false, false, into), v, env);
      Unify(MatchAny(true, false, into), v, env) ==
        Append(t, if !HasSucc(t) then [NoneMatched(true, false, into, v, env)] else [])
  {
    if Elements(v).Iterable? {
      MustExistAddsOneFailure(false, into, v, ElementTraces(into, Elements(v).elems, env), env, false);
    }
  }

  // ---------------------------------------------------------------------
  // Quantifying a condition

  /** How many of `xs` satisfy `c`. */
  function CountWhere(xs: seq<Value>, c: Value -> bool): nat
  {
    if |xs| == 0 then 0 else (if c(xs[0]) then 1 else 0) + CountWhere(xs[1..], c)
  }

  /** `n` successes, all with the bindings `env`. */
  function Successes(n: nat, env: Env): (t: Trace)
    ensures |t| == n && forall i | 0 <= i < n :: t[i] == Succ(env)
  {
    seq(n, _ => Succ(env))
  }

  lemma SuccessesCons(n: nat, env: Env)
    ensures [Succ(env)] + Successes(n, env) == Successes(n + 1, env)
  {
  }

  /** Under a quantifier, a condition contributes one success for an element
      that satisfies it and nothing for one that does not. */
  lemma EnsureElement(c: Value -> bool, next: Pattern, x: Value, env: Env)
    ensures ElementTrace(Ensure(c, next), x, env) == if c(x) then [Succ(env)] else []
  {
    if c(x) {
      ContinueSingle(Succ(env), Proceed, Swallow);
    } else {
      ContinueSingle(Fail(Ensure(c, next), x, env), Proceed, Swallow);
    }
  }

  /** What a condition contributes for each element. */
  ghost predicate ConditionOutcomes(outs: seq<Trace>, xs: seq<Value>, c: Value -> bool, env: Env)
  {
    |outs| == |xs| && forall i | 0 <= i < |xs| :: outs[i] == if c(xs[i]) then [Succ(env)] else []
  }

  lemma ConditionOutcomesOf(c: Value -> bool, next: Pattern, xs: seq<Value>, env: Env)
    ensures ConditionOutcomes(ElementTraces(Ensure(c, next), xs, env), xs, c, env)
  {
    forall i | 0 <= i < |xs| ensures ElementTraces(Ensure(c, next), xs, env)[i] == if c(xs[i]) then [Succ(env)] else [] {
      EnsureElement(c, next, xs[i], env);
    }
  }

  lemma {:induction false} AnyLoopCounts(mustExist: bool, c: Value -> bool, into: Pattern, whole: Value,
                                         xs: seq<Value>, outs: seq<Trace>, env: Env, matched: bool)
    requires ConditionOutcomes(outs, xs, c, env)
    ensures AnyLoop(mustExist, false, into, whole, outs, env, matched) ==
      Successes(CountWhere(xs, c), env) +
      (if mustExist && !matched && CountWhere(xs, c) == 0
       then [NoneMatched(mustExist, false, into, whole, env)] else [])
    decreases |xs|
  {
    if |xs| > 0 {
      var out := outs[0];
      assert HasSucc(out) == c(xs[0]) by {
        if c(xs[0]) { assert out[0].Succ?; }
      }
      var m := matched || c(xs[0]);
      assert ConditionOutcomes(outs[1..], xs[1..], c, env) by {
        assert forall i | 0 <= i < |xs| - 1 :: outs[1..][i] == outs[i + 1] && xs[1..][i] == xs[i + 1];
      }
      AnyLoopCounts(mustExist, c, into, whole, xs[1..], outs[1..], env, m);
      var k := CountWhere(xs[1..], c);
      var tail := if mustExist && !m && k == 0 then [NoneMatched(mustExist, false, into, whole, env)] else [];
      ConcatAssoc(out, Successes(k, env), tail);
      if c(xs[0]) {
        SuccessesCons(k, env);
      } else {
        assert out + Successes(k, env) == Successes(k, env);
      }
    }
  }

  lemma {:induction false} AnyLoopFirstWhere(mustExist: bool, c: Value -> bool, into: Pattern, whole: Value,
                                             xs: seq<Value>, outs: seq<Trace>, env: Env)
    requires ConditionOutcomes(outs, xs, c, env)
    ensures AnyLoop(mustExist, true, into, whole, outs, env, false) ==
      if CountWhere(xs, c) > 0 then [Succ(env)]
      else if mustExist then [NoneMatched(mustExist, true, into, whole, env)] else []
    decreases |xs|
  {
    if |xs| > 0 {
      var out := outs[0];
      if c(xs[0]) {
        assert out[0].Succ?;
      } else {
        assert out == [] && !HasSucc(out);
        assert ConditionOutcomes(outs[1..], xs[1..], c, env) by {
          assert forall i | 0 <= i < |xs| - 1 :: outs[1..][i] == outs[i + 1] && xs[1..][i] == xs[i + 1];
        }
        AnyLoopFirstWhere(mustExist, c, into, whole, xs[1..], outs[1..], env);
        assert [] + AnyLoop(mustExist, true, into, whole, outs[1..], env, false) ==
               AnyLoop(mustExist, true, into, whole, outs[1..], env, false);
      }
    }
  }

  /** `Each ** If(c) ** next` calls the success continuation once per
      element satisfying `c`, with the caller's bindings every time, and
      never fails; `Some ** If(c) ** next` does the same and fails once,
      with the whole collection, when no element satisfies `c`. */
  lemma QuantifiedConditionCounts(mustExist: bool, c: Value -> bool, next: Pattern, v: Value, env: Env)
    requires Elements(v).Iterable?
    ensures var n := CountWhere(Elements(v).elems, c);
      Unify(MatchAny(mustExist, false, Ensure(c, next)), v, env) ==
        Successes(n, env) + (if mustExist && n == 0 then [NoneMatched(mustExist, false, Ensure(c, next), v, env)] else [])
  {
    var xs := Elements(v).elems;
    MatchAnyIsLoop(mustExist, false, Ensure(c, next), v, env);
    ConditionOutcomesOf(c, next, xs, env);
    AnyLoopCounts(mustExist, c, Ensure(c, next), v, xs, ElementTraces(Ensure(c, next), xs, env), env, false);
  }

  /** `First ** If(c) ** next` calls the success continuation exactly once
      when some element satisfies `c`, and otherwise fails once with the
      whole collection. */
  lemma FirstConditionOnce(mustExist: bool, c: Value -> bool, next: Pattern, v: Value, env: Env)
    requires Elements(v).Iterable?
    ensures Unify(MatchAny(mustExist, true, Ensure(c, next)), v, env) ==
      if CountWhere(Elements(v).elems, c) > 0 then [Succ(env)]
      else if mustExist then [NoneMatched(mustExist, true, Ensure(c, next), v, env)] else []
  {
    var xs := Elements(v).elems;
    MatchAnyIsLoop(mustExist, true, Ensure(c, next), v, env);
    ConditionOutcomesOf(c, next, xs, env);
    AnyLoopFirstWhere(mustExist, c, Ensure(c, next), v, xs, ElementTraces(Ensure(c, next), xs, env), env);
  }

  // ---------------------------------------------------------------------
  // The loop as written

  /** `MatchAny.unify`: a `for` loop over the elements that records whether
      any element reached the success continuation and cuts the iteration
      after the first one that did when only one is wanted; a fault while
      matching an element leaves the loop and the match. */
  method RunMatchAny(mustExist: bool, onlyOnce: bool, into: Pattern, value: Value, env: Env)
    returns (events: Trace)
    ensures events == Unify(MatchAny(mustExist, onlyOnce, into), value, env)
  {
    if Elements(value).NotIterable? {
      return [Abort(env)];
    }
    var xs := Elements(value).elems;
    ghost var outs := ElementTraces(into, xs, env);
    ghost var whole := AnyLoop(mustExist, onlyOnce, into, value, outs, env, false);
    MatchAnyIsLoop(mustExist, onlyOnce, into, value, env);
    var matchedOnce := false;
    events := [];
    var i := 0;
    while i < |xs|
      invariant 0 <= i <= |xs|
      invariant events + AnyLoop(mustExist, onlyOnce, into, value, outs[i..], env, matchedOnce) == whole
    {
      var out := ElementTrace(into, xs[i], env);
      assert out == outs[i];
      ghost var m := matchedOnce || HasSucc(out);
      ghost var rest := AnyLoop(mustExist, onlyOnce, into, value, outs[i + 1..], env, m);
      AnyLoopTurn(mustExist, onlyOnce, into, value, outs, env, matchedOnce, i);
      ghost var before := events;
      if HasSucc(out) {
        matchedOnce := true;
      }
      assert matchedOnce == m;
      events := events + out;
      if Halted(out) || (onlyOnce && matchedOnce) {
        return;
      }
      assert before + (out + rest) == whole;
      ConcatAssoc(before, out, rest);
      i := i + 1;
    }
    if mustExist && !matchedOnce {
      events := events + [NoneMatched(mustExist, onlyOnce, into, value, env)];
    }
  }
}
