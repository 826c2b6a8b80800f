/** A pattern variable as an object: a `bound` flag and a `value` slot that
    matching sets before running the success continuation and clears after
    it returns. The continuation and the failure callback are given as what
    they produce (see `Patterns.Continue`), and the bindings of the other
    variables of the pattern as `others`. */
module Variables {
  import opened Values
  import opened Patterns
  import opened TraceLaws

  /** The `value` attribute: a value, or None while the variable is unbound. */
  datatype Slot = Empty | Holding(v: Value)

  class Variable {
    const id: VarId
    var bound: bool
    var value: Slot

    /** The flag and the slot agree. */
    ghost predicate Valid()
      reads this
    {
      bound <==> value.Holding?
    }

    /** The bindings live as seen from this variable: the others' and, when
        bound, its own. */
    function Bindings(others: Env): (e: Env)
      reads this
      requires Valid() && id !in others
      ensures id in e <==> bound
      ensures bound ==> e[id] == value.v
      ensures forall x | x in others :: x in e && e[x] == others[x]
      ensures e.Keys <= others.Keys + {id}
    {
      if bound then others[id := value.v] else others
    }

    /** A fresh variable is unbound. */
    constructor (id: VarId)
      ensures this.id == id && !bound && value == Empty && Valid()
    {
      this.id := id;
      bound := false;
      value := Empty;
    }

    method BindTo(v: Value)
      modifies this
      ensures bound && value == Holding(v) && Valid()
    {
      bound := true;
      value := Holding(v);
    }

    method Unbind()
      modifies this
      ensures !bound && value == Empty && Valid()
    {
      bound := false;
      value := Empty;
    }

    /** `Variable.unify`. Bound, it compares and calls one continuation.
        Unbound, it binds, runs the success continuation and unbinds
        afterwards; a fault raised inside the continuation leaves before
        the unbind, so the binding stays. */
    method Unify(x: Value, others: Env, cont: Env -> Trace, fail: (Pattern, Value, Env) -> Trace)
      returns (events: Trace)
      requires Valid() && id !in others
      modifies this
      ensures Valid()
      ensures events == Continue(Patterns.Unify(Var(id), x, old(Bindings(others))), cont, fail)
      ensures !Halted(events) ==> bound == old(bound) && value == old(value)
      ensures old(bound) ==> bound && value == old(value)
      ensures !old(bound) && Halted(events) ==> bound && value == Holding(x)
    {
      ghost var before := Bindings(others);
      if bound {
        if x == value.v {
          events := cont(Bindings(others));
          ContinueSingle(Succ(before), cont, fail);
        } else {
          events := fail(Var(id), x, Bindings(others));
          ContinueSingle(Fail(Var(id), x, before), cont, fail);
        }
      } else {
        BindTo(x);
        events := cont(Bindings(others));
        ContinueSingle(Succ(before[id := x]), cont, fail);
        if !Halted(events) {
          Unbind();
        }
      }
    }

    /** Matching the same value twice in a row with the same continuations
        gives the same events, unless the first run faulted. */
    method UnifyTwice(x: Value, others: Env, cont: Env -> Trace, fail: (Pattern, Value, Env) -> Trace)
      returns (first: Trace, second: Trace)
      requires Valid() && id !in others
      modifies this
      ensures !Halted(first) ==> second == first
      ensures !Halted(first) ==> bound == old(bound) && value == old(value)
    {
      first := Unify(x, others, cont, fail);
      second := Unify(x, others, cont, fail);
    }
  }
}
