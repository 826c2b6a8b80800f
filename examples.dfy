/** Concrete matches: the scenarios of the repository's unit tests and of the
    module documentation, with the exact events each produces. */
module Scenarios {
  import opened Values
  import opened Patterns
  import opened TraceLaws
  import opened PatternLaws
  import opened Builders
  import opened Quantifiers
  import Variables

  /** An object with attribute `foo` only, like the tests' `Mock(42)`. */
  const Mock42: Value := Object("Mock", map["foo" := Int(42)])

  /** The tests' `MockMock()`: `foo = 42`, `bar = [1, 2, 3]`, `mock = Mock(42)`. */
  const MockMock: Value :=
    Object("MockMock", map["foo" := Int(42), "bar" := List([Int(1), Int(2), Int(3)]), "mock" := Mock42])

  const NoBindings: Env := map[]

  /** `Attribute('bar') ** Index(1) ** v1` binds `v1` to 2 and succeeds once. */
  lemma PathBindsItem()
    ensures Unify(Chain([Attribute("bar"), Index(Int(1))], Var(1)), MockMock, NoBindings) ==
            [Succ(map[1 := Int(2)])]
  {
    var bar := List([Int(1), Int(2), Int(3)]);
    AttributeLookup("bar", Chain([Index(Int(1))], Var(1)), MockMock, NoBindings);
    ListIndex(bar.items, 1, Var(1), NoBindings);
  }

  /** Conjoining the path with `Attribute('foo') ** v2` and with
      `Attribute('mock') ** Attribute('foo') ** v2` succeeds once, with `v1`
      bound to 2 and `v2` to 42: both paths lead to equal values. */
  lemma ConjoinedPathsAgree()
    ensures Unify(And(And(Chain([Attribute("bar"), Index(Int(1))], Var(1)), Chain([Attribute("foo")], Var(2))),
                      Chain([Attribute("mock"), Attribute("foo")], Var(2))), MockMock, NoBindings) ==
            [Succ(map[1 := Int(2), 2 := Int(42)])]
  {
    var p1 := Chain([Attribute("bar"), Index(Int(1))], Var(1));
    var p2 := Chain([Attribute("foo")], Var(2));
    var p3 := Chain([Attribute("mock"), Attribute("foo")], Var(2));
    var e1 := map[1 := Int(2)];
    var e2 := map[1 := Int(2), 2 := Int(42)];
    PathBindsItem();
    AttributeLookup("foo", Var(2), MockMock, e1);
    assert e1[2 := Int(42)] == e2;
    ContinueSingle(Succ(e1), e => Unify(p2, MockMock, e), Reraise);
    AttributeLookup("mock", Chain([Attribute("foo")], Var(2)), MockMock, e2);
    AttributeLookup("foo", Var(2), Mock42, e2);
    ContinueSingle(Succ(e2), e => Unify(p3, MockMock, e), Reraise);
  }

  /** The index test: `Index(1) ** v` on `[1, 2, 3]` binds `v` to 2; with
      `v` still bound, `Index(0) ** v` fails on the item 1. */
  lemma IndexThenCompare()
    ensures Unify(Chain([Index(Int(1))], Var(0)), List([Int(1), Int(2), Int(3)]), NoBindings) ==
            [Succ(map[0 := Int(2)])]
    ensures Unify(Chain([Index(Int(0))], Var(0)), List([Int(1), Int(2), Int(3)]), map[0 := Int(2)]) ==
            [Fail(Var(0), Int(1), map[0 := Int(2)])]
  {
    ListIndex([Int(1), Int(2), Int(3)], 1, Var(0), NoBindings);
    ListIndex([Int(1), Int(2), Int(3)], 0, Var(0), map[0 := Int(2)]);
  }

  /** The attribute and type tests. */
  lemma AttributeAndSubtype()
    ensures Unify(AsPattern(Attribute("foo")), Mock42, NoBindings) == [Succ(NoBindings)]
    ensures Unify(AsPattern(Attribute("bar")), Mock42, NoBindings) ==
            [Fail(AsPattern(Attribute("bar")), Mock42, NoBindings)]
    ensures Unify(AsPattern(Subtype("Mock")), Mock42, NoBindings) == [Succ(NoBindings)]
    ensures Unify(AsPattern(Subtype("Mock")), Int(42), NoBindings) ==
            [Fail(AsPattern(Subtype("Mock")), Int(42), NoBindings)]
  {
    AttributeLookup("foo", Return, Mock42, NoBindings);
    AttributeLookup("bar", Return, Mock42, NoBindings);
  }

  /** The conjunction tests: a variable on either side of `Anything` binds
      42; any conjunction with `Nothing` fails. */
  lemma AndTests()
    ensures Unify(And(Anything, Var(0)), Int(42), NoBindings) == [Succ(map[0 := Int(42)])]
    ensures Unify(And(Var(0), Anything), Int(42), NoBindings) == [Succ(map[0 := Int(42)])]
    ensures Unify(And(Anything, Nothing), Int(42), NoBindings) == [Fail(Nothing, Int(42), NoBindings)]
    ensures Unify(And(Nothing, Anything), Int(42), NoBindings) == [Fail(Nothing, Int(42), NoBindings)]
  {
    AndAnythingUnit(Var(0), Int(42), NoBindings);
    AndAnythingUnit(Nothing, Int(42), NoBindings);
    AndFirstOnlyFails(Nothing, Anything, Int(42), NoBindings);
  }

  /** The disjunction tests: a variable on either side of `Nothing` binds
      42; after `Anything` succeeds the variable is never tried, so it
      stays unbound. */
  lemma OrTests()
    ensures Unify(Or(Var(0), Nothing), Int(42), NoBindings) == [Succ(map[0 := Int(42)])]
    ensures Unify(Or(Nothing, Var(0)), Int(42), NoBindings) == [Succ(map[0 := Int(42)])]
    ensures Unify(Or(Anything, Var(0)), Int(42), NoBindings) == [Succ(NoBindings)]
  {
    OrFirstNeverFails(Var(0), Nothing, Int(42), NoBindings);
    OrRetriesOnFailure(Nothing, Var(0), Int(42), NoBindings, Nothing, Int(42), NoBindings);
    OrFirstNeverFails(Anything, Var(0), Int(42), NoBindings);
  }

  /** The second alternative of `Or` sees a binding the first one made
      before failing: `v ** Nothing | Index(0) ** v` on `[7]` fails,
      because `v` is still bound to the whole list when the item 7 is
      compared with it. Had the binding been undone first, it would
      succeed with `v` bound to 7. */
  lemma OrKeepsFailedBranchBinding()
    ensures Unify(Or(Chain([ChainVar(0)], Nothing), Chain([Index(Int(0))], Var(0))), List([Int(7)]), NoBindings) ==
            [Fail(Var(0), Int(7), map[0 := List([Int(7)])])]
    ensures Unify(Chain([Index(Int(0))], Var(0)), List([Int(7)]), NoBindings) == [Succ(map[0 := Int(7)])]
  {
    var whole := List([Int(7)]);
    OrSecondSeesFirstBinding(0, Chain([Index(Int(0))], Var(0)), whole, NoBindings);
    ListIndex([Int(7)], 0, Var(0), map[0 := whole]);
    ListIndex([Int(7)], 0, Var(0), NoBindings);
  }

  /** `(Each & Nothing()) | Anything()` on `[1, 2]`: the conjunction fails
      once per element, so the second alternative runs, and succeeds, twice. */
  lemma OrRetriesPerElement()
    ensures Unify(Or(And(Bind(EachElement, Anything), Nothing), Anything), List([Int(1), Int(2)]), NoBindings) ==
            [Succ(NoBindings), Succ(NoBindings)]
  {
    var whole := List([Int(1), Int(2)]);
    var each := Bind(EachElement, Anything);
    var a := And(each, Nothing);
    var succ := Succ(NoBindings);
    ContinueSingle(succ, Proceed, Swallow);
    var outs := ElementTraces(Anything, [Int(1), Int(2)], NoBindings);
    assert outs == [[succ], [succ]];
    assert outs[1..] == [[succ]];
    assert Unify(each, whole, NoBindings) == [succ, succ];
    var fail := Fail(Nothing, whole, NoBindings);
    assert [succ, succ][1..] == [succ];
    assert Unify(a, whole, NoBindings) == [fail, fail];
    OrRetriesEachFailure(a, Anything, whole, NoBindings);
  }

  /** The condition of the documentation's `If` example. */
  function LessThan3(v: Value): bool
  {
    v.Int? && v.i < 3
  }

  /** `Each ** If(x < 3) ** var` on `[1, 2, 3, 4]` calls the success
      continuation twice, but with `var` unbound both times: `If` never
      runs what follows it. */
  lemma EachIfExample()
    ensures Unify(Chain([EachElement, If(LessThan3)], Var(0)), List([Int(1), Int(2), Int(3), Int(4)]), NoBindings) ==
            [Succ(NoBindings), Succ(NoBindings)]
  {
    var xs := [Int(1), Int(2), Int(3), Int(4)];
    var cs := [EachElement, If(LessThan3)];
    assert cs[1..] == [If(LessThan3)] && cs[1..][1..] == [];
    assert Chain(cs[1..], Var(0)) == Ensure(LessThan3, Var(0));
    assert Chain(cs, Var(0)) == MatchAny(false, false, Ensure(LessThan3, Var(0)));
    QuantifiedConditionCounts(false, LessThan3, Var(0), List(xs), NoBindings);
    assert CountWhere(xs, LessThan3) == 2 by {
      assert xs[1..] == [Int(2), Int(3), Int(4)];
      assert xs[1..][1..] == [Int(3), Int(4)];
      assert xs[1..][1..][1..] == [Int(4)];
    }
    assert Successes(2, NoBindings) + [] == [Succ(NoBindings), Succ(NoBindings)];
  }

  /** `First ** If(x < 3)` on `[5, 1, 2]` proceeds once; `Some ** If(x < 3)`
      on `[5, 6]` fails once, with the whole list. */
  lemma FirstAndSome()
    ensures Unify(Chain([FirstElement], AsPattern(If(LessThan3))), List([Int(5), Int(1), Int(2)]), NoBindings) ==
            [Succ(NoBindings)]
    ensures Unify(Chain([SomeElements], AsPattern(If(LessThan3))), List([Int(5), Int(6)]), NoBindings) ==
            [Fail(MatchAny(true, false, AsPattern(If(LessThan3))), List([Int(5), Int(6)]), NoBindings)]
  {
    var xs := [Int(5), Int(1), Int(2)];
    FirstConditionOnce(true, LessThan3, Return, List(xs), NoBindings);
    assert xs[1..] == [Int(1), Int(2)];
    var ys := [Int(5), Int(6)];
    QuantifiedConditionCounts(true, LessThan3, Return, List(ys), NoBindings);
    assert ys[1..] == [Int(6)];
    assert CountWhere(ys, LessThan3) == 0;
  }

  /** On an empty list `First` fails once and `Each` calls neither continuation. */
  lemma EmptyLists()
    ensures Unify(AsPattern(FirstElement), List([]), NoBindings) ==
            [Fail(MatchAny(true, true, Return), List([]), NoBindings)]
    ensures Unify(AsPattern(EachElement), List([]), NoBindings) == []
  {
    EmptyCollection(true, true, Return, List([]), NoBindings);
    EmptyCollection(false, false, Return, List([]), NoBindings);
  }

  /** Iterating a number, or indexing a list with a string, is a fault that
      ends the match. */
  lemma Faults()
    ensures Unify(AsPattern(EachElement), Int(3), NoBindings) == [Abort(NoBindings)]
    ensures Unify(Chain([Index(Str("a"))], Var(0)), List([Int(1)]), NoBindings) == [Abort(NoBindings)]
  {
  }

  /** A continuation that faults leaves the variable bound: the unbind after
      it never runs. */
  method LeakedBinding() returns (stillBound: bool, held: Variables.Slot)
    ensures stillBound && held == Variables.Holding(Int(42))
  {
    var v := new Variables.Variable(0);
    var events := v.Unify(Int(42), NoBindings, (e: Env) => [Abort(e)], Swallow);
    stillBound := v.bound;
    held := v.value;
  }

  /** Without a fault the same variable is unbound again afterwards. */
  method RestoredBinding() returns (stillBound: bool, held: Variables.Slot)
    ensures !stillBound && held == Variables.Empty
  {
    var v := new Variables.Variable(0);
    var events := v.Unify(Int(42), NoBindings, Proceed, Swallow);
    stillBound := v.bound;
    held := v.value;
  }
}
