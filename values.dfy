/** The part of the host language's object model that the matcher touches:
    the values it is applied to, attribute and item lookup, iteration and
    the type test behind `Subtype`. */
module Values {

  /** A value under match. Lists, strings and dictionaries are the indexable
      and iterable containers; objects carry their class name and their
      attributes. A dictionary keeps its entries in iteration order. */
  datatype Value =
    | Int(i: int)
    | Str(s: string)
    | List(items: seq<Value>)
    | Dict(entries: seq<(string, Value)>)
    | Object(cls: string, attrs: map<string, Value>)

  /** What an extraction yields: a value; one of the three faults the matcher
      turns into a failure (missing attribute, missing key, index out of
      range); or any other fault, which propagates to the caller. */
  datatype Lookup = Found(v: Value) | SoftFault | HardFault

  /** The elements a `for` loop visits, or NotIterable when iterating the
      value raises. */
  datatype Iteration = Iterable(elems: seq<Value>) | NotIterable

  /** `getattr(v, name)` on the values of this model: only objects carry
      attributes (the attributes and methods of Python's built-in types are
      not modelled), and a missing one raises AttributeError, a soft fault. */
  function GetAttr(v: Value, name: string): (r: Lookup)
    ensures r != HardFault
    ensures r.Found? <==> v.Object? && name in v.attrs
  {
    if v.Object? && name in v.attrs then Found(v.attrs[name]) else SoftFault
  }

  /** Position `i` of a sequence of length `n` under negative indexing, if in range. */
  function Position(n: nat, i: int): (r: int)
    requires -(n as int) <= i < n
    ensures 0 <= r < n && (r == i || r == i + n)
  {
    if i < 0 then i + n else i
  }

  /** The value stored under `key` in dictionary entries, the first entry winning. */
  function DictGet(entries: seq<(string, Value)>, key: string): (r: Lookup)
    ensures r != HardFault
    ensures r.Found? <==> exists j :: 0 <= j < |entries| && entries[j].0 == key
    ensures r.Found? ==> exists j :: 0 <= j < |entries| && entries[j] == (key, r.v) && FirstWith(entries, key, j)
  {
    if |entries| == 0 then SoftFault
    else if entries[0].0 == key then
      assert entries[0] == (key, entries[0].1) && FirstWith(entries, key, 0);
      Found(entries[0].1)
    else
      var r := DictGet(entries[1..], key);
      assert forall j :: 1 <= j < |entries| ==> entries[j] == entries[1..][j - 1];
      assert r.Found? ==> exists j :: 0 <= j < |entries| && entries[j] == (key, r.v) && FirstWith(entries, key, j) by {
        if r.Found? {
          var j :| 0 <= j < |entries[1..]| && entries[1..][j] == (key, r.v) && FirstWith(entries[1..], key, j);
          assert entries[j + 1] == (key, r.v) && FirstWith(entries, key, j + 1);
        }
      }
      r
  }

  /** No entry before position `j` has the key `key`. */
  ghost predicate FirstWith(entries: seq<(string, Value)>, key: string, j: int)
  {
    forall k | 0 <= k < j && k < |entries| :: entries[k].0 != key
  }

  /** `v[key]`. An index out of range raises IndexError and an absent key
      raises KeyError (soft faults); subscripting a number or an object,
      indexing a sequence with a non-integer, or looking up an unhashable
      key raises TypeError (a hard fault). */
  function GetItem(v: Value, key: Value): (r: Lookup)
    ensures r.HardFault? <==>
      (v.Int? || v.Object? || ((v.List? || v.Str?) && !key.Int?) || (v.Dict? && (key.List? || key.Dict?)))
    ensures v.List? && key.Int? && -|v.items| <= key.i < |v.items| ==> r == Found(v.items[Position(|v.items|, key.i)])
    ensures v.Str? && key.Int? && -|v.s| <= key.i < |v.s| ==> r == Found(Str([v.s[Position(|v.s|, key.i)]]))
    ensures (v.List? || v.Str?) && key.Int? && !(-(Length(v) as int) <= key.i < Length(v)) ==> r == SoftFault
    ensures v.Dict? && key.Str? ==> r == DictGet(v.entries, key.s)
    ensures v.Dict? && (key.Int? || key.Object?) ==> r == SoftFault
  {
    match v
    case List(items) =>
      if !key.Int? then HardFault
      else if -|items| <= key.i < |items| then Found(items[Position(|items|, key.i)])
      else SoftFault
    case Str(s) =>
      if !key.Int? then HardFault
      else if -|s| <= key.i < |s| then Found(Str([s[Position(|s|, key.i)]]))
      else SoftFault
    case Dict(entries) =>
      if key.List? || key.Dict? then HardFault
      else if key.Str? then DictGet(entries, key.s)
      else SoftFault
    case Int(_) => HardFault
    case Object(_, _) => HardFault
  }

  /** The length of a list or string. */
  function Length(v: Value): nat
    requires v.List? || v.Str?
  {
    if v.List? then |v.items| else |v.s|
  }

  /** What `for entry in v` visits: list items, one-character strings, or
      dictionary keys in order; numbers and plain objects are not iterable. */
  function Elements(v: Value): (r: Iteration)
    ensures r.Iterable? <==> (v.List? || v.Str? || v.Dict?)
    ensures v.List? ==> r == Iterable(v.items)
    ensures v.Str? ==> |r.elems| == |v.s| && forall j | 0 <= j < |v.s| :: r.elems[j] == Str([v.s[j]])
    ensures v.Dict? ==> |r.elems| == |v.entries| && forall j | 0 <= j < |v.entries| :: r.elems[j] == Str(v.entries[j].0)
  {
    match v
    case List(items) => Iterable(items)
    case Str(s) => Iterable(seq(|s|, j requires 0 <= j < |s| => Str([s[j]])))
    case Dict(entries) => Iterable(seq(|entries|, j requires 0 <= j < |entries| => Str(entries[j].0)))
    case Int(_) => NotIterable
    case Object(_, _) => NotIterable
  }

  /** The class name `isinstance` compares against. */
  function TypeName(v: Value): string
  {
    match v
    case Int(_) => "int"
    case Str(_) => "str"
    case List(_) => "list"
    case Dict(_) => "dict"
    case Object(cls, _) => cls
  }

  /** `isinstance(v, cls)`, without subclassing. */
  predicate IsInstance(v: Value, cls: string)
  {
    TypeName(v) == cls
  }
}
