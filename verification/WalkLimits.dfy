/**
 The limits on a hook's JSON input (`walk_limits`): the walk with an explicit stack accepts a value
 exactly when its numbers of nodes and object fields and its depth are within the limits.
 */
module WalkLimits {

  /** A value, reduced to what the walk looks at: an object has one child for each field. */
  datatype Json = Scalar | Array(elements: seq<Json>) | Object(fields: seq<Json>)

  const MAX_NODES: nat := 4096
  const MAX_DEPTH: nat := 32
  const MAX_FIELDS: nat := 256

  function Children(v: Json): seq<Json> {
    match v
    case Scalar => []
    case Array(elements) => elements
    case Object(fields) => fields
  }

  // ---- the limits, by recursion on the value ------------------------------------------------------

  function Nodes(v: Json): (n: nat)
    ensures n > 0
    decreases v, 1
  {
    match v
    case Scalar => 1
    case Array(elements) => 1 + NodesOf(elements)
    case Object(fields) => 1 + NodesOf(fields)
  }

  function NodesOf(vs: seq<Json>): nat
    decreases vs, 0
  {
    if vs == [] then 0 else Nodes(vs[0]) + NodesOf(vs[1..])
  }

  function Fields(v: Json): nat
    decreases v, 1
  {
    match v
    case Scalar => 0
    case Array(elements) => FieldsOf(elements)
    case Object(fields) => |fields| + FieldsOf(fields)
  }

  function FieldsOf(vs: seq<Json>): nat
    decreases vs, 0
  {
    if vs == [] then 0 else Fields(vs[0]) + FieldsOf(vs[1..])
  }

  /** No node of `v` is deeper than the limit when `v` itself has depth `d`. */
  predicate Shallow(v: Json, d: nat)
    decreases v, 1
  {
    && d <= MAX_DEPTH
    && match v
       case Scalar => true
       case Array(elements) => AllShallow(elements, d + 1)
       case Object(fields) => AllShallow(fields, d + 1)
  }

  predicate AllShallow(vs: seq<Json>, d: nat)
    decreases vs, 0
  {
    vs == [] || (Shallow(vs[0], d) && AllShallow(vs[1..], d))
  }

  predicate WithinLimits(v: Json) {
    Nodes(v) <= MAX_NODES && Shallow(v, 0) && Fields(v) <= MAX_FIELDS
  }

  // ---- what is left on the stack --------------------------------------------------------------------

  datatype Item = Item(value: Json, depth: nat)

  function NodesLeft(stack: seq<Item>): nat {
    if stack == [] then 0 else Nodes(stack[|stack| - 1].value) + NodesLeft(stack[..|stack| - 1])
  }

  function FieldsLeft(stack: seq<Item>): nat {
    if stack == [] then 0 else Fields(stack[|stack| - 1].value) + FieldsLeft(stack[..|stack| - 1])
  }

  predicate ShallowLeft(stack: seq<Item>) {
    stack == [] || (Shallow(stack[|stack| - 1].value, stack[|stack| - 1].depth) && ShallowLeft(stack[..|stack| - 1]))
  }

  /** Pushing the children of a value, one after the other. */
  method PushAll(stack: seq<Item>, children: seq<Json>, depth: nat) returns (r: seq<Item>)
    ensures NodesLeft(r) == NodesLeft(stack) + NodesOf(children)
    ensures FieldsLeft(r) == FieldsLeft(stack) + FieldsOf(children)
    ensures ShallowLeft(r) <==> ShallowLeft(stack) && AllShallow(children, depth)
  {
    r := stack;
    assert children[0..] == children;
    for i := 0 to |children|
      invariant NodesLeft(r) + NodesOf(children[i..]) == NodesLeft(stack) + NodesOf(children)
      invariant FieldsLeft(r) + FieldsOf(children[i..]) == FieldsLeft(stack) + FieldsOf(children)
      invariant ShallowLeft(r) && AllShallow(children[i..], depth) <==> ShallowLeft(stack) && AllShallow(children, depth)
    {
      assert children[i..][1..] == children[i + 1..] && children[i..][0] == children[i];
      assert (r + [Item(children[i], depth)])[..|r|] == r;
      r := r + [Item(children[i], depth)];
    }
  }

  lemma {:induction false} OneNode(v: Json, d: nat)
    ensures Nodes(v) == 1 + NodesOf(Children(v))
    ensures Fields(v) == (if v.Object? then |v.fields| else 0) + FieldsOf(Children(v))
    ensures Shallow(v, d) <==> d <= MAX_DEPTH && AllShallow(Children(v), d + 1)
  {
  }

  /** Accepts a value exactly when it is within the limits; the nodes left on the stack decrease. */
  method Walk(value: Json) returns (accepted: bool)
    ensures accepted <==> WithinLimits(value)
  {
    hide Nodes, NodesOf, Fields, FieldsOf, Shallow, AllShallow;
    var stack := [Item(value, 0)];
    assert stack[..0] == [];
    var nodes, fields := 0, 0;
    while stack != []
      invariant 0 <= nodes <= MAX_NODES && 0 <= fields <= MAX_FIELDS
      invariant nodes + NodesLeft(stack) == Nodes(value)
      invariant fields + FieldsLeft(stack) == Fields(value)
      invariant ShallowLeft(stack) <==> Shallow(value, 0)
      decreases NodesLeft(stack)
    {
      var item := stack[|stack| - 1];
      OneNode(item.value, item.depth);
      stack := stack[..|stack| - 1];
      nodes := nodes + 1;
      if nodes > MAX_NODES || item.depth > MAX_DEPTH {
        return false;
      }
      if item.value.Object? {
        fields := fields + |item.value.fields|;
        if fields > MAX_FIELDS {
          return false;
        }
      }
      stack := PushAll(stack, Children(item.value), item.depth + 1);
    }
    return true;
  }

  // ---- the limits at their bounds -----------------------------------------------------------------------

  function Nested(n: nat): Json {
    if n == 0 then Scalar else Array([Nested(n - 1)])
  }

  function Scalars(n: nat): (r: seq<Json>)
    ensures |r| == n
  {
    if n == 0 then [] else [Scalar] + Scalars(n - 1)
  }

  lemma {:induction false} NestedIs(n: nat, d: nat)
    ensures Nodes(Nested(n)) == n + 1 && Fields(Nested(n)) == 0 && (Shallow(Nested(n), d) <==> d + n <= 32)
  {
    if n > 0 {
      NestedIs(n - 1, d + 1);
      var inner := [Nested(n - 1)];
      assert inner[1..] == [];
      assert NodesOf(inner) == Nodes(inner[0]) && FieldsOf(inner) == Fields(inner[0]);
      assert AllShallow(inner, d + 1) <==> Shallow(inner[0], d + 1);
    }
  }

  lemma {:induction false} ScalarsAre(n: nat)
    ensures NodesOf(Scalars(n)) == n && FieldsOf(Scalars(n)) == 0 && AllShallow(Scalars(n), 1)
  {
    if n > 0 {
      ScalarsAre(n - 1);
      assert Scalars(n)[1..] == Scalars(n - 1);
    }
  }

  /** The bounds are met by 32 nested arrays, by an array of 4095 values, and by an object of 256 fields, and by no more. */
  lemma {:induction false} LimitsAre(n: nat)
    ensures WithinLimits(Nested(n)) <==> n <= 32
    ensures WithinLimits(Array(Scalars(n))) <==> n <= 4095
    ensures WithinLimits(Object(Scalars(n))) <==> n <= 256
  {
    NestedIs(n, 0);
    ScalarsAre(n);
  }
}
