/** The bounded copy of WebAuthn extension values: a recursion that shares one node budget. */
module Extensions {
  import opened Common

  const MAX_WEBAUTHN_EXTENSION_DEPTH: nat := 4
  const MAX_WEBAUTHN_EXTENSION_NODES: nat := 256
  const MAX_WEBAUTHN_EXTENSION_KEYS: nat := 32
  const MAX_WEBAUTHN_EXTENSION_STRING_LENGTH: nat := 2048

  datatype ErrorCode = InvalidOptions | InvalidCredential

  /** `Unsupported` is anything else a JavaScript value can be: undefined, a function, a symbol, a bigint. */
  datatype Value =
    | Null | Boolean(b: bool) | Text(s: string) | Finite(x: real) | NonFinite
    | Array(items: seq<Value>) | Record(fields: seq<Field>) | Unsupported

  datatype Field = Field(key: string, value: Value)

  function Width(v: Value): nat {
    match v
    case Array(items) => |items|
    case Record(fields) => |fields|
    case Null => 0
    case Boolean(_) => 0
    case Text(_) => 0
    case Finite(_) => 0
    case NonFinite => 0
    case Unsupported => 0
  }

  function Child(v: Value, i: nat): (c: Value)
    requires i < Width(v)
    ensures c < v
  {
    if v.Array? then v.items[i] else v.fields[i].value
  }

  /** Every node of the tree, the root included. */
  function Nodes(v: Value): nat
    decreases v, Width(v) + 1
  {
    1 + NodesBefore(v, Width(v))
  }

  /** The nodes of the first `n` children. */
  function NodesBefore(v: Value, n: nat): nat
    requires n <= Width(v)
    decreases v, n
  {
    if n == 0 then 0 else NodesBefore(v, n - 1) + Nodes(Child(v, n - 1))
  }

  lemma {:induction false} MoreChildrenMoreNodes(v: Value, m: nat, n: nat)
    requires m <= n <= Width(v)
    ensures NodesBefore(v, m) <= NodesBefore(v, n)
  {
    if m < n {
      MoreChildrenMoreNodes(v, m, n - 1);
    }
  }

  predicate KeyAllowed(key: string) {
    |key| <= 128 && key != "__proto__" && key != "constructor" && key != "prototype"
  }

  /** One node, apart from what is under it. */
  predicate NodeAllowed(v: Value, depth: nat) {
    && depth <= MAX_WEBAUTHN_EXTENSION_DEPTH
    && match v
       case Null => true
       case Boolean(_) => true
       case Text(s) => |s| <= MAX_WEBAUTHN_EXTENSION_STRING_LENGTH
       case Finite(_) => true
       case NonFinite => false
       case Array(items) => |items| <= MAX_WEBAUTHN_EXTENSION_KEYS
       case Record(fields) =>
         |fields| <= MAX_WEBAUTHN_EXTENSION_KEYS && forall i :: 0 <= i < |fields| ==> KeyAllowed(fields[i].key)
       case Unsupported => false
  }

  /** Every node of the tree is allowed at its depth. */
  predicate TreeAllowed(v: Value, depth: nat)
    decreases v
  {
    NodeAllowed(v, depth) && forall i: nat :: i < Width(v) ==> TreeAllowed(Child(v, i), depth + 1)
  }

  /** The keys of the first `n` fields. */
  predicate KeysAllowed(v: Value, n: nat)
    requires v.Record? && n <= |v.fields|
  {
    forall k :: 0 <= k < n ==> KeyAllowed(v.fields[k].key)
  }

  predicate ChildrenAllowed(v: Value, depth: nat, n: nat)
    requires n <= Width(v)
  {
    forall k: nat :: k < n ==> TreeAllowed(Child(v, k), depth + 1)
  }

  lemma FieldsAllowed(v: Value, depth: nat)
    requires v.Record? && depth <= MAX_WEBAUTHN_EXTENSION_DEPTH && |v.fields| <= MAX_WEBAUTHN_EXTENSION_KEYS
    ensures TreeAllowed(v, depth) <==> KeysAllowed(v, |v.fields|) && ChildrenAllowed(v, depth, |v.fields|)
  {
  }

  class Budget {
    var nodes: nat

    constructor ()
      ensures nodes == 0
    {
      nodes := 0;
    }
  }

  /**
   The copy succeeds exactly when every node is allowed and the whole tree fits
   what is left of the budget; the copy is then the value itself, and the
   budget has been charged once for every node.
   */
  method CopyBoundedExtensionValue(value: Value, code: ErrorCode, depth: nat, budget: Budget)
    returns (r: Result<Value, ErrorCode>)
    modifies budget
    ensures r == if TreeAllowed(value, depth) && old(budget.nodes) + Nodes(value) <= MAX_WEBAUTHN_EXTENSION_NODES
                 then Success(value) else Failure(code)
    ensures r.Success? ==> budget.nodes == old(budget.nodes) + Nodes(value)
    ensures budget.nodes > old(budget.nodes)
    decreases value
  {
    budget.nodes := budget.nodes + 1;
    if budget.nodes > MAX_WEBAUTHN_EXTENSION_NODES || depth > MAX_WEBAUTHN_EXTENSION_DEPTH {
      return Failure(code);
    }
    match value {
      case Null => return Success(value);
      case Boolean(_) => return Success(value);
      case Text(s) =>
        if |s| > MAX_WEBAUTHN_EXTENSION_STRING_LENGTH {
          return Failure(code);
        }
        return Success(value);
      case Finite(_) => return Success(value);
      case NonFinite => return Failure(code);
      case Unsupported => return Failure(code);
      case Array(items) => r := CopyItems(value, code, depth, budget);
      case Record(fields) => r := CopyFields(value, code, depth, budget);
    }
  }

  /** The first `n` items are copied, and the budget charged for them. */
  predicate CopiedItems(v: Value, depth: nat, n: nat, copies: seq<Value>, before: nat, nodes: nat) {
    && v.Array? && n <= |v.items| && copies == v.items[..n] && ChildrenAllowed(v, depth, n)
    && nodes == before + NodesBefore(v, n) <= MAX_WEBAUTHN_EXTENSION_NODES
  }

  lemma OneMoreItem(v: Value, depth: nat, n: nat, copies: seq<Value>, before: nat, nodes: nat)
    requires CopiedItems(v, depth, n, copies, before, nodes) && n < |v.items|
    ensures before + NodesBefore(v, n + 1) == nodes + Nodes(v.items[n]) <= before + NodesBefore(v, |v.items|)
    ensures TreeAllowed(v.items[n], depth + 1) && nodes + Nodes(v.items[n]) <= MAX_WEBAUTHN_EXTENSION_NODES
            ==> CopiedItems(v, depth, n + 1, copies + [v.items[n]], before, nodes + Nodes(v.items[n]))
    ensures !TreeAllowed(v.items[n], depth + 1) ==> !TreeAllowed(v, depth)
  {
    assert Child(v, n) == v.items[n];
    MoreChildrenMoreNodes(v, n + 1, |v.items|);
  }

  lemma ItemsAllowed(v: Value, depth: nat)
    requires v.Array? && depth <= MAX_WEBAUTHN_EXTENSION_DEPTH && |v.items| <= MAX_WEBAUTHN_EXTENSION_KEYS
    ensures TreeAllowed(v, depth) <==> ChildrenAllowed(v, depth, |v.items|)
  {
  }

  method CopyItems(value: Value, code: ErrorCode, depth: nat, budget: Budget) returns (r: Result<Value, ErrorCode>)
    requires value.Array? && depth <= MAX_WEBAUTHN_EXTENSION_DEPTH && budget.nodes <= MAX_WEBAUTHN_EXTENSION_NODES
    modifies budget
    ensures r == if TreeAllowed(value, depth)
                    && old(budget.nodes) + NodesBefore(value, Width(value)) <= MAX_WEBAUTHN_EXTENSION_NODES
                 then Success(value) else Failure(code)
    ensures r.Success? ==> budget.nodes == old(budget.nodes) + NodesBefore(value, Width(value))
    ensures budget.nodes >= old(budget.nodes)
    decreases value, 0
  {
    if |value.items| > MAX_WEBAUTHN_EXTENSION_KEYS {
      return Failure(code);
    }
    ItemsAllowed(value, depth);
    var copies: seq<Value> := [];
    for i := 0 to |value.items|
      invariant CopiedItems(value, depth, i, copies, old(budget.nodes), budget.nodes)
    {
      OneMoreItem(value, depth, i, copies, old(budget.nodes), budget.nodes);
      r := CopyBoundedExtensionValue(value.items[i], code, depth + 1, budget);
      if r.Failure? {
        return Failure(code);
      }
      copies := copies + [r.value];
    }
    assert value.items[..|value.items|] == value.items;
    return Success(Array(copies));
  }

  /** The first `n` fields are copied, and the budget charged for what is under them. */
  predicate CopiedFields(v: Value, depth: nat, n: nat, copies: seq<Field>, before: nat, nodes: nat) {
    && v.Record? && n <= |v.fields| && copies == v.fields[..n]
    && KeysAllowed(v, n) && ChildrenAllowed(v, depth, n)
    && nodes == before + NodesBefore(v, n) <= MAX_WEBAUTHN_EXTENSION_NODES
  }

  lemma OneMoreField(v: Value, depth: nat, n: nat, copies: seq<Field>, before: nat, nodes: nat)
    requires CopiedFields(v, depth, n, copies, before, nodes) && n < |v.fields|
    ensures Child(v, n) == v.fields[n].value
    ensures before + NodesBefore(v, n + 1) == nodes + Nodes(v.fields[n].value) <= before + NodesBefore(v, |v.fields|)
    ensures KeyAllowed(v.fields[n].key) && TreeAllowed(v.fields[n].value, depth + 1)
            && nodes + Nodes(v.fields[n].value) <= MAX_WEBAUTHN_EXTENSION_NODES
            ==> CopiedFields(v, depth, n + 1, copies + [v.fields[n]], before, nodes + Nodes(v.fields[n].value))
    ensures !KeyAllowed(v.fields[n].key) || !TreeAllowed(v.fields[n].value, depth + 1) ==> !TreeAllowed(v, depth)
  {
    MoreChildrenMoreNodes(v, n + 1, |v.fields|);
    assert TreeAllowed(v, depth) ==> TreeAllowed(Child(v, n), depth + 1);
  }

  method CopyFields(value: Value, code: ErrorCode, depth: nat, budget: Budget) returns (r: Result<Value, ErrorCode>)
    requires value.Record? && depth <= MAX_WEBAUTHN_EXTENSION_DEPTH && budget.nodes <= MAX_WEBAUTHN_EXTENSION_NODES
    modifies budget
    ensures r == if TreeAllowed(value, depth)
                    && old(budget.nodes) + NodesBefore(value, Width(value)) <= MAX_WEBAUTHN_EXTENSION_NODES
                 then Success(value) else Failure(code)
    ensures r.Success? ==> budget.nodes == old(budget.nodes) + NodesBefore(value, Width(value))
    ensures budget.nodes >= old(budget.nodes)
    decreases value, 0, 1
  {
    if |value.fields| > MAX_WEBAUTHN_EXTENSION_KEYS {
      return Failure(code);
    }
    FieldsAllowed(value, depth);
    var result: seq<Field> := [];
    for i := 0 to |value.fields|
      invariant CopiedFields(value, depth, i, result, old(budget.nodes), budget.nodes)
    {
      OneMoreField(value, depth, i, result, old(budget.nodes), budget.nodes);
      r := CopyField(value.fields[i], code, depth, budget, value);
      if r.Failure? {
        return Failure(code);
      }
      result := result + [Field(value.fields[i].key, r.value)];
    }
    assert value.fields[..|value.fields|] == value.fields;
    return Success(Record(result));
  }

  /** The key check and the copy of one field of `parent`. */
  method CopyField(field: Field, code: ErrorCode, depth: nat, budget: Budget, ghost parent: Value)
    returns (r: Result<Value, ErrorCode>)
    requires parent.Record? && field in parent.fields
    modifies budget
    ensures r == if KeyAllowed(field.key) && TreeAllowed(field.value, depth + 1)
                    && old(budget.nodes) + Nodes(field.value) <= MAX_WEBAUTHN_EXTENSION_NODES
                 then Success(field.value) else Failure(code)
    ensures r.Success? ==> budget.nodes == old(budget.nodes) + Nodes(field.value)
    ensures budget.nodes >= old(budget.nodes)
    decreases parent, 0, 0
  {
    if !KeyAllowed(field.key) {
      return Failure(code);
    }
    r := CopyBoundedExtensionValue(field.value, code, depth + 1, budget);
  }

  /** `None` stands for an absent value, which is passed through. */
  method CopyRecord(value: Option<Value>, code: ErrorCode) returns (r: Result<Option<Value>, ErrorCode>)
    ensures r == if value.None? then Success(None)
                 else if value.value.Record? && TreeAllowed(value.value, 0)
                         && Nodes(value.value) <= MAX_WEBAUTHN_EXTENSION_NODES
                 then Success(value) else Failure(code)
  {
    if value.None? {
      return Success(None);
    }
    if !value.value.Record? {
      return Failure(code);
    }
    var budget := new Budget();
    var copy := CopyBoundedExtensionValue(value.value, code, 0, budget);
    if copy.Failure? {
      return Failure(code);
    }
    return Success(Some(copy.value));
  }

  /** What is accepted is at most four levels below the root. */
  function Height(v: Value): nat
    decreases v, Width(v) + 1
  {
    HeightBefore(v, Width(v))
  }

  function HeightBefore(v: Value, n: nat): nat
    requires n <= Width(v)
    decreases v, n
  {
    if n == 0 then 0
    else
      var h := 1 + Height(Child(v, n - 1));
      if h > HeightBefore(v, n - 1) then h else HeightBefore(v, n - 1)
  }

  lemma {:induction false} AllowedIsShallow(v: Value, depth: nat)
    requires TreeAllowed(v, depth)
    ensures depth + Height(v) <= MAX_WEBAUTHN_EXTENSION_DEPTH
    decreases v, Width(v) + 1
  {
    AllowedIsShallowBefore(v, Width(v), depth);
  }

  lemma {:induction false} AllowedIsShallowBefore(v: Value, n: nat, depth: nat)
    requires TreeAllowed(v, depth) && n <= Width(v)
    ensures depth + HeightBefore(v, n) <= MAX_WEBAUTHN_EXTENSION_DEPTH
    decreases v, n
  {
    if n > 0 {
      AllowedIsShallowBefore(v, n - 1, depth);
      AllowedIsShallow(Child(v, n - 1), depth + 1);
    }
  }

  // ---------------------------------------------------------------------
  // What is accepted, node by node

  /** The `i`-th item or field value. */
  function Under(v: Value, i: nat): Option<Value> {
    match v
    case Array(items) => if i < |items| then Some(items[i]) else None
    case Record(fields) => if i < |fields| then Some(fields[i].value) else None
    case _ => None
  }

  /** The node that a list of positions, from the root down, leads to. */
  function NodeAt(v: Value, path: seq<nat>): Option<Value>
    decreases |path|
  {
    if path == [] then Some(v)
    else
      match Under(v, path[0])
      case None => None
      case Some(child) => NodeAt(child, path[1..])
  }

  /** A key that could reach the prototype of the copy. */
  predicate ReachesPrototype(key: string) {
    key == "__proto__" || key == "constructor" || key == "prototype"
  }

  /** A value that may stand anywhere in an extension: JSON data of bounded size, with harmless keys. */
  predicate Harmless(v: Value) {
    match v
    case Null => true
    case Boolean(_) => true
    case Finite(_) => true
    case Text(s) => |s| <= 2048
    case Array(items) => |items| <= 32
    case Record(fields) =>
      |fields| <= 32 && forall f :: f in fields ==> |f.key| <= 128 && !ReachesPrototype(f.key)
    case NonFinite => false
    case Unsupported => false
  }

  ghost predicate HarmlessThroughout(v: Value, depth: nat) {
    forall path: seq<nat> :: NodeAt(v, path).Some? ==> depth + |path| <= 4 && Harmless(NodeAt(v, path).value)
  }

  lemma UnderIsChild(v: Value, i: nat)
    ensures Under(v, i) == if i < Width(v) then Some(Child(v, i)) else None
  {
  }

  lemma NodeIsHarmless(v: Value, depth: nat)
    ensures NodeAllowed(v, depth) <==> depth <= 4 && Harmless(v)
  {
    if v.Record? {
      if NodeAllowed(v, depth) {
        forall f | f in v.fields ensures |f.key| <= 128 && !ReachesPrototype(f.key) {
          var i :| 0 <= i < |v.fields| && v.fields[i] == f;
          assert KeyAllowed(v.fields[i].key);
        }
      }
      if Harmless(v) {
        forall i | 0 <= i < |v.fields| ensures KeyAllowed(v.fields[i].key) {
          assert v.fields[i] in v.fields;
        }
      }
    }
  }

  /**
   Accepted is exactly what is at most four levels deep and harmless at every
   node, wherever it stands.
   */
  lemma {:induction false} AllowedExactly(v: Value, depth: nat)
    ensures TreeAllowed(v, depth) <==> HarmlessThroughout(v, depth)
    decreases v
  {
    hide NodeAllowed, Harmless;
    NodeIsHarmless(v, depth);
    if TreeAllowed(v, depth) {
      forall path: seq<nat> | NodeAt(v, path).Some?
        ensures depth + |path| <= 4 && Harmless(NodeAt(v, path).value)
      {
        if path != [] {
          UnderIsChild(v, path[0]);
          AllowedExactly(Child(v, path[0]), depth + 1);
          assert NodeAt(Child(v, path[0]), path[1..]) == NodeAt(v, path);
        }
      }
    }
    if HarmlessThroughout(v, depth) {
      assert NodeAt(v, []) == Some(v);
      forall i: nat | i < Width(v) ensures TreeAllowed(Child(v, i), depth + 1) {
        forall path: seq<nat> | NodeAt(Child(v, i), path).Some?
          ensures depth + 1 + |path| <= 4 && Harmless(NodeAt(Child(v, i), path).value)
        {
          UnderIsChild(v, i);
          assert ([i] + path)[1..] == path;
          assert NodeAt(v, [i] + path) == NodeAt(Child(v, i), path);
        }
        AllowedExactly(Child(v, i), depth + 1);
      }
    }
  }

  lemma {:induction false} SameChildrenSameNodes(v: Value, w: Value, n: nat)
    requires n <= Width(v) && n <= Width(w) && forall i: nat :: i < n ==> Child(v, i) == Child(w, i)
    ensures NodesBefore(v, n) == NodesBefore(w, n)
    decreases n
  {
    if n > 0 {
      SameChildrenSameNodes(v, w, n - 1);
    }
  }

  lemma OneMoreChild(v: Value, longer: Value)
    requires Width(longer) == Width(v) + 1 && forall i: nat :: i < Width(v) ==> Child(v, i) == Child(longer, i)
    ensures Nodes(longer) == Nodes(v) + Nodes(Child(longer, Width(v)))
  {
    hide *;
    SameChildrenSameNodes(v, longer, Width(v));
    NodesUnfold(v);
    NodesUnfold(longer);
    BeforeUnfolds(longer, Width(v));
  }

  lemma NodesUnfold(v: Value)
    ensures Nodes(v) == 1 + NodesBefore(v, Width(v))
  {
    hide NodesBefore, Width;
  }

  lemma BeforeUnfolds(v: Value, n: nat)
    requires n < Width(v)
    ensures NodesBefore(v, n + 1) == NodesBefore(v, n) + Nodes(Child(v, n))
  {
    hide Nodes, Width, Child;
  }

  /** Nodes are counted once each: one for a leaf or an empty collection, and as many more as each item brings. */
  lemma NodesAddUp(v: Value, items: seq<Value>, fields: seq<Field>, key: string)
    ensures Nodes(Array([])) == 1 && Nodes(Record([])) == 1
    ensures !v.Array? && !v.Record? ==> Nodes(v) == 1
    ensures Nodes(Array(items + [v])) == Nodes(Array(items)) + Nodes(v)
    ensures Nodes(Record(fields + [Field(key, v)])) == Nodes(Record(fields)) + Nodes(v)
  {
    Leaves(v);
    hide Nodes;
    OneMoreChild(Array(items), Array(items + [v]));
    OneMoreChild(Record(fields), Record(fields + [Field(key, v)]));
  }

  lemma Leaves(v: Value)
    ensures Width(v) == 0 ==> Nodes(v) == 1
    ensures !v.Array? && !v.Record? ==> Width(v) == 0
    ensures Nodes(Array([])) == 1 && Nodes(Record([])) == 1
  {
  }
}
