/** The run-time classes shared by the checker and the evaluator (src/InterpreterClasses.js and
    its newer copy src/language/InterpreterClasses.js): the two mutable maps `Environment` and
    `Store`, the shared location counter, the syntax tree, and the values with their methods.
    Where the two copies differ, the model follows src/language/InterpreterClasses.js; the
    older behaviours that differ are kept beside it under names ending in `OlderCopy`. */
module InterpreterClasses {
  import opened Outcomes
  import opened Types
  import opened TypedArrays
  import opened NumberParsing

  /** `Environment`: a mutable map from names to store locations. */
  class Environment {
    var bindings: map<string, nat>

    constructor ()
      ensures bindings == map[]
    {
      bindings := map[];
    }

    /** `new Environment(parent)`: a new map holding a copy of the parent's entries; later
        changes to either map do not show in the other. */
    constructor Extend(parent: Environment)
      ensures bindings == parent.bindings
    {
      bindings := parent.bindings;
    }

    /** `set` stores the entry and answers the location it was given. */
    method Set(name: string, location: nat) returns (r: nat)
      modifies this
      ensures bindings == old(bindings)[name := location]
      ensures r == location
    {
      bindings := bindings[name := location];
      r := location;
    }

    method Delete(name: string)
      modifies this
      ensures bindings == old(bindings) - {name}
    {
      bindings := bindings - {name};
    }
  }

  /** The names of a list of parameters. */
  function Names(ps: seq<Identifier>): set<string> {
    set p | p in ps :: p.name
  }

  /** The bindings after each parameter in turn is bound to the next location, from `first`. */
  function BindAll(m: map<string, nat>, ps: seq<Identifier>, first: nat): map<string, nat>
    decreases |ps|
  {
    if |ps| == 0 then m else BindAll(m, ps[..|ps| - 1], first)[ps[|ps| - 1].name := first + |ps| - 1]
  }

  /** A binding pass binds exactly the parameter names on top of what was there, each to one of
      the pass's locations, and leaves every other name alone. */
  lemma {:induction false} BindAllBinds(m: map<string, nat>, ps: seq<Identifier>, first: nat)
    ensures forall n :: n in BindAll(m, ps, first) <==> n in m || n in Names(ps)
    ensures forall n :: n in Names(ps) ==> first <= BindAll(m, ps, first)[n] < first + |ps|
    ensures forall n :: n in m && n !in Names(ps) ==> BindAll(m, ps, first)[n] == m[n]
    decreases |ps|
  {
    if |ps| > 0 {
      var init := ps[..|ps| - 1];
      BindAllBinds(m, init, first);
      assert Names(ps) == Names(init) + {ps[|ps| - 1].name} by {
        assert ps == init + [ps[|ps| - 1]];
      }
    }
  }

  /** `Store`: a mutable map from locations to payloads (values for the evaluator, types for the
      checker). */
  class Store<T> {
    var entries: map<nat, T>

    constructor ()
      ensures entries == map[]
    {
      entries := map[];
    }

    /** `new Store(parent)`: a new map holding a copy of the parent's entries. */
    constructor Extend(parent: Store<T>)
      ensures entries == parent.entries
    {
      entries := parent.entries;
    }

    /** `set` stores the entry and answers the location it was given. */
    method Set(location: nat, payload: T) returns (r: nat)
      modifies this
      ensures entries == old(entries)[location := payload]
      ensures r == location
    {
      entries := entries[location := payload];
      r := location;
    }
  }

  /** The static field `Store.location`, shared by every store of the checker and the
      evaluator, and the `nextLocation` getter that reads and then increments it. */
  class LocationCounter {
    var next: nat

    constructor ()
      ensures next == 0
    {
      next := 0;
    }

    /** Answers the counter and then increments it, so no two calls ever answer the same
        location. */
    method NextLocation() returns (l: nat)
      modifies this
      ensures l == old(next) && next == old(next) + 1
    {
      l := next;
      next := next + 1;
    }
  }

  /** Every location a store holds was issued by the counter. */
  ghost predicate IssuedBy<T>(s: Store<T>, counter: LocationCounter)
    reads s, counter
  {
    forall l :: l in s.entries ==> l < counter.next
  }

  /** The later map keeps every entry of the earlier one. */
  ghost predicate Extends<T>(before: map<nat, T>, after: map<nat, T>) {
    forall l :: l in before ==> l in after && after[l] == before[l]
  }

  /** The `[payload, store]` pair the checker (a type) and the evaluator (a value) answer. */
  datatype Answer<P, T> = Answer(payload: P, store: Store<T>)

  /** What every step of the checker and the evaluator keeps: the counter only grows; the store
      it was handed only gains entries, all at issued locations; the store it answers is that
      store or a new one, and holds every entry the handed store held on entry. */
  twostate predicate Threaded<P, T>(store: Store<T>, counter: LocationCounter, new r: Result<Answer<P, T>>)
    reads store, counter, if r.Ok? then {r.value.store} else {}
  {
    old(counter.next) <= counter.next
    && Extends(old(store.entries), store.entries) && IssuedBy(store, counter)
    && (r.Ok? ==> (r.value.store == store || fresh(r.value.store))
                  && Extends(old(store.entries), r.value.store.entries)
                  && IssuedBy(r.value.store, counter))
  }

  lemma ExtendsTransitive<T>(a: map<nat, T>, b: map<nat, T>, c: map<nat, T>)
    requires Extends(a, b) && Extends(b, c)
    ensures Extends(a, c)
  {
  }

  // ---------------------------------------------------------------- syntax tree

  datatype BinaryOp = Equals | And | Or | Add | Subtract | Multiply | Divide | Power {
    predicate IsArithmetic() { this in {Add, Subtract, Multiply, Divide, Power} }
  }

  /** The payload of a literal node: a fixed-size integer (the typed array holds the wrapped
      number), a string or a boolean. */
  datatype Literal =
    | IntLiteral(signed: bool, width: Width, n: int)
    | StringLiteral(s: string)
    | BoolLiteral(b: bool)

  /** The syntax tree the parser hands to the core. `nid` stands for the node's object
      identity: the parser gives every node its own. */
  datatype Node =
    | Block(nid: nat, content: seq<Node>)
    | Let(nid: nat, identifier: Identifier, bound: Node)
    | Id(nid: nat, name: string)
    | Binary(nid: nat, op: BinaryOp, left: Node, right: Node)
    | Not(nid: nat, operand: Node)
    | Literal(nid: nat, literal: Literal)
    | FunctionExpression(nid: nat, parameters: seq<Identifier>, body: Node)
    | Apply(nid: nat, target: Node, args: seq<Node>)
    | Cast(nid: nat, target: Node, to: Type)

  /** The hint of node `nid` in a map of hints, present only when set and not undefined. */
  function HintIn(hints: map<nat, Type>, nid: nat): Option<Type> {
    if nid in hints && !hints[nid].Undefined? then Some(hints[nid]) else None
  }

  /** The `to` field of cast node `e` given the checker's assignments so far. */
  function CastTargetIn(casts: map<nat, Type>, e: Node): Type
    requires e.Cast?
  {
    if e.nid in casts then casts[e.nid] else e.to
  }

  /** The mutable fields of the tree's nodes, keyed by node identity: every node's `typeHint`
      (initially null) and the `to` field of `Cast` nodes, which the checker reassigns. */
  class Annotations {
    var typeHint: map<nat, Type>
    var castTo: map<nat, Type>

    constructor ()
      ensures typeHint == map[] && castTo == map[]
    {
      typeHint := map[];
      castTo := map[];
    }

    /** The hint as the source tests it (`if (node.typeHint)`): a missing hint and an
        undefined one are both falsy. */
    function Hint(nid: nat): (h: Option<Type>)
      reads this
      ensures h.Some? <==> nid in typeHint && !typeHint[nid].Undefined?
      ensures h.Some? ==> h.value == typeHint[nid]
    {
      HintIn(typeHint, nid)
    }

    /** `infer`: the node's hint becomes `t`. Overwriting a different hint only logs a warning,
        so the write happens in every case. */
    method Infer(nid: nat, t: Type)
      modifies this
      ensures typeHint == old(typeHint)[nid := t] && castTo == old(castTo)
      ensures t != Type.Undefined ==> Hint(nid) == Some(t)
    {
      typeHint := typeHint[nid := t];
    }

    /** The checker's assignment to a cast node's `to` field. */
    method SetCastTo(nid: nat, t: Type)
      modifies this
      ensures castTo == old(castTo)[nid := t] && typeHint == old(typeHint)
    {
      castTo := castTo[nid := t];
    }

    /** The current `to` field of a cast node: the checker's last assignment, or the parsed
        target type. */
    function CastTarget(e: Node): (t: Type)
      requires e.Cast?
      reads this
      ensures e.nid !in castTo ==> t == e.to
    {
      CastTargetIn(castTo, e)
    }
  }

  // ---------------------------------------------------------------- values

  /** Run-time values. A literal node is itself a value in the source; closures keep the very
      `Environment` object they were created in. `Undefined` is JavaScript's undefined, which
      the evaluator yields for an unbound name or a missing argument. */
  datatype Value =
    | Undefined
    | BoolValue(b: bool)
    | StringValue(s: string)
    | NumberValue(signed: bool, width: Width, n: int)
    | ClosureValue(parameters: seq<Identifier>, body: Node, environment: Environment, typeHint: Option<Type>)

  /** The value a literal node stands for. */
  function LiteralValue(lit: Literal): (v: Value)
    ensures lit.BoolLiteral? ==> v == BoolValue(lit.b)
    ensures lit.StringLiteral? ==> v == StringValue(lit.s)
    ensures lit.IntLiteral? ==> v.NumberValue? && v.signed == lit.signed && v.width == lit.width
    ensures lit.IntLiteral? ==> InRange(v.signed, v.width, v.n)
  {
    match lit
    case IntLiteral(s, w, n) => NumberValue(s, w, Wrap(s, w, n))
    case StringLiteral(s) => StringValue(s)
    case BoolLiteral(b) => BoolValue(b)
  }

  /** The `type` field of a primitive value. */
  function TypeOfValue(v: Value): Type {
    match v
    case BoolValue(_) => BoolType
    case StringValue(_) => StringType
    case NumberValue(s, w, _) => FixedInt(s, w)
    case _ => Type.Undefined
  }

  /** A number value whose payload fits its typed array. */
  predicate WellFormed(v: Value) {
    v.NumberValue? ==> InRange(v.signed, v.width, v.n)
  }

  function Abs(x: int): nat { if x < 0 then -x else x }

  /** `x / y` followed by the integer conversion: the quotient truncated toward zero; a zero
      divisor gives Infinity or NaN, which convert to 0. */
  function TruncatedDivide(x: int, y: int): (q: int)
    ensures y == 0 ==> q == 0
  {
    if y == 0 then 0
    else
      var q := Abs(x) / Abs(y);
      if (x < 0) != (y < 0) then -q else q
  }

  /** The truncated quotient is the largest magnitude whose multiple of the divisor does not
      exceed the dividend's magnitude. */
  lemma TruncatedDivideBounds(x: int, y: int)
    requires y != 0
    ensures var q := TruncatedDivide(x, y); Abs(q) * Abs(y) <= Abs(x) < (Abs(q) + 1) * Abs(y)
    ensures var q := TruncatedDivide(x, y); q != 0 ==> (q < 0 <==> (x < 0) != (y < 0))
  {
    var a, b := Abs(x), Abs(y);
    var q := a / b;
    assert a == q * b + a % b && 0 <= a % b < b;
    assert q >= 0;
    assert (q + 1) * b == q * b + b;
    assert Abs(TruncatedDivide(x, y)) == q;
  }

  function Pow(x: int, k: nat): int {
    if k == 0 then 1 else x * Pow(x, k - 1)
  }

  /** `x ** y` followed by the integer conversion. A negative exponent gives 1 for base 1,
      plus or minus 1 for base -1, Infinity (converted to 0) for base 0, and a fraction below 1
      in magnitude (truncated to 0) for every other base. */
  function Raise(x: int, y: int): int {
    if y >= 0 then Pow(x, y)
    else if x == 1 then 1
    else if x == -1 then (if y % 2 == 0 then 1 else -1)
    else 0
  }

  /** The numeric operator behind `add`, `subtract`, `multiply`, `divide` and `raise`. */
  function Combine(op: BinaryOp, x: int, y: int): int
    requires op.IsArithmetic()
  {
    match op
    case Add => x + y
    case Subtract => x - y
    case Multiply => x * y
    case Divide => TruncatedDivide(x, y)
    case Power => Raise(x, y)
  }

  /** `NumberValue.add` and its siblings (`copyCompute`): combine the first payload elements and
      store the result in a new value of the LEFT operand's class, so the result wraps to the
      left operand's width and signedness. A right operand that is not a number has no
      `number`, which makes the result NaN, stored as 0; an undefined operand has no members. */
  function Arithmetic(op: BinaryOp, left: Value, right: Value): (r: Result<Value>)
    requires op.IsArithmetic()
    ensures r.Ok? <==> left.NumberValue? && !right.Undefined?
    ensures r.Ok? ==> r.value.NumberValue? && r.value.signed == left.signed
                      && r.value.width == left.width && InRange(left.signed, left.width, r.value.n)
    ensures r.Ok? && right.NumberValue? ==>
              r.value.n == Wrap(left.signed, left.width, Combine(op, left.n, right.n))
    ensures r.Ok? && !right.NumberValue? ==> r.value.n == 0
  {
    if !left.NumberValue? || right.Undefined? then Err(TypeError("not a number operation"))
    else if !right.NumberValue? then Ok(NumberValue(left.signed, left.width, 0))
    else Ok(NumberValue(left.signed, left.width, Wrap(left.signed, left.width, Combine(op, left.n, right.n))))
  }

  /** `typeToValue`: the value class of each of the six concrete integer types; any other type
      throws. */
  function TypeToValue(t: Type): (r: Result<(bool, Width)>)
    ensures r.Ok? <==> t.FixedInt?
    ensures r.Ok? ==> r.value == (t.signed, t.width)
  {
    if t.FixedInt? then Ok((t.signed, t.width)) else Err(PlainError("Type-value conversion not implemented"))
  }

  /** `NumberValue.to(t)`: re-store the payload in `t`'s typed array. */
  function NumberTo(v: Value, t: Type): (r: Result<Value>)
    requires v.NumberValue?
    ensures r.Ok? <==> t.FixedInt?
    ensures r.Ok? ==> r.value == NumberValue(t.signed, t.width, Wrap(t.signed, t.width, v.n))
  {
    var kind :- TypeToValue(t);
    Ok(NumberValue(kind.0, kind.1, Wrap(kind.0, kind.1, v.n)))
  }

  /** Converting a number to its own type, or to a type at least as wide and back, gives the
      number back. */
  lemma NumberToRoundTrip(v: Value, wider: Type)
    requires v.NumberValue? && WellFormed(v)
    requires wider.FixedInt? && InRange(wider.signed, wider.width, v.n)
    ensures NumberTo(v, TypeOfValue(v)) == Ok(v)
    ensures NumberTo(NumberTo(v, wider).value, TypeOfValue(v)) == Ok(v)
  {
    WrapIdentity(v.signed, v.width, v.n);
    WrapIdentity(wider.signed, wider.width, v.n);
  }

  /** `StringValue.to(t)`: a string stays itself; `i?` and `u?` become the 32-bit types; an
      integer type parses the text with `parseInt` and stores the result in that type's typed
      array, or raises a RuntimeError when the text holds no number; anything else is a
      TypeError. */
  function StringTo(v: Value, t: Type): (r: Result<Value>)
    requires v.StringValue?
    ensures t == StringType ==> r == Ok(v)
    ensures r.Ok? <==> t == StringType || (IsFixedInteger(t) && ParseInt(v.s).Some?)
    ensures r.Err? && IsFixedInteger(t) ==> r.error.RuntimeError?
    ensures r.Ok? && IsFixedInteger(t) ==>
              var target := if t.GenericInt? then FixedInt(t.signed, W32) else t;
              r.value == NumberValue(target.signed, target.width, Wrap(target.signed, target.width, ParseInt(v.s).value))
  {
    if t == StringType then Ok(v)
    else if IsFixedInteger(t) then
      var target := if t.GenericInt? then FixedInt(t.signed, W32) else t;
      var parsed := ParseInt(v.s);
      if parsed.None? then Err(RuntimeError("Can't cast string to an integer type"))
      else Ok(NumberValue(target.signed, target.width, Wrap(target.signed, target.width, parsed.value)))
    else Err(TypeError("Can't cast string"))
  }

  /** The older `StringValue.to`: only a cast to string is accepted. */
  function StringToOlderCopy(v: Value, t: Type): (r: Result<Value>)
    requires v.StringValue?
    ensures r.Ok? <==> t == StringType
    ensures r.Ok? ==> r.value == v
  {
    if t == StringType then Ok(v) else Err(TypeError("Can't cast string to anything but strings"))
  }

  /** The decimal text of any integer casts back to that integer, wrapped to the target type. */
  lemma StringCastOfDecimalText(n: int, t: Type)
    requires t.FixedInt?
    ensures StringTo(StringValue(DecimalText(n)), t) == Ok(NumberValue(t.signed, t.width, Wrap(t.signed, t.width, n)))
  {
    DecimalTextRoundTrip(n);
  }

  /** `BoolValue.to(t)`: a bool stays itself; anything else is a TypeError. */
  function BoolTo(v: Value, t: Type): (r: Result<Value>)
    requires v.BoolValue?
    ensures r.Ok? <==> t == BoolType
    ensures r.Ok? ==> r.value == v
  {
    if t == BoolType then Ok(v) else Err(TypeError("Can't cast boolean to anything but bools"))
  }

  /** `x == y` on two primitive payloads of different kinds, where the model covers it: a
      closure's payload is null, equal only to another null; a bool compares as 0 or 1 with a
      number; a string compares with the decimal text of a number. */
  function LooselyEqual(left: Value, right: Value): bool
    requires !left.Undefined? && !right.Undefined?
  {
    match (left, right)
    case (BoolValue(a), BoolValue(b)) => a == b
    case (StringValue(a), StringValue(b)) => a == b
    case (NumberValue(_, _, a), NumberValue(_, _, b)) => a == b
    case (ClosureValue(_, _, _, _), ClosureValue(_, _, _, _)) => true
    case (BoolValue(a), NumberValue(_, _, b)) => (if a then 1 else 0) == b
    case (NumberValue(_, _, a), BoolValue(b)) => (if b then 1 else 0) == a
    case (StringValue(a), NumberValue(_, _, b)) => a == DecimalText(b)
    case (NumberValue(_, _, a), StringValue(b)) => b == DecimalText(a)
    case _ => false
  }

  /** `equals`: a number compares its first element with the other operand's `number` (which a
      non-number lacks, so the answer is false); every other value compares its payload with
      the other operand's payload (`Value.equals` of the newer copy). An undefined operand has
      no members. */
  function ValueEquals(left: Value, right: Value): (r: Result<Value>)
    ensures r.Ok? <==> !left.Undefined? && !right.Undefined?
    ensures r.Ok? ==> r.value.BoolValue?
    ensures r.Ok? && left.NumberValue? ==> r.value.b == (right.NumberValue? && right.n == left.n)
    ensures r.Ok? && TypeOfValue(left) == TypeOfValue(right) && !left.ClosureValue? ==>
              r.value.b == (left == right)
  {
    if left.Undefined? || right.Undefined? then Err(TypeError("Cannot read properties of undefined"))
    else if left.NumberValue? then Ok(BoolValue(right.NumberValue? && right.n == left.n))
    else Ok(BoolValue(LooselyEqual(left, right)))
  }

  /** The older `Value.equals` calls a static `compute` that no value class defines, so only
      numbers (which override `equals`) can be compared. */
  function EqualsOlderCopy(left: Value, right: Value): (r: Result<Value>)
    ensures r.Ok? <==> left.NumberValue? && !right.Undefined?
    ensures r.Ok? ==> r == ValueEquals(left, right)
  {
    if left.NumberValue? && !right.Undefined? then Ok(BoolValue(right.NumberValue? && right.n == left.n))
    else Err(TypeError("this.constructor.compute is not a function"))
  }

  /** With the older `Value.equals`, comparing two booleans or two strings fails, although the
      checker accepts it. */
  lemma OlderEqualsRejectsBoolsAndStrings(a: bool, b: bool, s: string, t: string)
    ensures EqualsOlderCopy(BoolValue(a), BoolValue(b)).Err?
    ensures EqualsOlderCopy(StringValue(s), StringValue(t)).Err?
  {
  }

  /** With the newer `Value.equals`, booleans and strings compare by value. */
  lemma EqualsComparesPayloads(a: bool, b: bool, s: string, t: string)
    ensures ValueEquals(BoolValue(a), BoolValue(b)) == Ok(BoolValue(a == b))
    ensures ValueEquals(StringValue(s), StringValue(t)) == Ok(BoolValue(s == t))
  {
  }

  /** `BoolValue.not`. Other values have no `not` method. */
  function NotValue(v: Value): (r: Result<Value>)
    ensures r.Ok? <==> v.BoolValue?
    ensures r.Ok? ==> r.value == BoolValue(!v.b)
  {
    if v.BoolValue? then Ok(BoolValue(!v.b)) else Err(TypeError("not is not a function"))
  }

  /** `BoolValue.and`: `this.value && op.value`; the right operand is not read when the left one
      is false. */
  function AndValue(left: Value, right: Value): (r: Result<Value>)
    ensures left.BoolValue? && right.BoolValue? ==> r == Ok(BoolValue(left.b && right.b))
    ensures left.BoolValue? && !left.b ==> r == Ok(BoolValue(false))
    ensures !left.BoolValue? ==> r.Err?
  {
    if !left.BoolValue? then Err(TypeError("and is not a function"))
    else if !left.b then Ok(BoolValue(false))
    else if right.BoolValue? then Ok(right)
    else Err(TypeError("operand is not a bool"))
  }

  /** `BoolValue.or`: `this.value || op.value`; the right operand is not read when the left one
      is true. */
  function OrValue(left: Value, right: Value): (r: Result<Value>)
    ensures left.BoolValue? && right.BoolValue? ==> r == Ok(BoolValue(left.b || right.b))
    ensures left.BoolValue? && left.b ==> r == Ok(BoolValue(true))
    ensures !left.BoolValue? ==> r.Err?
  {
    if !left.BoolValue? then Err(TypeError("or is not a function"))
    else if left.b then Ok(BoolValue(true))
    else if right.BoolValue? then Ok(right)
    else Err(TypeError("operand is not a bool"))
  }

  /** The text JavaScript's `+` uses for a value's payload when it is appended to a string. */
  function PayloadText(v: Value): string
    requires !v.Undefined?
  {
    match v
    case StringValue(s) => s
    case NumberValue(_, _, n) => DecimalText(n)
    case BoolValue(b) => if b then "true" else "false"
    case ClosureValue(_, _, _, _) => "null"
  }

  /** `StringValue.concatenate`: a new string value of the joined text. */
  function Concatenate(left: Value, right: Value): (r: Result<Value>)
    ensures r.Ok? <==> left.StringValue? && !right.Undefined?
    ensures r.Ok? && right.StringValue? ==> r.value == StringValue(left.s + right.s)
    ensures r.Ok? ==> r.value.StringValue? && |r.value.s| >= |left.s| && r.value.s[..|left.s|] == left.s
  {
    if left.StringValue? && !right.Undefined? then Ok(StringValue(left.s + PayloadText(right)))
    else Err(TypeError("concatenate is not a function"))
  }
}
