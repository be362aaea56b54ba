/** The value-level steps of the evaluator (src/Interpreter.js): how a binary operator picks
    its result class from the node's hint, how a cast dispatches on the value, and what a call
    binds. Each is a pure function; module `Interpreter` applies them. */
module EvaluationRules {
  import opened Outcomes
  import opened Types
  import opened TypedArrays
  import opened InterpreterClasses
  import opened TypeRules
  import opened NumberParsing

  /** A hint as the evaluator passes it on: a missing hint is null. */
  function HintType(h: Option<Type>): (t: Type)
    ensures t.Undefined? <==> h.None? || h.value.Undefined?
  {
    if h.Some? then h.value else Type.Undefined
  }

  /** A binary node's value from its operands. An integer hint selects the result class before
      the operator is looked at; a generic marker has no class and throws. `==`, `∧` and `∨`
      use the value methods. With a concrete integer hint an arithmetic operator combines the
      operands (wrapping at the left operand's class) and converts the result to the hint;
      without one, `+` concatenates, and the other operators fall through the dispatch, so the
      caller receives undefined where it expects a pair. */
  function BinaryValue(op: BinaryOp, hint: Option<Type>, left: Value, right: Value): (r: Result<Value>)
    ensures hint.Some? && hint.value.GenericInt? ==> r.Err? && r.error.PlainError?
    ensures r.Ok? && op.IsArithmetic() && hint.Some? && hint.value.FixedInt? ==>
              r.value.NumberValue? && TypeOfValue(r.value) == hint.value && WellFormed(r.value)
    ensures op.IsArithmetic() && op != Add && !(hint.Some? && hint.value.FixedInt?) ==> r.Err?
  {
    if hint.Some? && hint.value.GenericInt? then Err(PlainError("Unimplemented fixed integer type"))
    else
      var fixed := hint.Some? && hint.value.FixedInt?;
      match op
      case Equals => ValueEquals(left, right)
      case And => AndValue(left, right)
      case Or => OrValue(left, right)
      case _ =>
        if fixed then
          var combined :- Arithmetic(op, left, right);
          NumberTo(combined, hint.value)
        else if op == Add then Concatenate(left, right)
        else Err(TypeError("undefined is not iterable"))
  }

  /** Arithmetic under an integer hint: the exact result wraps at the LEFT operand's class first
      and is then converted to the hint. */
  lemma ArithmeticWrapsAtLeftWidth(op: BinaryOp, t: Type, l: Value, r: Value)
    requires op.IsArithmetic() && t.FixedInt? && l.NumberValue? && r.NumberValue?
    ensures BinaryValue(op, Some(t), l, r)
            == Ok(NumberValue(t.signed, t.width, Wrap(t.signed, t.width, Wrap(l.signed, l.width, Combine(op, l.n, r.n)))))
  {
  }

  /** When the hint is no wider than the left operand, the first wrap is invisible: the result
      is the exact result wrapped once, to the hint. */
  lemma LeftWrapInvisibleWhenNotWidening(op: BinaryOp, t: Type, l: Value, r: Value)
    requires op.IsArithmetic() && t.FixedInt? && l.NumberValue? && r.NumberValue?
    requires Modulus(t.width) <= Modulus(l.width)
    ensures BinaryValue(op, Some(t), l, r) == Ok(NumberValue(t.signed, t.width, Wrap(t.signed, t.width, Combine(op, l.n, r.n))))
  {
    ArithmeticWrapsAtLeftWidth(op, t, l, r);
    WrapNarrowing(l.signed, l.width, t.signed, t.width, Combine(op, l.n, r.n));
  }

  /** `i8` 100 plus `i16` 100: the checker promotes to `i16`, but the sum wraps in the `i8`
      class first, so the `i16` result is -56 rather than 200. */
  lemma LeftWrapExample()
    ensures BinaryRule(Add, Int8Type, Int16Type, None) == Ok(Int16Type)
    ensures BinaryValue(Add, Some(Int16Type), NumberValue(true, W8, 100), NumberValue(true, W16, 100))
            == Ok(NumberValue(true, W16, -56))
  {
    assert Wrap(true, W8, 200) == -56;
    assert Wrap(true, W16, -56) == -56;
  }

  /** Arithmetic the checker accepts (two integer operands, no earlier hint) yields, under the
      hint the checker writes, a value of exactly the promoted type. */
  lemma ArithmeticPreservation(op: BinaryOp, l: Value, r: Value)
    requires op.IsArithmetic() && l.NumberValue? && r.NumberValue?
    requires BinaryRule(op, TypeOfValue(l), TypeOfValue(r), None).Ok?
    ensures var t := BinaryRule(op, TypeOfValue(l), TypeOfValue(r), None).value;
            BinaryValue(op, Some(t), l, r).Ok? && TypeOfValue(BinaryValue(op, Some(t), l, r).value) == t
            && WellFormed(BinaryValue(op, Some(t), l, r).value)
  {
    var t := BinaryRule(op, TypeOfValue(l), TypeOfValue(r), None).value;
    assert t.FixedInt?;
  }

  /** `∧` and `∨` on two bools, which the checker types bool, give the boolean result. */
  lemma BooleanPreservation(op: BinaryOp, a: bool, b: bool)
    requires op == And || op == Or
    ensures BinaryValue(op, Some(BoolType), BoolValue(a), BoolValue(b))
            == Ok(BoolValue(if op == And then a && b else a || b))
  {
  }

  /** `==` on two primitive values of one type, which the checker types bool, gives a bool that
      says whether they are equal. */
  lemma EqualsPreservation(l: Value, r: Value)
    requires l.BoolValue? || l.StringValue? || l.NumberValue?
    requires TypeOfValue(l) == TypeOfValue(r)
    ensures BinaryValue(Equals, Some(BoolType), l, r) == Ok(BoolValue(l == r))
  {
  }

  /** The checker's string shortcut disagrees with the evaluator: it types `==` on two strings
      as a string, the evaluator answers a bool; it types `-` on two strings as a string, the
      evaluator has no such operation. */
  lemma StringShortcutDisagrees(s: string, t: string)
    ensures BinaryRule(Equals, StringType, StringType, None) == Ok(StringType)
    ensures BinaryValue(Equals, Some(StringType), StringValue(s), StringValue(t)) == Ok(BoolValue(s == t))
    ensures BinaryRule(Subtract, StringType, StringType, None) == Ok(StringType)
    ensures BinaryValue(Subtract, Some(StringType), StringValue(s), StringValue(t)).Err?
  {
  }

  /** Without an integer hint, `+` on two strings concatenates them. */
  lemma AddWithoutHintConcatenates(hint: Option<Type>, s: string, t: string)
    requires !(hint.Some? && IsFixedInteger(hint.value))
    ensures BinaryValue(Add, hint, StringValue(s), StringValue(t)) == Ok(StringValue(s + t))
  {
  }

  /** A cast node's value: `value.to(hint)` for a value; undefined is not a value and throws;
      a closure has no `to` method. */
  function CastValue(v: Value, hint: Option<Type>): (r: Result<Value>)
    ensures v.Undefined? ==> r.Err? && r.error.PlainError?
    ensures v.ClosureValue? ==> r.Err? && r.error.TypeError?
  {
    match v
    case Undefined => Err(PlainError("Not implemented"))
    case ClosureValue(_, _, _, _) => Err(TypeError("value.to is not a function"))
    case NumberValue(_, _, _) => NumberTo(v, HintType(hint))
    case StringValue(_) => StringTo(v, HintType(hint))
    case BoolValue(_) => BoolTo(v, HintType(hint))
  }

  /** A cast the checker accepts gives, under the hint it writes, a value of the resolved type;
      the one failure left is a string holding no number. */
  lemma CastPreservation(v: Value, target: Type)
    requires v.BoolValue? || v.StringValue? || v.NumberValue?
    requires CastRule(TypeOfValue(v), target).Ok?
    ensures var t := CastRule(TypeOfValue(v), target).value;
            var r := CastValue(v, Some(t));
            (r.Ok? ==> TypeOfValue(r.value) == t && WellFormed(r.value))
            && (r.Err? ==> v.StringValue? && r.error.RuntimeError?)
  {
  }

  /** With the older `StringValue.to`, a cast the checker accepts fails at run time: the checker
      types the decimal text of an `i32` number (`"42"`, say) cast to `i32` as `i32`; the older
      conversion refuses every target but string, while the newer one gives the number back. */
  lemma OlderStringCastRefusesAcceptedCast(n: int)
    requires InRange(true, W32, n)
    ensures CastRule(StringType, Int32Type) == Ok(Int32Type)
    ensures StringToOlderCopy(StringValue(DecimalText(n)), Int32Type).Err?
    ensures CastValue(StringValue(DecimalText(n)), Some(Int32Type)) == Ok(NumberValue(true, W32, n))
  {
    DecimalCastToInt32(n);
  }

  /** The newer conversion of the decimal text of an `i32` number to `i32` gives the number. */
  lemma DecimalCastToInt32(n: int)
    requires InRange(true, W32, n)
    ensures CastValue(StringValue(DecimalText(n)), Some(Int32Type)) == Ok(NumberValue(true, W32, n))
  {
    var v := StringValue(DecimalText(n));
    StringCastOfDecimalText(n, Int32Type);
    WrapIdentity(true, W32, n);
    assert HintType(Some(Int32Type)) == Int32Type;
    assert CastValue(v, Some(Int32Type)) == StringTo(v, Int32Type);
  }

  // ---------------------------------------------------------------- what a call binds

  /** The environment a call binds in: a copy of the closure's environment without the
      parameter names, then each parameter bound to a location of its own, from `first`. */
  function CallBindings(base: map<string, nat>, ps: seq<Identifier>, first: nat): map<string, nat> {
    BindAll(base - Names(ps), ps, first)
  }

  /** A call binds every parameter name to a location issued for the call and keeps every other
      name of the closure's environment as it was. */
  lemma CallBindsParameters(base: map<string, nat>, ps: seq<Identifier>, first: nat)
    ensures forall n :: n in CallBindings(base, ps, first) <==> n in base || n in Names(ps)
    ensures forall n :: n in Names(ps) ==> first <= CallBindings(base, ps, first)[n] < first + |ps|
    ensures forall n :: n in base && n !in Names(ps) ==> CallBindings(base, ps, first)[n] == base[n]
  {
    BindAllBinds(base - Names(ps), ps, first);
  }

  /** `parameters.filter(p => !bindings[p.name])`: the parameters whose name is not bound. */
  function UnboundParameters(ps: seq<Identifier>, bindings: map<string, nat>): (rest: seq<Identifier>)
    ensures forall p :: p in rest ==> p in ps && p.name !in bindings
  {
    if |ps| == 0 then []
    else (if ps[0].name in bindings then [] else [ps[0]]) + UnboundParameters(ps[1..], bindings)
  }

  /** Every parameter name is bound before the filter runs, so the closure a partial call
      answers keeps no parameters. */
  lemma PartialClosureKeepsNoParameters(base: map<string, nat>, ps: seq<Identifier>, first: nat)
    ensures UnboundParameters(ps, CallBindings(base, ps, first)) == []
  {
    CallBindsParameters(base, ps, first);
    forall p | p in ps
      ensures p.name in CallBindings(base, ps, first)
    {
      assert p.name in Names(ps);
    }
    AllBoundFiltersAll(ps, CallBindings(base, ps, first));
  }

  lemma {:induction false} AllBoundFiltersAll(ps: seq<Identifier>, bindings: map<string, nat>)
    requires forall p :: p in ps ==> p.name in bindings
    ensures UnboundParameters(ps, bindings) == []
    decreases |ps|
  {
    if |ps| > 0 {
      assert ps[0] in ps;
      AllBoundFiltersAll(ps[1..], bindings);
    }
  }

  /** The value bound to parameter `i`: its argument's value, undefined when there is none. */
  function ArgumentFor(values: seq<Value>, i: nat): Value {
    if i < |values| then values[i] else Value.Undefined
  }

  /** The store after the first `k` parameters' values are written at `first`, `first + 1`, ... */
  function StoredArguments(m: map<nat, Value>, values: seq<Value>, first: nat, k: nat): map<nat, Value>
    decreases k
  {
    if k == 0 then m else StoredArguments(m, values, first, k - 1)[first + k - 1 := ArgumentFor(values, k - 1)]
  }

  /** Writing the arguments at unused locations keeps every earlier entry, adds one entry per
      parameter, and puts each argument's value (undefined for a missing one) at its location. */
  lemma {:induction false} StoredArgumentsWrites(m: map<nat, Value>, values: seq<Value>, first: nat, k: nat)
    requires forall l :: l in m ==> l < first
    ensures Extends(m, StoredArguments(m, values, first, k))
    ensures forall l :: first <= l < first + k ==>
              l in StoredArguments(m, values, first, k) && StoredArguments(m, values, first, k)[l] == ArgumentFor(values, l - first)
    ensures forall l :: l in StoredArguments(m, values, first, k) ==> l in m || first <= l < first + k
    decreases k
  {
    if k > 0 {
      StoredArgumentsWrites(m, values, first, k - 1);
      var before := StoredArguments(m, values, first, k - 1);
      forall l | first <= l < first + k
        ensures l in StoredArguments(m, values, first, k)
                && StoredArguments(m, values, first, k)[l] == ArgumentFor(values, l - first)
      {
        if l < first + k - 1 {
          assert l in before && before[l] == ArgumentFor(values, l - first);
        }
      }
    }
  }
}
