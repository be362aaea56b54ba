/** A reference semantics of `interpret` (src/Interpreter.js) for the expressions that make no
    call: those whose `Apply` nodes, if any, sit inside function literals, whose bodies are not
    evaluated until a call. Such an evaluation reads and writes only the bindings of the
    environment it runs in, the entries of the store it is handed and the shared counter, and
    reads the nodes' hints. The environment object itself is a parameter: a function literal
    answers a closure over it. The methods of module `Interpreter` are proved to compute these
    functions whenever the expression is call-free. */
module EvaluatorSemantics {
  import opened Outcomes
  import opened Types
  import opened InterpreterClasses
  import opened EvaluationRules

  /** What a call-free step of the evaluator sees and changes: the bindings of its environment,
      the entries of the store it is handed, and the counter. */
  datatype Machine = Machine(bindings: map<string, nat>, entries: map<nat, Value>, next: nat)

  /** The value or the error of a step, and the machine it leaves. On success the entries are
      those of the store the step answers. */
  datatype Step = Step(result: Result<Value>, machine: Machine)

  /** The values or the error of the arguments of a call, and the machine they leave. */
  datatype Steps = Steps(result: Result<seq<Value>>, machine: Machine)

  /** No call is evaluated: every `Apply` node sits inside the body of a function literal. */
  predicate CallFree(e: Node)
    decreases e
  {
    match e
    case Block(_, content) => forall i :: 0 <= i < |content| ==> CallFree(content[i])
    case Let(_, _, bound) => CallFree(bound)
    case Binary(_, _, left, right) => CallFree(left) && CallFree(right)
    case Not(_, operand) => CallFree(operand)
    case Cast(_, target, _) => CallFree(target)
    case Apply(_, _, _) => false
    case Id(_, _) => true
    case Literal(_, _) => true
    case FunctionExpression(_, _, _) => true
  }

  /** Every argument of a call node is call-free. */
  predicate ArgumentsCallFree(e: Node)
    requires e.Apply?
  {
    forall i :: 0 <= i < |e.args| ==> CallFree(e.args[i])
  }

  /** `store.get(environment.get(name))`: undefined when the name or its location is missing. */
  function Lookup(bindings: map<string, nat>, entries: map<nat, Value>, name: string): (v: Value)
    ensures v != Value.Undefined ==> name in bindings && bindings[name] in entries && entries[bindings[name]] == v
  {
    if name in bindings && bindings[name] in entries then entries[bindings[name]] else Value.Undefined
  }

  /** `interpret(e, env, store)` for a call-free `e`, with the nodes' hints `hints`. */
  function Evaluation(e: Node, env: Environment, hints: map<nat, Type>, m: Machine): (s: Step)
    requires CallFree(e)
    ensures m.next <= s.machine.next
    ensures s.result.Ok? && e.Let? ==> Lookup(s.machine.bindings, s.machine.entries, e.identifier.name) == s.result.value
    decreases e, 1
  {
    match e
    case Block(_, _) => Statements(e, 0, env, hints, m, Value.Undefined)
    case Let(_, identifier, bound) =>
      var b := Evaluation(bound, env, hints, m);
      if b.result.Err? then b
      else
        var l := b.machine.next;
        Step(b.result, Machine(b.machine.bindings[identifier.name := l], b.machine.entries[l := b.result.value], l + 1))
    case Binary(nid, op, left, right) =>
      var l := Evaluation(left, env, hints, m);
      if l.result.Err? then l
      else
        var r := Evaluation(right, env, hints, l.machine);
        if r.result.Err? then r
        else Step(BinaryValue(op, HintIn(hints, nid), l.result.value, r.result.value), r.machine)
    case Not(_, operand) =>
      var o := Evaluation(operand, env, hints, m);
      if o.result.Err? then o else Step(NotValue(o.result.value), o.machine)
    case Literal(_, lit) => Step(Ok(LiteralValue(lit)), m)
    case FunctionExpression(nid, parameters, body) =>
      Step(Ok(ClosureValue(parameters, body, env, HintIn(hints, nid))), m)
    case Id(_, name) => Step(Ok(Lookup(m.bindings, m.entries, name)), m)
    case Cast(nid, target, _) =>
      var t := Evaluation(target, env, hints, m);
      if t.result.Err? then t else Step(CastValue(t.result.value, HintIn(hints, nid)), t.machine)
  }

  /** The statements of a block from the `i`-th, in the block's own environment, each with the
      store the previous one answered; the block answers the last value, undefined when empty. */
  function Statements(e: Node, i: nat, env: Environment, hints: map<nat, Type>, m: Machine, last: Value): (s: Step)
    requires e.Block? && i <= |e.content| && CallFree(e)
    ensures m.next <= s.machine.next
    decreases e, 0, |e.content| - i
  {
    if i == |e.content| then Step(Ok(last), m)
    else
      var s := Evaluation(e.content[i], env, hints, m);
      if s.result.Err? then s else Statements(e, i + 1, env, hints, s.machine, s.result.value)
  }

  /** The arguments of a call from the `i`-th, in the caller's environment, threading the store. */
  function ArgumentValues(e: Node, i: nat, env: Environment, hints: map<nat, Type>, m: Machine, done: seq<Value>): (s: Steps)
    requires e.Apply? && i <= |e.args| && ArgumentsCallFree(e)
    ensures m.next <= s.machine.next
    ensures s.result.Ok? ==> |s.result.value| == |done| + |e.args| - i && s.result.value[..|done|] == done
    decreases |e.args| - i
  {
    if i == |e.args| then Steps(Ok(done), m)
    else
      var a := Evaluation(e.args[i], env, hints, m);
      if a.result.Err? then Steps(Err(a.result.error), a.machine)
      else ArgumentValues(e, i + 1, env, hints, a.machine, done + [a.result.value])
  }

  /** The part of a call before the callee is looked at: the target, then the arguments. */
  function Gathering(e: Node, env: Environment, hints: map<nat, Type>, m: Machine): (s: Steps)
    requires e.Apply? && CallFree(e.target) && ArgumentsCallFree(e)
    ensures m.next <= s.machine.next
    ensures s.result.Ok? ==> |s.result.value| == |e.args| + 1
  {
    var t := Evaluation(e.target, env, hints, m);
    if t.result.Err? then Steps(Err(t.result.error), t.machine)
    else
      var a := ArgumentValues(e, 0, env, hints, t.machine, []);
      if a.result.Err? then a else Steps(Ok([t.result.value] + a.result.value), a.machine)
  }

  // ---------------------------------------------------------------- properties

  /** Every entry sits at a location the counter has issued. */
  ghost predicate Issued(m: Machine) {
    forall l :: l in m.entries ==> l < m.next
  }

  /** Issued, and every bound name sits at a stored location. */
  ghost predicate Coherent(m: Machine) {
    Issued(m) && forall name :: name in m.bindings ==> m.bindings[name] in m.entries
  }

  /** What a successful step keeps: the counter only grows; from issued entries, the store only
      gains entries at issued locations; a coherent machine stays coherent. */
  ghost predicate Keeps(m: Machine, after: Machine) {
    m.next <= after.next
    && (Issued(m) ==> Extends(m.entries, after.entries) && Issued(after))
    && (Coherent(m) ==> Coherent(after))
  }

  /** A successful call-free evaluation keeps its machine: nothing stored is lost or changed,
      and every name it binds can be read back. */
  lemma {:induction false} EvaluationKeeps(e: Node, env: Environment, hints: map<nat, Type>, m: Machine)
    requires CallFree(e)
    ensures Evaluation(e, env, hints, m).result.Ok? ==> Keeps(m, Evaluation(e, env, hints, m).machine)
    decreases e, 1
  {
    match e
    case Block(_, _) => StatementsKeep(e, 0, env, hints, m, Value.Undefined);
    case Let(_, identifier, bound) =>
      EvaluationKeeps(bound, env, hints, m);
      var b := Evaluation(bound, env, hints, m);
      if b.result.Ok? {
        var l := b.machine.next;
        if Issued(m) {
          assert l !in b.machine.entries;
        }
      }
    case Binary(_, _, left, right) =>
      EvaluationKeeps(left, env, hints, m);
      var l := Evaluation(left, env, hints, m);
      if l.result.Ok? {
        EvaluationKeeps(right, env, hints, l.machine);
      }
    case Not(_, operand) => EvaluationKeeps(operand, env, hints, m);
    case Cast(_, target, _) => EvaluationKeeps(target, env, hints, m);
    case Literal(_, _) =>
    case FunctionExpression(_, _, _) =>
    case Id(_, _) =>
  }

  lemma {:induction false} StatementsKeep(e: Node, i: nat, env: Environment, hints: map<nat, Type>, m: Machine, last: Value)
    requires e.Block? && i <= |e.content| && CallFree(e)
    ensures Statements(e, i, env, hints, m, last).result.Ok? ==> Keeps(m, Statements(e, i, env, hints, m, last).machine)
    decreases e, 0, |e.content| - i
  {
    if i < |e.content| {
      EvaluationKeeps(e.content[i], env, hints, m);
      var s := Evaluation(e.content[i], env, hints, m);
      if s.result.Ok? {
        StatementsKeep(e, i + 1, env, hints, s.machine, s.result.value);
      }
    }
  }

  /** A block's statements can be split anywhere: the block of `a + b` evaluates `a` and then
      the statements of `b` from the machine and the value `a` left. The evaluator's blocks run
      in their caller's environment, so a name `a` binds is visible in `b`. */
  lemma BlockSequencing(nid: nat, a: seq<Node>, b: seq<Node>, env: Environment, hints: map<nat, Type>, m: Machine)
    requires CallFree(Block(nid, a + b))
    ensures CallFree(Block(nid, a)) && CallFree(Block(nid, b))
    ensures var s := Evaluation(Block(nid, a), env, hints, m);
            Evaluation(Block(nid, a + b), env, hints, m)
            == if s.result.Err? then s else Statements(Block(nid, b), 0, env, hints, s.machine, s.result.value)
  {
    var whole := Block(nid, a + b);
    assert forall i :: 0 <= i < |a| ==> whole.content[i] == a[i];
    assert forall i :: 0 <= i < |b| ==> whole.content[|a| + i] == b[i];
    StatementsAppend(nid, a, b, 0, env, hints, m, Value.Undefined);
  }

  lemma {:induction false} StatementsAppend(nid: nat, a: seq<Node>, b: seq<Node>, i: nat, env: Environment,
                                            hints: map<nat, Type>, m: Machine, last: Value)
    requires CallFree(Block(nid, a + b)) && CallFree(Block(nid, a)) && CallFree(Block(nid, b)) && i <= |a|
    ensures var s := Statements(Block(nid, a), i, env, hints, m, last);
            Statements(Block(nid, a + b), i, env, hints, m, last)
            == if s.result.Err? then s else Statements(Block(nid, b), 0, env, hints, s.machine, s.result.value)
    decreases |a| - i
  {
    if i == |a| {
      StatementsShift(nid, a, b, 0, env, hints, m, last);
    } else {
      assert (a + b)[i] == a[i];
      var s := Evaluation(a[i], env, hints, m);
      if s.result.Ok? {
        StatementsAppend(nid, a, b, i + 1, env, hints, s.machine, s.result.value);
      }
    }
  }

  lemma {:induction false} StatementsShift(nid: nat, a: seq<Node>, b: seq<Node>, j: nat, env: Environment,
                                           hints: map<nat, Type>, m: Machine, last: Value)
    requires CallFree(Block(nid, a + b)) && CallFree(Block(nid, b)) && j <= |b|
    ensures Statements(Block(nid, a + b), |a| + j, env, hints, m, last) == Statements(Block(nid, b), j, env, hints, m, last)
    decreases |b| - j
  {
    if j < |b| {
      assert (a + b)[|a| + j] == b[j];
      var s := Evaluation(b[j], env, hints, m);
      if s.result.Ok? {
        StatementsShift(nid, a, b, j + 1, env, hints, s.machine, s.result.value);
      }
    }
  }

  /** A name a `let` binds reads back the value it was bound to. */
  lemma LetThenRead(nid: nat, letId: nat, x: Identifier, bound: Node, readId: nat,
                    env: Environment, hints: map<nat, Type>, m: Machine)
    requires CallFree(bound)
    ensures CallFree(Block(nid, [Let(letId, x, bound), Id(readId, x.name)]))
    ensures Evaluation(Block(nid, [Let(letId, x, bound), Id(readId, x.name)]), env, hints, m).result
            == Evaluation(bound, env, hints, m).result
  {
    var block := Block(nid, [Let(letId, x, bound), Id(readId, x.name)]);
    var b := Evaluation(bound, env, hints, m);
    if b.result.Ok? {
      var after := Evaluation(Let(letId, x, bound), env, hints, m).machine;
      assert Lookup(after.bindings, after.entries, x.name) == b.result.value;
      assert Statements(block, 1, env, hints, after, b.result.value).result == b.result;
      assert Evaluation(block, env, hints, m) == Statements(block, 1, env, hints, after, b.result.value);
    } else {
      assert Evaluation(block, env, hints, m) == Evaluation(Let(letId, x, bound), env, hints, m);
    }
  }

  /** Negating twice gives a bool back unchanged; any other value has no `not`. */
  lemma DoubleNegation(outer: nat, inner: nat, x: Node, env: Environment, hints: map<nat, Type>, m: Machine)
    requires CallFree(x) && Evaluation(x, env, hints, m).result.Ok?
    ensures CallFree(Not(outer, Not(inner, x)))
    ensures var v := Evaluation(x, env, hints, m).result.value;
            var n := Evaluation(Not(outer, Not(inner, x)), env, hints, m);
            (v.BoolValue? ==> n == Evaluation(x, env, hints, m))
            && (!v.BoolValue? ==> n.result == Err(TypeError("not is not a function")))
  {
    var s := Evaluation(x, env, hints, m);
    if s.result.value.BoolValue? {
      assert Evaluation(Not(inner, x), env, hints, m) == Step(Ok(BoolValue(!s.result.value.b)), s.machine);
    }
  }
}
