/** The evaluator `interpret` (src/Interpreter.js): a walk over the syntax tree that threads a
    store of values through every step, binds names in mutable environments, and draws every
    new location from the counter the checker also uses. */
module Interpreter {
  import opened Outcomes
  import opened Types
  import opened InterpreterClasses
  import opened EvaluationRules
  import opened EvaluatorSemantics

  type Evaluated = Answer<Value, Value>

  /** The part of the heap a call-free step reads and writes. */
  ghost function MachineOf(env: Environment, store: Store<Value>, counter: LocationCounter): Machine
    reads env, store, counter
  {
    Machine(env.bindings, store.entries, counter.next)
  }

  /** The method's answer is the reference step `s`: the same value or the same error, and on
      success the environment, the answered store and the counter are `s`'s machine. */
  ghost predicate Evaluates(r: Result<Evaluated>, s: Step, env: Environment, counter: LocationCounter)
    reads env, counter, if r.Ok? then {r.value.store} else {}
  {
    (r.Ok? <==> s.result.Ok?)
    && (r.Err? ==> r.error == s.result.error)
    && (r.Ok? ==> r.value.payload == s.result.value && MachineOf(env, r.value.store, counter) == s.machine)
  }

  /** `Evaluates` for the values of a call's arguments. */
  ghost predicate Gathers(r: Result<Answer<seq<Value>, Value>>, s: Steps, env: Environment, counter: LocationCounter)
    reads env, counter, if r.Ok? then {r.value.store} else {}
  {
    (r.Ok? <==> s.result.Ok?)
    && (r.Err? ==> r.error == s.result.error)
    && (r.Ok? ==> r.value.payload == s.result.value && MachineOf(env, r.value.store, counter) == s.machine)
  }

  /** `interpret(expression, environment, store)`. A literal is its own value; an identifier
      reads the store; a function literal closes over the current environment itself, so a later
      `let` in that environment is visible to the closure. The evaluator has no bound on the
      depth of calls; `fuel` stands for the call stack, and a call made without fuel fails with
      `StackExhausted`. */
  method Interpret(e: Node, env: Environment, store: Store<Value>, notes: Annotations,
                   counter: LocationCounter, fuel: nat)
    returns (r: Result<Evaluated>)
    requires IssuedBy(store, counter)
    modifies env, store, counter
    ensures Threaded(store, counter, r)
    ensures CallFree(e) ==> Evaluates(r, Evaluation(e, env, notes.typeHint, old(MachineOf(env, store, counter))), env, counter)
    ensures e.Literal? ==> r == Ok(Answer(LiteralValue(e.literal), store))
    ensures e.Id? ==> unchanged(env, store, counter)
                      && r == Ok(Answer(Lookup(env.bindings, store.entries, e.name), store))
    ensures e.FunctionExpression? ==>
              unchanged(env, store, counter)
              && r == Ok(Answer(ClosureValue(e.parameters, e.body, env, notes.Hint(e.nid)), store))
    decreases fuel, e, 2
  {
    match e
    case Block(_, _) =>
      r := EvalBlock(e, env, store, notes, counter, fuel);
    case Let(_, _, _) =>
      r := EvalLet(e, env, store, notes, counter, fuel);
    case Binary(_, _, _, _) =>
      r := EvalBinary(e, env, store, notes, counter, fuel);
    case Not(_, _) =>
      r := EvalNot(e, env, store, notes, counter, fuel);
    case Literal(_, lit) =>
      r := Ok(Answer(LiteralValue(lit), store));
    case FunctionExpression(nid, parameters, body) =>
      r := Ok(Answer(ClosureValue(parameters, body, env, notes.Hint(nid)), store));
    case Apply(_, _, _) =>
      ghost var callee, frame;
      r, callee, frame := EvalApply(e, env, store, notes, counter, fuel);
    case Id(_, name) =>
      r := Ok(Answer(Lookup(env.bindings, store.entries, name), store));
    case Cast(_, _, _) =>
      r := EvalCast(e, env, store, notes, counter, fuel);
  }

  /** A block evaluates its statements in order in the same environment, each with the store
      the previous one answered, and answers the last value; an empty block answers undefined
      and the store it was handed. */
  method EvalBlock(e: Node, env: Environment, store: Store<Value>, notes: Annotations,
                   counter: LocationCounter, fuel: nat)
    returns (r: Result<Evaluated>)
    requires e.Block? && IssuedBy(store, counter)
    modifies env, store, counter
    ensures Threaded(store, counter, r)
    ensures r.Ok? && |e.content| == 0 ==> r.value == Answer(Value.Undefined, store)
    ensures CallFree(e) ==>
              Evaluates(r, Statements(e, 0, env, notes.typeHint, old(MachineOf(env, store, counter)), Value.Undefined), env, counter)
    decreases fuel, e, 1
  {
    ghost var free := CallFree(e);
    ghost var spec := if free then Statements(e, 0, env, notes.typeHint, MachineOf(env, store, counter), Value.Undefined)
                      else Step(Ok(Value.Undefined), MachineOf(env, store, counter));
    var result := Value.Undefined;
    var s := store;
    var i := 0;
    while i < |e.content|
      invariant 0 <= i <= |e.content|
      invariant i == 0 ==> result == Value.Undefined && s == store
      invariant free ==> Statements(e, i, env, notes.typeHint, MachineOf(env, s, counter), result) == spec
      invariant s == store || fresh(s)
      invariant old(counter.next) <= counter.next
      invariant Extends(old(store.entries), store.entries) && IssuedBy(store, counter)
      invariant Extends(old(store.entries), s.entries) && IssuedBy(s, counter)
    {
      ghost var before := s.entries;
      var step := Interpret(e.content[i], env, s, notes, counter, fuel);
      if step.Err? {
        return Err(step.error);
      }
      ExtendsTransitive(old(store.entries), before, step.value.store.entries);
      result, s := step.value.payload, step.value.store;
      i := i + 1;
    }
    r := Ok(Answer(result, s));
  }

  /** `let`: evaluate the bound expression, copy the answered store, bind the name in the
      current environment to a fresh location and store the value there. A function literal
      bound this way closes over that same environment, so its body sees its own name. */
  method EvalLet(e: Node, env: Environment, store: Store<Value>, notes: Annotations,
                 counter: LocationCounter, fuel: nat)
    returns (r: Result<Evaluated>)
    requires e.Let? && IssuedBy(store, counter)
    modifies env, store, counter
    ensures Threaded(store, counter, r)
    ensures r.Ok? ==> fresh(r.value.store) && e.identifier.name in env.bindings
                      && Lookup(env.bindings, r.value.store.entries, e.identifier.name) == r.value.payload
                      && old(counter.next) <= env.bindings[e.identifier.name]
    ensures r.Ok? && e.bound.FunctionExpression? ==>
              r.value.payload == ClosureValue(e.bound.parameters, e.bound.body, env, notes.Hint(e.bound.nid))
    ensures CallFree(e) ==> Evaluates(r, Evaluation(e, env, notes.typeHint, old(MachineOf(env, store, counter))), env, counter)
    decreases fuel, e, 1
  {
    var bound := Interpret(e.bound, env, store, notes, counter, fuel);
    if bound.Err? {
      return Err(bound.error);
    }
    var newStore := new Store<Value>.Extend(bound.value.store);
    var next := counter.NextLocation();
    var location := env.Set(e.identifier.name, next);
    var _ := newStore.Set(location, bound.value.payload);
    r := Ok(Answer(bound.value.payload, newStore));
  }

  /** A binary operator evaluates the left operand with the handed store and the right one
      with the store the left answered, then combines the two under the node's hint. */
  method EvalBinary(e: Node, env: Environment, store: Store<Value>, notes: Annotations,
                    counter: LocationCounter, fuel: nat)
    returns (r: Result<Evaluated>)
    requires e.Binary? && IssuedBy(store, counter)
    modifies env, store, counter
    ensures Threaded(store, counter, r)
    ensures CallFree(e) ==> Evaluates(r, Evaluation(e, env, notes.typeHint, old(MachineOf(env, store, counter))), env, counter)
    decreases fuel, e, 1
  {
    var left := Interpret(e.left, env, store, notes, counter, fuel);
    if left.Err? {
      return Err(left.error);
    }
    ghost var storeAfterLeft := store.entries;
    ghost var leftEntries := left.value.store.entries;
    var right := Interpret(e.right, env, left.value.store, notes, counter, fuel);
    if left.value.store == store {
      ExtendsTransitive(old(store.entries), storeAfterLeft, store.entries);
    }
    if right.Err? {
      return Err(right.error);
    }
    ExtendsTransitive(old(store.entries), leftEntries, right.value.store.entries);
    var v := BinaryValue(e.op, notes.Hint(e.nid), left.value.payload, right.value.payload);
    if v.Err? {
      return Err(v.error);
    }
    r := Ok(Answer(v.value, right.value.store));
  }

  /** `¬` evaluates its operand and negates it; only a bool has `not`. */
  method EvalNot(e: Node, env: Environment, store: Store<Value>, notes: Annotations,
                 counter: LocationCounter, fuel: nat)
    returns (r: Result<Evaluated>)
    requires e.Not? && IssuedBy(store, counter)
    modifies env, store, counter
    ensures Threaded(store, counter, r)
    ensures CallFree(e) ==> Evaluates(r, Evaluation(e, env, notes.typeHint, old(MachineOf(env, store, counter))), env, counter)
    decreases fuel, e, 1
  {
    var inner := Interpret(e.operand, env, store, notes, counter, fuel);
    if inner.Err? {
      return Err(inner.error);
    }
    var v := NotValue(inner.value.payload);
    if v.Err? {
      return Err(v.error);
    }
    r := Ok(Answer(v.value, inner.value.store));
  }

  /** A cast evaluates its target and converts the value to the node's hint (the type the
      checker resolved), not to the type written in the source. */
  method EvalCast(e: Node, env: Environment, store: Store<Value>, notes: Annotations,
                  counter: LocationCounter, fuel: nat)
    returns (r: Result<Evaluated>)
    requires e.Cast? && IssuedBy(store, counter)
    modifies env, store, counter
    ensures Threaded(store, counter, r)
    ensures CallFree(e) ==> Evaluates(r, Evaluation(e, env, notes.typeHint, old(MachineOf(env, store, counter))), env, counter)
    decreases fuel, e, 1
  {
    var target := Interpret(e.target, env, store, notes, counter, fuel);
    if target.Err? {
      return Err(target.error);
    }
    var v := CastValue(target.value.payload, notes.Hint(e.nid));
    if v.Err? {
      return Err(v.error);
    }
    r := Ok(Answer(v.value, target.value.store));
  }

  /** A call evaluates the target, then the arguments in order, threading the store; only then
      does it look at the target, which must be a closure. The parameters are bound in a copy of
      the closure's environment. A call with fewer arguments than parameters answers a new
      closure over that copy, carrying the call node's hint; the parameters it keeps are those
      still unbound after binding, which is none. Otherwise the body is evaluated in the copy
      with the argument store. `callee` is the target's value once the arguments are evaluated;
      when the target and the arguments are call-free it is the reference one. `frame` is the
      environment the call binds the parameters in. */
  method EvalApply(e: Node, env: Environment, store: Store<Value>, notes: Annotations,
                   counter: LocationCounter, fuel: nat)
    returns (r: Result<Evaluated>, ghost callee: Option<Value>, ghost frame: Environment)
    requires e.Apply? && IssuedBy(store, counter)
    modifies env, store, counter
    ensures Threaded(store, counter, r)
    ensures callee.None? ==> r.Err?
    ensures callee.Some? && !callee.value.ClosureValue? ==> r == Err(TypeError("parameters is not iterable"))
    ensures callee.Some? && callee.value.ClosureValue? && |e.args| < |callee.value.parameters| ==>
              r.Ok? && r.value.payload.ClosureValue? && r.value.payload.parameters == []
              && r.value.payload.body == callee.value.body && r.value.payload.typeHint == notes.Hint(e.nid)
              && fresh(r.value.payload.environment)
              && (forall p :: p in callee.value.parameters ==> p.name in r.value.payload.environment.bindings)
    ensures callee.Some? && callee.value.ClosureValue? && |e.args| >= |callee.value.parameters| && fuel == 0 ==>
              r == Err(StackExhausted)
    ensures CallFree(e.target) && ArgumentsCallFree(e) ==>
              var g := Gathering(e, env, notes.typeHint, old(MachineOf(env, store, counter)));
              (g.result.Err? ==> r == Err(g.result.error))
              && (g.result.Ok? ==> callee == Some(g.result.value[0]))
              && (g.result.Ok? && g.result.value[0].ClosureValue? ==>
                    var closure, first := g.result.value[0], g.machine.next;
                    var bindings := CallBindings(closure.environment.bindings, closure.parameters, first);
                    var entries := StoredArguments(g.machine.entries, g.result.value[1..], first, |closure.parameters|);
                    (closure.environment == env ==> closure.environment.bindings == g.machine.bindings)
                    && (|e.args| < |closure.parameters| ==>
                          r.Ok? && r.value.payload.environment.bindings == bindings && r.value.store.entries == entries)
                    && (|e.args| >= |closure.parameters| && fuel > 0 && CallFree(closure.body) ==>
                          fresh(frame)
                          && Evaluates(r, Evaluation(closure.body, frame, notes.typeHint,
                                                     Machine(bindings, entries, first + |closure.parameters|)),
                                       frame, counter)))
    decreases fuel, e, 1
  {
    var gathered := GatherCall(e, env, store, notes, counter, fuel);
    if gathered.Err? {
      return Err(gathered.error), None, env;
    }
    var closure, values := gathered.value.payload[0], gathered.value.payload[1..];
    callee := Some(closure);
    if !closure.ClosureValue? {
      return Err(TypeError("parameters is not iterable")), callee, env;
    }
    ghost var argEntries := gathered.value.store.entries;
    r, frame := Call(e, closure, values, gathered.value.store, notes, counter, fuel);
    if r.Ok? {
      ExtendsTransitive(old(store.entries), argEntries, r.value.store.entries);
    }
  }

  /** The first part of a call: the target's value followed by the arguments' values. */
  method GatherCall(e: Node, env: Environment, store: Store<Value>, notes: Annotations,
                    counter: LocationCounter, fuel: nat)
    returns (r: Result<Answer<seq<Value>, Value>>)
    requires e.Apply? && IssuedBy(store, counter)
    modifies env, store, counter
    ensures Threaded(store, counter, r)
    ensures r.Ok? ==> |r.value.payload| == |e.args| + 1
    ensures CallFree(e.target) && ArgumentsCallFree(e) ==>
              Gathers(r, Gathering(e, env, notes.typeHint, old(MachineOf(env, store, counter))), env, counter)
    decreases fuel, e, 0, 1
  {
    var target := Interpret(e.target, env, store, notes, counter, fuel);
    if target.Err? {
      return Err(target.error);
    }
    ghost var storeAfterTarget := store.entries;
    ghost var targetEntries := target.value.store.entries;
    var evaluated := EvalArguments(e, env, target.value.store, notes, counter, fuel);
    if target.value.store == store {
      ExtendsTransitive(old(store.entries), storeAfterTarget, store.entries);
    }
    if evaluated.Err? {
      return Err(evaluated.error);
    }
    ExtendsTransitive(old(store.entries), targetEntries, evaluated.value.store.entries);
    r := Ok(Answer([target.value.payload] + evaluated.value.payload, evaluated.value.store));
  }

  /** The part of a call after its arguments are evaluated: bind the parameters in `frame`, a
      new environment, then answer a closure over it for a partial call or evaluate the body
      in it. */
  method Call(e: Node, closure: Value, values: seq<Value>, argStore: Store<Value>, notes: Annotations,
              counter: LocationCounter, fuel: nat)
    returns (r: Result<Evaluated>, ghost frame: Environment)
    requires e.Apply? && closure.ClosureValue? && |values| == |e.args| && IssuedBy(argStore, counter)
    modifies argStore, counter
    ensures Threaded(argStore, counter, r)
    ensures fresh(frame)
    ensures |e.args| < |closure.parameters| ==>
              r.Ok? && r.value.payload == ClosureValue([], closure.body, frame, notes.Hint(e.nid))
              && r.value.store == argStore
              && frame.bindings == CallBindings(old(closure.environment.bindings), closure.parameters, old(counter.next))
              && argStore.entries == StoredArguments(old(argStore.entries), values, old(counter.next), |closure.parameters|)
              && (forall p :: p in closure.parameters ==> p.name in frame.bindings)
    ensures |e.args| >= |closure.parameters| && fuel == 0 ==> r == Err(StackExhausted)
    ensures |e.args| >= |closure.parameters| && fuel > 0 && CallFree(closure.body) ==>
              var first := old(counter.next);
              Evaluates(r, Evaluation(closure.body, frame, notes.typeHint,
                                      Machine(CallBindings(old(closure.environment.bindings), closure.parameters, first),
                                              StoredArguments(old(argStore.entries), values, first, |closure.parameters|),
                                              first + |closure.parameters|)), frame, counter)
    decreases fuel, e, 0
  {
    ghost var first := counter.next;
    var newEnv := BindParameters(closure.environment, closure.parameters, values, argStore, counter);
    frame := newEnv;
    StoredArgumentsWrites(old(argStore.entries), values, first, |closure.parameters|);
    if |e.args| < |closure.parameters| {
      PartialClosureKeepsNoParameters(closure.environment.bindings, closure.parameters, first);
      CallBindsParameters(closure.environment.bindings, closure.parameters, first);
      var remaining := UnboundParameters(closure.parameters, newEnv.bindings);
      return Ok(Answer(ClosureValue(remaining, closure.body, newEnv, notes.Hint(e.nid)), argStore)), frame;
    }
    if fuel == 0 {
      return Err(StackExhausted), frame;
    }
    ghost var beforeBody := argStore.entries;
    r := Interpret(closure.body, newEnv, argStore, notes, counter, fuel - 1);
    if r.Ok? {
      ExtendsTransitive(old(argStore.entries), beforeBody, r.value.store.entries);
    }
  }

  /** Evaluates the arguments of a call in order, in the caller's environment, threading the
      store, and answers their values. */
  method EvalArguments(e: Node, env: Environment, store: Store<Value>, notes: Annotations,
                       counter: LocationCounter, fuel: nat)
    returns (r: Result<Answer<seq<Value>, Value>>)
    requires e.Apply? && IssuedBy(store, counter)
    modifies env, store, counter
    ensures Threaded(store, counter, r)
    ensures r.Ok? ==> |r.value.payload| == |e.args|
    ensures ArgumentsCallFree(e) ==>
              Gathers(r, ArgumentValues(e, 0, env, notes.typeHint, old(MachineOf(env, store, counter)), []), env, counter)
    decreases fuel, e, 0, 0
  {
    ghost var free := ArgumentsCallFree(e);
    ghost var spec := if free then ArgumentValues(e, 0, env, notes.typeHint, MachineOf(env, store, counter), [])
                      else Steps(Ok([]), MachineOf(env, store, counter));
    var values := [];
    var s := store;
    var i := 0;
    while i < |e.args|
      invariant 0 <= i <= |e.args| && |values| == i
      invariant free ==> ArgumentValues(e, i, env, notes.typeHint, MachineOf(env, s, counter), values) == spec
      invariant s == store || fresh(s)
      invariant old(counter.next) <= counter.next
      invariant Extends(old(store.entries), store.entries) && IssuedBy(store, counter)
      invariant Extends(old(store.entries), s.entries) && IssuedBy(s, counter)
    {
      ghost var before := s.entries;
      var arg := Interpret(e.args[i], env, s, notes, counter, fuel);
      if arg.Err? {
        return Err(arg.error);
      }
      ExtendsTransitive(old(store.entries), before, arg.value.store.entries);
      values, s := values + [arg.value.payload], arg.value.store;
      i := i + 1;
    }
    r := Ok(Answer(values, s));
  }

  /** The binding step of a call: copy the closure's environment, drop the parameter names
      from the copy, then bind each parameter to the next location and write its argument's
      value (undefined when the call has fewer arguments) into the argument store there. */
  method BindParameters(closureEnv: Environment, parameters: seq<Identifier>, values: seq<Value>,
                        argStore: Store<Value>, counter: LocationCounter)
    returns (newEnv: Environment)
    modifies argStore, counter
    ensures fresh(newEnv)
    ensures newEnv.bindings == CallBindings(closureEnv.bindings, parameters, old(counter.next))
    ensures counter.next == old(counter.next) + |parameters|
    ensures argStore.entries == StoredArguments(old(argStore.entries), values, old(counter.next), |parameters|)
  {
    newEnv := new Environment.Extend(closureEnv);
    for i := 0 to |parameters|
      invariant newEnv.bindings == closureEnv.bindings - Names(parameters[..i])
      invariant counter.next == old(counter.next) && argStore.entries == old(argStore.entries)
    {
      assert Names(parameters[..i + 1]) == Names(parameters[..i]) + {parameters[i].name} by {
        assert parameters[..i + 1] == parameters[..i] + [parameters[i]];
      }
      if parameters[i].name in newEnv.bindings {
        newEnv.Delete(parameters[i].name);
      }
    }
    assert parameters[..|parameters|] == parameters;
    ghost var base := newEnv.bindings;
    ghost var first := counter.next;
    for i := 0 to |parameters|
      invariant newEnv.bindings == BindAll(base, parameters[..i], first)
      invariant counter.next == first + i
      invariant argStore.entries == StoredArguments(old(argStore.entries), values, first, i)
    {
      assert parameters[..i + 1][..i] == parameters[..i];
      var location := counter.NextLocation();
      var _ := newEnv.Set(parameters[i].name, location);
      var _ := argStore.Set(location, ArgumentFor(values, i));
    }
    assert parameters[..|parameters|] == parameters;
  }
}
