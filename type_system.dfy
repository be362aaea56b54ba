/** `getTypeOf` (src/TypeSystem.js): the checker's walk over the tree. Each node kind answers
    a type and the store the next sibling is checked with; on the way it writes node hints
    (`infer`), binds names in the environment it is handed, adds entries to stores, and
    reassigns the `to` field of cast nodes. Thrown errors are `Err` results. */
module TypeSystem {
  import opened Outcomes
  import opened Types
  import opened InterpreterClasses
  import opened TypeRules
  import opened CheckerSemantics

  /** The `[type, store]` pair the checker answers. */
  type Typed = Answer<Type, Type>

  /** The checker's state as `CheckerSemantics` sees it. */
  ghost function StateOf(env: Environment, store: Store<Type>, notes: Annotations, counter: LocationCounter): Checker
    reads env, store, notes, counter
  {
    Checker(env.bindings, store.entries, counter.next, notes.typeHint, notes.castTo)
  }

  /** The store `s`, seen from the store `handed`: `None` when it is that store. */
  ghost function Cur(s: Store<Type>, handed: Store<Type>): Option<map<nat, Type>>
    reads s
  {
    if s == handed then None else Some(s.entries)
  }

  /** A step answered `r` and left the heap as the reference outcome `o` says. */
  ghost predicate Computes(r: Result<Typed>, o: Outcome, env: Environment, store: Store<Type>,
                           notes: Annotations, counter: LocationCounter)
    reads env, store, notes, counter, if r.Ok? then {r.value.store} else {}
  {
    StateOf(env, store, notes, counter) == o.state
    && (r.Ok? <==> o.result.Ok?)
    && (r.Err? ==> r.error == o.result.error)
    && (r.Ok? ==> r.value.payload == o.result.value.payload && Cur(r.value.store, store) == o.result.value.answered)
  }

  /** `getTypeOf(expression, environment, store)`. */
  method TypeOf(e: Node, env: Environment, store: Store<Type>, notes: Annotations, counter: LocationCounter)
    returns (r: Result<Typed>)
    requires IssuedBy(store, counter)
    modifies env, store, notes, counter
    ensures Threaded(store, counter, r)
    ensures Computes(r, Typing(e, old(StateOf(env, store, notes, counter))), env, store, notes, counter)
    ensures e.Literal? ==> r == Ok(Answer(LiteralType(e.literal), store))
                           && notes.typeHint == old(notes.typeHint)[e.nid := LiteralType(e.literal)]
    ensures e.Id? ==> (r.Err? <==> e.name !in old(env.bindings))
    ensures e.Id? && r.Err? ==> r.error == ReferenceError(e.name)
    ensures e.Id? && r.Ok? ==> r.value.store == store
    ensures e.FunctionExpression? ==> unchanged(env)
    ensures e.FunctionExpression? && r.Ok? ==>
              r.value.store == store && r.value.payload.FunctionType? && r.value.payload.domain == FunctionDomain(e.parameters)
    decreases e, 4
  {
    match e
    case Block(_, _) =>
      r := TypeOfBlock(e, env, store, notes, counter);
    case Let(_, _, _) =>
      r := TypeOfLet(e, env, store, notes, counter);
    case Binary(_, _, _, _) =>
      r := TypeOfBinary(e, env, store, notes, counter);
    case Not(_, _) =>
      r := TypeOfNot(e, env, store, notes, counter);
    case Literal(nid, lit) =>
      notes.Infer(nid, LiteralType(lit));
      r := Ok(Answer(LiteralType(lit), store));
    case FunctionExpression(_, _, _) =>
      r := TypeOfFunction(e, env, store, notes, counter);
    case Apply(_, _, _) =>
      r := TypeOfApply(e, env, store, notes, counter);
    case Id(nid, name) =>
      ghost var st := StateOf(env, store, notes, counter);
      r := TypeOfId(e, env, store, notes);
      assert StateOf(env, store, notes, counter) == TypingId(e, st).state;
    case Cast(_, _, _) =>
      r := TypeOfCast(e, env, store, notes, counter);
  }

  /** A block checks its statements in order, each with the store the previous one answered,
      and answers the last statement's pair; an empty block answers undefined and the store it
      was handed. */
  method TypeOfBlock(e: Node, env: Environment, store: Store<Type>, notes: Annotations, counter: LocationCounter)
    returns (r: Result<Typed>)
    requires e.Block? && IssuedBy(store, counter)
    modifies env, store, notes, counter
    ensures Threaded(store, counter, r)
    ensures Computes(r, TypingStatements(e, 0, old(StateOf(env, store, notes, counter)), None, Type.Undefined), env, store, notes, counter)
    decreases e, 3
  {
    ghost var spec := TypingStatements(e, 0, StateOf(env, store, notes, counter), None, Type.Undefined);
    var result := Type.Undefined;
    var s := store;
    var i := 0;
    while i < |e.content|
      invariant 0 <= i <= |e.content|
      invariant TypingStatements(e, i, StateOf(env, store, notes, counter), Cur(s, store), result) == spec
      invariant s == store || fresh(s)
      invariant old(counter.next) <= counter.next
      invariant Extends(old(store.entries), store.entries) && IssuedBy(store, counter)
      invariant Extends(old(store.entries), s.entries) && IssuedBy(s, counter)
    {
      ghost var before := s.entries;
      ghost var sb := StateOf(env, store, notes, counter);
      assert StateOf(env, s, notes, counter) == sb.(entries := Base(sb, Cur(s, store)));
      var step := TypeOf(e.content[i], env, s, notes, counter);
      if step.Err? {
        return Err(step.error);
      }
      ExtendsTransitive(old(store.entries), before, step.value.store.entries);
      result, s := step.value.payload, step.value.store;
      i := i + 1;
    }
    r := Ok(Answer(result, s));
  }

  /** `let`: check the bound expression; on success hint the identifier and the node, copy the
      answered store, bind the name in the current environment to a fresh location and store
      the type there. When the check fails with a ReferenceError for the name being bound, a
      function literal is checked once more after the name has been bound to a fresh location
      of the handed store holding the placeholder `RecursiveType(identifier)`; a
      self-reference to anything else is a ReferenceError; every other failure passes on. */
  method TypeOfLet(e: Node, env: Environment, store: Store<Type>, notes: Annotations, counter: LocationCounter)
    returns (r: Result<Typed>)
    requires e.Let? && IssuedBy(store, counter)
    modifies env, store, notes, counter
    ensures Threaded(store, counter, r)
    ensures Computes(r, TypingLet(e, old(StateOf(env, store, notes, counter))), env, store, notes, counter)
    ensures r.Ok? ==> e.identifier.name in env.bindings
                      && old(counter.next) <= env.bindings[e.identifier.name] < counter.next
                      && env.bindings[e.identifier.name] in r.value.store.entries
                      && r.value.store.entries[env.bindings[e.identifier.name]] in {r.value.payload, RecursiveType(e.identifier)}
    ensures r.Ok? ==> e.nid in notes.typeHint && notes.typeHint[e.nid] == r.value.payload
    ensures r.Ok? ==> e.identifier.nid in notes.typeHint && notes.typeHint[e.identifier.nid] == r.value.payload
    decreases e, 3
  {
    var name := e.identifier.name;
    var first := TypeOf(e.bound, env, store, notes, counter);
    if first.Ok? {
      var t := first.value.payload;
      notes.Infer(e.identifier.nid, t);
      notes.Infer(e.nid, t);
      var newStore := new Store<Type>.Extend(first.value.store);
      var next := counter.NextLocation();
      var location := env.Set(name, next);
      var _ := newStore.Set(location, t);
      return Ok(Answer(t, newStore));
    }
    if first.error != ReferenceError(name) {
      return Err(first.error);
    }
    if !e.bound.FunctionExpression? {
      return Err(ReferenceError(name));
    }
    r := RetryLet(e, env, store, notes, counter);
  }

  /** The second attempt of `let` for a function literal that refers to its own name: bind the
      name to a new location holding a `RecursiveType` placeholder in the handed store, check the
      literal again, and hint the name and the node with its type. */
  method RetryLet(e: Node, env: Environment, store: Store<Type>, notes: Annotations, counter: LocationCounter)
    returns (r: Result<Typed>)
    requires e.Let? && e.bound.FunctionExpression? && IssuedBy(store, counter)
    modifies env, store, notes, counter
    ensures Threaded(store, counter, r)
    ensures Computes(r, TypingLetRetry(e, old(StateOf(env, store, notes, counter))), env, store, notes, counter)
    ensures r.Ok? ==> e.identifier.name in env.bindings
                      && old(counter.next) <= env.bindings[e.identifier.name] < counter.next
                      && env.bindings[e.identifier.name] in r.value.store.entries
                      && r.value.store.entries[env.bindings[e.identifier.name]] in {r.value.payload, RecursiveType(e.identifier)}
    ensures r.Ok? ==> e.nid in notes.typeHint && notes.typeHint[e.nid] == r.value.payload
    ensures r.Ok? ==> e.identifier.nid in notes.typeHint && notes.typeHint[e.identifier.nid] == r.value.payload
    decreases e, 2
  {
    var next := counter.NextLocation();
    var location := env.Set(e.identifier.name, next);
    ghost var withPlaceholder := store.entries[location := RecursiveType(e.identifier)];
    var _ := store.Set(location, RecursiveType(e.identifier));
    var retry := TypeOf(e.bound, env, store, notes, counter);
    if retry.Err? {
      return Err(retry.error);
    }
    ExtendsTransitive(old(store.entries), withPlaceholder, store.entries);
    notes.Infer(e.identifier.nid, retry.value.payload);
    notes.Infer(e.nid, retry.value.payload);
    r := Ok(Answer(retry.value.payload, retry.value.store));
  }


  /** A binary operator checks the left operand with the handed store and the right one with
      the store the left answered, then applies the operator rule with the node's current
      hint, writing the hint where the rule does. */
  method TypeOfBinary(e: Node, env: Environment, store: Store<Type>, notes: Annotations, counter: LocationCounter)
    returns (r: Result<Typed>)
    requires e.Binary? && IssuedBy(store, counter)
    modifies env, store, notes, counter
    ensures Threaded(store, counter, r)
    ensures Computes(r, TypingBinary(e, old(StateOf(env, store, notes, counter))), env, store, notes, counter)
    ensures r.Ok? && r.value.payload != AnyType ==> notes.Hint(e.nid) == Some(r.value.payload)
    decreases e, 3
  {
    ghost var leftSpec := Typing(e.left, StateOf(env, store, notes, counter));
    var left := TypeOf(e.left, env, store, notes, counter);
    if left.Err? {
      return Err(left.error);
    }
    ghost var storeAfterLeft := store.entries;
    ghost var leftEntries := left.value.store.entries;
    ghost var sl := StateOf(env, store, notes, counter);
    ghost var rightSpec := TypingOn(e.right, leftSpec.state, leftSpec.result.value.answered);
    assert StateOf(env, left.value.store, notes, counter) == sl.(entries := Base(sl, Cur(left.value.store, store)));
    var right := TypeOf(e.right, env, left.value.store, notes, counter);
    if left.value.store == store {
      ExtendsTransitive(old(store.entries), storeAfterLeft, store.entries);
    }
    assert StateOf(env, store, notes, counter) == rightSpec.state;
    if right.Err? {
      return Err(right.error);
    }
    ExtendsTransitive(old(store.entries), leftEntries, right.value.store.entries);
    var hint := notes.Hint(e.nid);
    var rule := BinaryRule(e.op, left.value.payload, right.value.payload, hint);
    if rule.Err? {
      return Err(rule.error);
    }
    if rule.value != AnyType {
      BinaryRuleLeavesHint(e.op, left.value.payload, right.value.payload, hint);
    }
    if BinaryWritesHint(e.op, left.value.payload, right.value.payload, hint) {
      notes.Infer(e.nid, rule.value);
    }
    r := Ok(Answer(rule.value, right.value.store));
  }

  /** `¬` checks its operand and needs it to be a bool. It writes no hint. */
  method TypeOfNot(e: Node, env: Environment, store: Store<Type>, notes: Annotations, counter: LocationCounter)
    returns (r: Result<Typed>)
    requires e.Not? && IssuedBy(store, counter)
    modifies env, store, notes, counter
    ensures Threaded(store, counter, r)
    ensures Computes(r, TypingNot(e, old(StateOf(env, store, notes, counter))), env, store, notes, counter)
    ensures r.Ok? ==> r.value.payload == BoolType
    decreases e, 3
  {
    var o := TypeOf(e.operand, env, store, notes, counter);
    if o.Err? {
      return Err(o.error);
    }
    var rule := NotRule(o.value.payload);
    if rule.Err? {
      return Err(rule.error);
    }
    r := Ok(Answer(rule.value, o.value.store));
  }

  /** A function literal: its domain is `[void]` or one `any` per parameter; each parameter is
      bound, in a copy of the environment, to a fresh location of the handed store holding
      `any`; the body is checked in that copy with the handed store, and its type is the image.
      The store answered is the handed one, and the current environment is left alone. */
  method TypeOfFunction(e: Node, env: Environment, store: Store<Type>, notes: Annotations, counter: LocationCounter)
    returns (r: Result<Typed>)
    requires e.FunctionExpression? && IssuedBy(store, counter)
    modifies env, store, notes, counter
    ensures Threaded(store, counter, r)
    ensures Computes(r, TypingFunction(e, old(StateOf(env, store, notes, counter))), env, store, notes, counter)
    ensures unchanged(env)
    ensures r.Ok? ==> r.value.store == store && r.value.payload.FunctionType?
                      && r.value.payload.domain == FunctionDomain(e.parameters)
    ensures r.Ok? ==> notes.Hint(e.nid) == Some(r.value.payload)
    decreases e, 3
  {
    ghost var first := counter.next;
    var newEnv := BindParameterTypes(e.parameters, env, store, counter);
    FilledExtends(old(store.entries), first, |e.parameters|, AnyType);
    ghost var beforeBody := store.entries;
    var body := TypeOf(e.body, newEnv, store, notes, counter);
    ExtendsTransitive(old(store.entries), beforeBody, store.entries);
    if body.Err? {
      return Err(body.error);
    }
    var t := FunctionType(FunctionDomain(e.parameters), body.value.payload);
    notes.Infer(e.nid, t);
    r := Ok(Answer(t, store));
  }

  /** The binding step of a function literal: a copy of the environment in which each parameter
      in turn is bound to the next location, where the handed store holds `any`. */
  method BindParameterTypes(parameters: seq<Identifier>, env: Environment, store: Store<Type>, counter: LocationCounter)
    returns (newEnv: Environment)
    modifies store, counter
    ensures fresh(newEnv)
    ensures newEnv.bindings == BindAll(env.bindings, parameters, old(counter.next))
    ensures store.entries == Filled(old(store.entries), old(counter.next), |parameters|, AnyType)
    ensures counter.next == old(counter.next) + |parameters|
  {
    newEnv := new Environment.Extend(env);
    for i := 0 to |parameters|
      invariant counter.next == old(counter.next) + i
      invariant newEnv.bindings == BindAll(env.bindings, parameters[..i], old(counter.next))
      invariant store.entries == Filled(old(store.entries), old(counter.next), i, AnyType)
    {
      assert parameters[..i + 1][..i] == parameters[..i];
      var next := counter.NextLocation();
      var location := newEnv.Set(parameters[i].name, next);
      var _ := store.Set(location, AnyType);
    }
    assert parameters[..|parameters|] == parameters;
  }

  /** A name must be bound in the environment (a ReferenceError otherwise); its type is the
      store entry at its location, undefined when the store has none. */
  method TypeOfId(e: Node, env: Environment, store: Store<Type>, notes: Annotations)
    returns (r: Result<Typed>)
    requires e.Id?
    modifies notes
    ensures r.Err? <==> e.name !in env.bindings
    ensures r.Err? ==> r.error == ReferenceError(e.name)
    ensures r.Ok? ==> r.value.store == store
    ensures r.Ok? ==> r.value.payload == (if env.bindings[e.name] in store.entries then store.entries[env.bindings[e.name]] else Type.Undefined)
    ensures notes.typeHint == if r.Ok? then old(notes.typeHint)[e.nid := r.value.payload] else old(notes.typeHint)
    ensures notes.castTo == old(notes.castTo)
  {
    if e.name !in env.bindings {
      return Err(ReferenceError(e.name));
    }
    var location := env.bindings[e.name];
    var t := if location in store.entries then store.entries[location] else Type.Undefined;
    notes.Infer(e.nid, t);
    r := Ok(Answer(t, store));
  }

  /** A cast reads its current `to`, records it again unless it is a generic marker, checks the
      operand and applies the cast rule; an accepted cast of another type records the resolved
      type in `to`, and every accepted cast hints it. */
  method TypeOfCast(e: Node, env: Environment, store: Store<Type>, notes: Annotations, counter: LocationCounter)
    returns (r: Result<Typed>)
    requires e.Cast? && IssuedBy(store, counter)
    modifies env, store, notes, counter
    ensures Threaded(store, counter, r)
    ensures Computes(r, TypingCast(e, old(StateOf(env, store, notes, counter))), env, store, notes, counter)
    ensures r.Ok? ==> e.nid in notes.typeHint && notes.typeHint[e.nid] == r.value.payload
    decreases e, 3
  {
    var target := notes.CastTarget(e);
    if target != UintType && target != IntType {
      notes.SetCastTo(e.nid, target);
    }
    var source := TypeOf(e.target, env, store, notes, counter);
    if source.Err? {
      return Err(source.error);
    }
    var rule := CastRule(source.value.payload, target);
    if rule.Err? {
      return Err(rule.error);
    }
    if source.value.payload != target {
      notes.SetCastTo(e.nid, rule.value);
    }
    notes.Infer(e.nid, rule.value);
    r := Ok(Answer(rule.value, source.value.store));
  }

  /** A call checks its target, then dispatches on the target's type: a function type
      (`ApplyFunction`), a recursive placeholder (`ApplyRecursive`); any other target type is
      refused. */
  method TypeOfApply(e: Node, env: Environment, store: Store<Type>, notes: Annotations, counter: LocationCounter)
    returns (r: Result<Typed>)
    requires e.Apply? && IssuedBy(store, counter)
    modifies env, store, notes, counter
    ensures Threaded(store, counter, r)
    ensures Computes(r, TypingApply(e, old(StateOf(env, store, notes, counter))), env, store, notes, counter)
    decreases e, 3
  {
    var callee := TypeOf(e.target, env, store, notes, counter);
    if callee.Err? {
      return Err(callee.error);
    }
    var t := callee.value.payload;
    var s1 := callee.value.store;
    ghost var storeAfterTarget := store.entries;
    ghost var calleeEntries := s1.entries;
    ghost var sc := StateOf(env, store, notes, counter);
    assert StateOf(env, s1, notes, counter) == sc.(entries := Base(sc, Cur(s1, store)));
    if t.FunctionType? {
      r := ApplyFunction(e, env, store, s1, t, notes, counter);
    } else if t.RecursiveType? {
      r := ApplyRecursive(e, env, s1, t, notes, counter);
    } else {
      return Err(TypeError("Unable to invoke a value of this type"));
    }
    ExtendsTransitive(old(store.entries), storeAfterTarget, store.entries);
    if r.Ok? {
      ExtendsTransitive(old(store.entries), calleeEntries, r.value.store.entries);
    }
  }

  /** What a call of a function type answers: with no arguments, the image exactly when the
      domain is `[void]`; arguments for a `[void]` domain are refused; fewer arguments than the
      domain give the function type of the remaining domain; otherwise the type worked out
      from the image; the call node is hinted with the answer. */
  ghost predicate FunctionApplication(e: Node, t: Type, r: Result<Typed>, notes: Annotations)
    requires e.Apply? && t.FunctionType?
    reads notes
  {
    (|e.args| == 0 ==> (r.Ok? <==> IsVoidDomain(t.domain)) && (r.Ok? ==> r.value.payload == t.image))
    && (|e.args| > 0 && IsVoidDomain(t.domain) ==> r.Err?)
    && (r.Ok? && 0 < |e.args| < |t.domain| ==> r.value.payload == FunctionType(t.domain[|e.args|..], t.image))
    && (r.Ok? && 0 < |e.args| && |t.domain| <= |e.args| ==> ApplyResult(t.image, |e.args|) == Ok(r.value.payload))
    && (r.Ok? ==> e.nid in notes.typeHint && notes.typeHint[e.nid] == r.value.payload)
  }

  /** The function-type branch of a call. `s1` is the store the target answered. */
  method ApplyFunction(e: Node, env: Environment, store: Store<Type>, s1: Store<Type>, t: Type,
                       notes: Annotations, counter: LocationCounter)
    returns (r: Result<Typed>)
    requires e.Apply? && t.FunctionType? && IssuedBy(store, counter) && IssuedBy(s1, counter)
    modifies env, store, s1, notes, counter
    ensures Threaded(s1, counter, r)
    ensures Extends(old(store.entries), store.entries) && IssuedBy(store, counter)
    ensures Computes(r, TypingFunctionCall(e, old(StateOf(env, store, notes, counter)), old(Cur(s1, store)), t),
                     env, store, notes, counter)
    ensures FunctionApplication(e, t, r, notes)
    decreases e, 2, 1
  {
    if |e.args| == 0 {
      r := ApplyWithoutArguments(e, env, store, s1, t, notes, counter);
    } else if IsVoidDomain(t.domain) {
      r := RefuseArguments(e, env, store, s1, t, notes, counter);
    } else {
      r := ApplyWithArguments(e, env, store, s1, t, notes, counter);
    }
  }

  /** A call without arguments: only a `[void]` domain accepts it, and the call then answers
      the image, hinted, with the store the target answered. */
  method ApplyWithoutArguments(e: Node, env: Environment, store: Store<Type>, s1: Store<Type>, t: Type,
                       notes: Annotations, counter: LocationCounter)
    returns (r: Result<Typed>)
    requires e.Apply? && t.FunctionType? && IssuedBy(store, counter) && IssuedBy(s1, counter)
             && |e.args| == 0
    modifies notes
    ensures Threaded(s1, counter, r)
    ensures Extends(old(store.entries), store.entries) && IssuedBy(store, counter)
    ensures Computes(r, TypingFunctionCall(e, old(StateOf(env, store, notes, counter)), old(Cur(s1, store)), t),
                     env, store, notes, counter)
    ensures FunctionApplication(e, t, r, notes)
    decreases e, 2, 0
  {
    if IsVoidDomain(t.domain) {
      notes.Infer(e.nid, t.image);
      return Ok(Answer(t.image, s1));
    }
    r := Err(TypeError("Tried to invoke a function without any arguments"));
  }

  /** Arguments passed to a `[void]` function: the target is checked once more, with the
      call's own store, before the call is refused. */
  method RefuseArguments(e: Node, env: Environment, store: Store<Type>, s1: Store<Type>, t: Type,
                       notes: Annotations, counter: LocationCounter)
    returns (r: Result<Typed>)
    requires e.Apply? && t.FunctionType? && IssuedBy(store, counter) && IssuedBy(s1, counter)
             && |e.args| > 0 && IsVoidDomain(t.domain)
    modifies env, store, s1, notes, counter
    ensures Threaded(s1, counter, r)
    ensures Extends(old(store.entries), store.entries) && IssuedBy(store, counter)
    ensures Computes(r, TypingFunctionCall(e, old(StateOf(env, store, notes, counter)), old(Cur(s1, store)), t),
                     env, store, notes, counter)
    ensures FunctionApplication(e, t, r, notes)
    decreases e, 2, 0
  {
    ghost var s1Before := s1.entries;
    var again := TypeOf(e.target, env, store, notes, counter);
    if s1 == store {
      ExtendsTransitive(old(s1.entries), s1Before, s1.entries);
    }
    if again.Err? {
      return Err(again.error);
    }
    r := Err(TypeError("Tried to pass arguments to a function although none were expected"));
  }

  /** Arguments for a domain other than `[void]`: they are checked with the store the target
      answered; a partial call answers the function type of the rest of the domain, a full one
      the type the arguments' check worked out, and the call node is hinted with the answer. */
  method ApplyWithArguments(e: Node, env: Environment, store: Store<Type>, s1: Store<Type>, t: Type,
                       notes: Annotations, counter: LocationCounter)
    returns (r: Result<Typed>)
    requires e.Apply? && t.FunctionType? && IssuedBy(store, counter) && IssuedBy(s1, counter)
             && |e.args| > 0 && !IsVoidDomain(t.domain)
    modifies env, store, s1, notes, counter
    ensures Threaded(s1, counter, r)
    ensures Extends(old(store.entries), store.entries) && IssuedBy(store, counter)
    ensures Computes(r, TypingFunctionCall(e, old(StateOf(env, store, notes, counter)), old(Cur(s1, store)), t),
                     env, store, notes, counter)
    ensures FunctionApplication(e, t, r, notes)
    decreases e, 2, 0
  {
    ghost var storeBefore := store.entries;
    ghost var sa := StateOf(env, s1, notes, counter);
    var checked := CheckArguments(e, env, t, Some(t.domain), t.image, s1, notes, counter);
    if checked.Ok? {
      ArgumentsSucceed(e, sa, t, Some(t.domain), t.image);
    }
    if s1 == store {
      ExtendsTransitive(old(store.entries), storeBefore, store.entries);
    }
    if checked.Err? {
      return Err(checked.error);
    }
    if |e.args| < |t.domain| {
      var partial := FunctionType(t.domain[|e.args|..], t.image);
      notes.Infer(e.nid, partial);
      return Ok(Answer(partial, checked.value.store));
    }
    notes.Infer(e.nid, checked.value.payload);
    r := checked;
  }

  /** The placeholder branch of a call: domain and image come from the hint the identifier
      carries now (reading the image of a missing hint fails); a hint that is not a function
      type has neither. The call node is hinted with the image only when it has no hint yet. */
  method ApplyRecursive(e: Node, env: Environment, s1: Store<Type>, t: Type, notes: Annotations, counter: LocationCounter)
    returns (r: Result<Typed>)
    requires e.Apply? && t.RecursiveType? && IssuedBy(s1, counter)
    modifies env, s1, notes, counter
    ensures Threaded(s1, counter, r)
    ensures Computes(r, TypingRecursiveCall(e, old(StateOf(env, s1, notes, counter)), t), env, s1, notes, counter)
    ensures old(notes.Hint(t.identifier.nid)).None? ==> r.Err? && r.error.TypeError?
    decreases e, 2
  {
    var hint := notes.Hint(t.identifier.nid);
    if hint.None? {
      return Err(TypeError("Cannot read the image of the identifier's missing hint"));
    }
    var resultType := if hint.value.FunctionType? then hint.value.image else Type.Undefined;
    var domain := if hint.value.FunctionType? then Some(hint.value.domain) else None;
    var checked := CheckArguments(e, env, t, domain, resultType, s1, notes, counter);
    if checked.Err? {
      return Err(checked.error);
    }
    if notes.Hint(e.nid).None? {
      notes.Infer(e.nid, resultType);
    }
    r := checked;
  }

  /** `checkArguments`: with no arguments the domain must be `[void]`; otherwise each argument
      is checked in turn by `CheckArgument`, with the store the previous one answered, and after
      the last one the call's type is worked out from the image. */
  method CheckArguments(e: Node, env: Environment, target: Type, domain: Option<seq<Type>>, image: Type,
                        s1: Store<Type>, notes: Annotations, counter: LocationCounter)
    returns (r: Result<Typed>)
    requires e.Apply? && IssuedBy(s1, counter)
    modifies env, s1, notes, counter
    ensures Threaded(s1, counter, r)
    ensures Computes(r, TypingArguments(e, old(StateOf(env, s1, notes, counter)), target, domain, image),
                     env, s1, notes, counter)
    decreases e, 1, 3
  {
    if |e.args| == 0 {
      if domain.None? {
        return Err(TypeError("Cannot read properties of undefined"));
      }
      if !IsVoidDomain(domain.value) {
        return Err(TypeError("Tried to invoke a function without any arguments"));
      }
    }
    r := CheckEachArgument(e, env, target, domain, image, s1, notes, counter);
  }

  /** The loop of `checkArguments`: each argument in turn, with the store the previous one
      answered. */
  method CheckEachArgument(e: Node, env: Environment, target: Type, domain: Option<seq<Type>>, image: Type,
                           s1: Store<Type>, notes: Annotations, counter: LocationCounter)
    returns (r: Result<Typed>)
    requires e.Apply? && IssuedBy(s1, counter)
    modifies env, s1, notes, counter
    ensures Threaded(s1, counter, r)
    ensures Computes(r, TypingArgumentsFrom(e, 0, old(StateOf(env, s1, notes, counter)), None, target, domain, image,
                                            image), env, s1, notes, counter)
    decreases e, 1, 2
  {
    ghost var spec := TypingArgumentsFrom(e, 0, StateOf(env, s1, notes, counter), None, target, domain, image, image);
    var currentStore := s1;
    var applyType := image;
    var i := 0;
    while i < |e.args|
      invariant 0 <= i <= |e.args|
      invariant TypingArgumentsFrom(e, i, StateOf(env, s1, notes, counter), Cur(currentStore, s1), target, domain,
                                    image, applyType) == spec
      invariant currentStore == s1 || fresh(currentStore)
      invariant old(counter.next) <= counter.next
      invariant Extends(old(s1.entries), s1.entries) && IssuedBy(s1, counter)
      invariant Extends(old(s1.entries), currentStore.entries) && IssuedBy(currentStore, counter)
    {
      ghost var s1Before := s1.entries;
      ghost var currentBefore := currentStore.entries;
      var step := CheckNextArgumentOn(e, i, env, target, domain, image, applyType, s1, currentStore, notes, counter);
      ExtendsTransitive(old(s1.entries), s1Before, s1.entries);
      if step.Err? {
        return Err(step.error);
      }
      ExtendsTransitive(old(s1.entries), currentBefore, step.value.store.entries);
      currentStore := step.value.store;
      applyType := step.value.payload;
      i := i + 1;
    }
    r := Ok(Answer(applyType, currentStore));
  }

  /** `CheckNextArgument` with the current store `store`, seen from the store `s1` handed to
      `checkArguments`. */
  method CheckNextArgumentOn(e: Node, i: nat, env: Environment, target: Type, domain: Option<seq<Type>>, image: Type,
                             applyType: Type, s1: Store<Type>, store: Store<Type>, notes: Annotations,
                             counter: LocationCounter)
    returns (r: Result<Typed>)
    requires e.Apply? && i < |e.args| && IssuedBy(store, counter) && IssuedBy(s1, counter)
    modifies env, store, notes, counter
    ensures Threaded(store, counter, r)
    ensures Extends(old(s1.entries), s1.entries) && IssuedBy(s1, counter)
    ensures Computes(r, TypingNextArgument(e, i, old(StateOf(env, s1, notes, counter)), old(Cur(store, s1)), target,
                                           domain, image, applyType), env, s1, notes, counter)
    decreases e, 1, 1
  {
    if store == s1 {
      r := CheckNextArgument(e, i, env, target, domain, image, applyType, s1, notes, counter);
    } else {
      NextArgumentMoved(e, i, StateOf(env, s1, notes, counter), store.entries, target, domain, image, applyType);
      r := CheckNextArgument(e, i, env, target, domain, image, applyType, store, notes, counter);
    }
  }

  /** One turn of the loop in `checkArguments`: argument `i`, then, after the last argument,
      the call's type. The answer carries the call's type so far and the new current store. */
  method CheckNextArgument(e: Node, i: nat, env: Environment, target: Type, domain: Option<seq<Type>>, image: Type,
                           applyType: Type, store: Store<Type>, notes: Annotations, counter: LocationCounter)
    returns (r: Result<Typed>)
    requires e.Apply? && i < |e.args| && IssuedBy(store, counter)
    modifies env, store, notes, counter
    ensures Threaded(store, counter, r)
    ensures Computes(r, TypingNextArgument(e, i, old(StateOf(env, store, notes, counter)), None, target, domain,
                                           image, applyType), env, store, notes, counter)
    decreases e, 1, 0
  {
    var arg := CheckArgument(e, i, env, target, domain, store, notes, counter);
    if arg.Err? {
      return Err(arg.error);
    }
    var next := applyType;
    if i == |e.args| - 1 {
      var result := ApplyType(image, |e.args|);
      if result.Err? {
        return Err(result.error);
      }
      next := result.value;
    }
    r := Ok(Answer(next, arg.value.store));
  }

  /** One argument of `checkArguments`: check it with the current store, find its expected
      type, refuse it unless it matches, and hint it with its own type. */
  method CheckArgument(e: Node, i: nat, env: Environment, target: Type, domain: Option<seq<Type>>,
                       store: Store<Type>, notes: Annotations, counter: LocationCounter)
    returns (r: Result<Typed>)
    requires e.Apply? && i < |e.args| && IssuedBy(store, counter)
    modifies env, store, notes, counter
    ensures Threaded(store, counter, r)
    ensures Computes(r, TypingArgument(e, i, old(StateOf(env, store, notes, counter)), None, target, domain),
                     env, store, notes, counter)
    ensures r.Ok? ==> ExpectedAt(domain, target, i).Ok? && ValueMatchesType(e.args[i], ExpectedAt(domain, target, i).value)
    ensures r.Ok? ==> e.args[i].nid in notes.typeHint && notes.typeHint[e.args[i].nid] == r.value.payload
    decreases e, 0
  {
    var arg := TypeOf(e.args[i], env, store, notes, counter);
    if arg.Err? {
      return Err(arg.error);
    }
    var found := ExpectedType(domain, target, i);
    if found.Err? {
      return Err(found.error);
    }
    if !ValueMatchesType(e.args[i], found.value) {
      return Err(TypeError("Argument doesn't match the expected type"));
    }
    notes.Infer(e.args[i].nid, arg.value.payload);
    r := arg;
  }

  /** The expected type of argument `i`: the domain entry (a missing domain cannot be
      indexed), or the walk along the target's type when that entry is missing. */
  method ExpectedType(domain: Option<seq<Type>>, target: Type, i: nat) returns (r: Result<Type>)
    ensures r == ExpectedAt(domain, target, i)
  {
    if domain.None? {
      return Err(TypeError("Cannot read properties of undefined"));
    }
    var expectedHere := if i < |domain.value| then domain.value[i] else Type.Undefined;
    if expectedHere.Undefined? {
      r := ExpectedTypeWalk(target, i);
    } else {
      r := Ok(expectedHere);
    }
  }

  /** The walk of `checkArguments` for an argument beyond the target's domain, proved against
      `ChainLookup`. */
  method ExpectedTypeWalk(target: Type, i: nat) returns (r: Result<Type>)
    ensures r == ChainLookup(target, 0, i)
  {
    var node := target;
    var currentIndex := 0;
    while true
      invariant ChainLookup(node, currentIndex, i) == ChainLookup(target, 0, i)
      decreases node
    {
      if node.Undefined? {
        return Err(TypeError("Cannot destructure undefined"));
      }
      if !node.FunctionType? {
        return Err(PlainError("More arguments specified than formal parameters available"));
      }
      if i > currentIndex + |node.domain| - 1 {
        currentIndex := currentIndex + |node.domain|;
        node := node.image;
      } else {
        return Ok(if 0 <= currentIndex - i < |node.domain| then node.domain[currentIndex - i] else Type.Undefined);
      }
    }
  }

  /** The call's type after its last argument matched: `image.image` is read, and when it is
      set, `.image` is taken once per argument but the last, proved against `ApplyResult`. */
  method ApplyType(image: Type, n: nat) returns (r: Result<Type>)
    requires n > 0
    ensures r == ApplyResult(image, n)
  {
    var imageImage := ImageOf(image);
    if imageImage.Err? {
      return Err(imageImage.error);
    }
    if imageImage.value.Undefined? {
      return Ok(image);
    }
    var applyType := image;
    var j := 0;
    while j < n - 1
      invariant 0 <= j <= n - 1
      invariant Images(image, j) == Ok(applyType)
    {
      var next := ImageOf(applyType);
      if next.Err? {
        ImagesErrorPersists(image, j + 1, n - 1);
        return Err(next.error);
      }
      applyType := next.value;
      j := j + 1;
    }
    r := Ok(applyType);
  }
}
