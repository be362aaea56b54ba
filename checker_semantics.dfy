/** A reference semantics of `getTypeOf` (src/TypeSystem.js) over the part of the heap the
    checker reads and writes: the bindings of the environment a step is handed, the entries of
    the store it is handed, the shared counter, and the nodes' `typeHint` and `to` fields. The
    store a step answers is the handed store itself or a new one, given by its entries. The
    methods of module `TypeSystem` are proved to compute exactly these functions. */
module CheckerSemantics {
  import opened Outcomes
  import opened Types
  import opened InterpreterClasses
  import opened TypeRules

  /** What one step of the checker sees: the handed environment's bindings, the handed store's
      entries, the counter, and the hints and cast targets of all nodes. */
  datatype Checker = Checker(bindings: map<string, nat>, entries: map<nat, Type>, next: nat,
                             hints: map<nat, Type>, casts: map<nat, Type>)

  /** A step's answer: the type, and the store answered, `None` for the handed store itself and
      otherwise the entries of a new store. */
  datatype Verdict = Verdict(payload: Type, answered: Option<map<nat, Type>>)

  /** The answer or the error of a step, and the state it leaves. */
  datatype Outcome = Outcome(result: Result<Verdict>, state: Checker)

  /** Every entry sits at a location the counter has issued. */
  ghost predicate Issued(entries: map<nat, Type>, next: nat) {
    forall l :: l in entries ==> l < next
  }

  /** The entries of the store a successful step answered. */
  function Answered(o: Outcome): map<nat, Type>
    requires o.result.Ok?
  {
    if o.result.value.answered.None? then o.state.entries else o.result.value.answered.value
  }

  /** The current store of a sequence of steps: the handed one (`None`) or a new one. */
  function Base(st: Checker, cur: Option<map<nat, Type>>): map<nat, Type> {
    if cur.None? then st.entries else cur.value
  }

  /** The handed store and the current store hold only issued locations. */
  ghost predicate Current(st: Checker, cur: Option<map<nat, Type>>) {
    Issued(st.entries, st.next) && Issued(Base(st, cur), st.next)
  }

  /** What every step keeps, as the methods' `Threaded`: the counter only grows; from issued
      entries, the handed store only gains entries, and the store answered holds every entry of
      the current store. */
  ghost predicate GrowsOn(st: Checker, cur: Option<map<nat, Type>>, o: Outcome) {
    st.next <= o.state.next
    && (Current(st, cur) ==>
          Extends(st.entries, o.state.entries) && Issued(o.state.entries, o.state.next)
          && (o.result.Ok? ==> Extends(Base(st, cur), Answered(o)) && Issued(Answered(o), o.state.next)))
  }

  /** `GrowsOn` for a step handed only the store it checks with. */
  ghost predicate Grows(st: Checker, o: Outcome) {
    GrowsOn(st, None, o)
  }

  /** A step that was handed a new store, seen from the store handed before it: the store it
      answers is new, and the earlier store keeps its `entries`. */
  function Moved(o: Outcome, entries: map<nat, Type>): (m: Outcome)
    ensures m.state == o.state.(entries := entries)
    ensures m.result.Ok? <==> o.result.Ok?
    ensures m.result.Ok? ==> m.result.value == Verdict(o.result.value.payload, Some(Answered(o)))
    ensures m.result.Err? ==> m.result == o.result
  {
    Outcome(if o.result.Ok? then Ok(Verdict(o.result.value.payload, Some(Answered(o)))) else o.result,
            o.state.(entries := entries))
  }

  /** `getTypeOf(e, environment, store)`. */
  function Typing(e: Node, st: Checker): (o: Outcome)
    ensures Grows(st, o)
    decreases e, 4, 0
  {
    match e
    case Block(_, _) => TypingStatements(e, 0, st, None, Type.Undefined)
    case Let(_, _, _) => TypingLet(e, st)
    case Binary(_, _, _, _) => TypingBinary(e, st)
    case Not(_, _) => TypingNot(e, st)
    case Literal(nid, lit) =>
      Outcome(Ok(Verdict(LiteralType(lit), None)), st.(hints := st.hints[nid := LiteralType(lit)]))
    case FunctionExpression(_, _, _) => TypingFunction(e, st)
    case Apply(_, _, _) => TypingApply(e, st)
    case Id(_, _) => TypingId(e, st)
    case Cast(_, _, _) => TypingCast(e, st)
  }

  /** `getTypeOf` of `e` with the current store `cur` of a sequence of steps. */
  function TypingOn(e: Node, st: Checker, cur: Option<map<nat, Type>>): (o: Outcome)
    ensures GrowsOn(st, cur, o)
    decreases e, 5, 0
  {
    if cur.None? then Typing(e, st) else Moved(Typing(e, st.(entries := cur.value)), st.entries)
  }

  /** The statements of a block from the `i`-th, each checked with the store the previous one
      answered; the block answers the last statement's type, or undefined when it is empty. */
  function TypingStatements(e: Node, i: nat, st: Checker, cur: Option<map<nat, Type>>, last: Type): (o: Outcome)
    requires e.Block? && i <= |e.content|
    ensures GrowsOn(st, cur, o)
    decreases e, 3, |e.content| - i
  {
    if i == |e.content| then Outcome(Ok(Verdict(last, cur)), st)
    else
      var o := TypingOn(e.content[i], st, cur);
      if o.result.Err? then o
      else TypingStatements(e, i + 1, o.state, o.result.value.answered, o.result.value.payload)
  }

  /** `let`: on success both the identifier and the node are hinted, the name is bound to the
      next location, and a copy of the answered store holds the type there. A ReferenceError
      for the name itself is retried for a function literal after the name has been bound to
      the next location of the handed store, holding the placeholder `RecursiveType`. */
  function TypingLet(e: Node, st: Checker): (o: Outcome)
    requires e.Let?
    ensures Grows(st, o)
    decreases e, 3, 1
  {
    var name := e.identifier.name;
    var first := Typing(e.bound, st);
    if first.result.Ok? then
      var t := first.result.value.payload;
      var s := first.state;
      Outcome(Ok(Verdict(t, Some(Answered(first)[s.next := t]))),
              s.(bindings := s.bindings[name := s.next], next := s.next + 1,
                 hints := s.hints[e.identifier.nid := t][e.nid := t]))
    else if first.result.error != ReferenceError(name) then first
    else if !e.bound.FunctionExpression? then Outcome(Err(ReferenceError(name)), first.state)
    else TypingLetRetry(e, first.state)
  }

  /** The second attempt of a `let` whose function literal refers to its own name: the name is
      bound to a new location holding a placeholder `RecursiveType` in the handed store, and the
      bound expression is checked again. */
  function TypingLetRetry(e: Node, s: Checker): (o: Outcome)
    requires e.Let?
    ensures Grows(s, o)
    decreases e, 3, 0
  {
    var retry := Typing(e.bound, s.(bindings := s.bindings[e.identifier.name := s.next],
                                    entries := s.entries[s.next := RecursiveType(e.identifier)],
                                    next := s.next + 1));
    if retry.result.Err? then retry
    else
      var t := retry.result.value.payload;
      Outcome(retry.result, retry.state.(hints := retry.state.hints[e.identifier.nid := t][e.nid := t]))
  }


  /** A binary node: left operand with the handed store, right operand with the store the left
      answered, then `BinaryRule` under the node's hint as it is at that point. */
  function TypingBinary(e: Node, st: Checker): (o: Outcome)
    requires e.Binary?
    ensures Grows(st, o)
    decreases e, 3, 0
  {
    var left := Typing(e.left, st);
    if left.result.Err? then left
    else
      var right := TypingOn(e.right, left.state, left.result.value.answered);
      if right.result.Err? then right
      else
        var s := right.state;
        var lt, rt := left.result.value.payload, right.result.value.payload;
        var hint := HintIn(s.hints, e.nid);
        var rule := BinaryRule(e.op, lt, rt, hint);
        if rule.Err? then Outcome(Err(rule.error), s)
        else
          Outcome(Ok(Verdict(rule.value, right.result.value.answered)),
                  if BinaryWritesHint(e.op, lt, rt, hint) then s.(hints := s.hints[e.nid := rule.value]) else s)
  }

  /** `¬`: the operand, then `NotRule`. */
  function TypingNot(e: Node, st: Checker): (o: Outcome)
    requires e.Not?
    ensures Grows(st, o)
    decreases e, 3, 0
  {
    var operand := Typing(e.operand, st);
    if operand.result.Err? then operand
    else
      var rule := NotRule(operand.result.value.payload);
      if rule.Err? then Outcome(Err(rule.error), operand.state)
      else Outcome(Ok(Verdict(rule.value, operand.result.value.answered)), operand.state)
  }

  /** The handed store after `k` locations from `first` were given the type `t`. */
  function Filled(entries: map<nat, Type>, first: nat, k: nat, t: Type): map<nat, Type>
    decreases k
  {
    if k == 0 then entries else Filled(entries, first, k - 1, t)[first + k - 1 := t]
  }

  /** Filling locations from the counter on keeps every issued entry and issues the new ones. */
  lemma {:induction false} FilledExtends(entries: map<nat, Type>, first: nat, k: nat, t: Type)
    ensures Issued(entries, first) ==>
              Extends(entries, Filled(entries, first, k, t)) && Issued(Filled(entries, first, k, t), first + k)
    ensures forall j :: first <= j < first + k ==> j in Filled(entries, first, k, t) && Filled(entries, first, k, t)[j] == t
    decreases k
  {
    if k > 0 {
      FilledExtends(entries, first, k - 1, t);
    }
  }

  /** A function literal: each parameter bound, in a copy of the environment, to the next
      location of the handed store, which holds `any`; the body checked there with the handed
      store; the answer is the function type, hinted, and the handed store. */
  function TypingFunction(e: Node, st: Checker): (o: Outcome)
    requires e.FunctionExpression?
    ensures Grows(st, o)
    decreases e, 3, 0
  {
    var k := |e.parameters|;
    var inner := st.(bindings := BindAll(st.bindings, e.parameters, st.next),
                     entries := Filled(st.entries, st.next, k, AnyType), next := st.next + k);
    FilledExtends(st.entries, st.next, k, AnyType);
    var body := Typing(e.body, inner);
    var s := body.state.(bindings := st.bindings);
    if body.result.Err? then Outcome(body.result, s)
    else
      var t := FunctionType(FunctionDomain(e.parameters), body.result.value.payload);
      Outcome(Ok(Verdict(t, None)), s.(hints := s.hints[e.nid := t]))
  }

  /** A name: unbound is a ReferenceError; otherwise the store entry at its location,
      undefined when missing, hinted. */
  function TypingId(e: Node, st: Checker): (o: Outcome)
    requires e.Id?
    ensures o.state.bindings == st.bindings && o.state.entries == st.entries && o.state.next == st.next
    ensures o.result.Ok? ==> o.result.value.answered.None?
    decreases e, 3, 0
  {
    if e.name !in st.bindings then Outcome(Err(ReferenceError(e.name)), st)
    else
      var l := st.bindings[e.name];
      var t := if l in st.entries then st.entries[l] else Type.Undefined;
      Outcome(Ok(Verdict(t, None)), st.(hints := st.hints[e.nid := t]))
  }

  /** A cast: the current `to` is recorded again unless it is a generic marker; the operand is
      checked; `CastRule` decides; an accepted cast records the resolved type in `to` when the
      operand's type differs from it, and hints it. */
  function TypingCast(e: Node, st: Checker): (o: Outcome)
    requires e.Cast?
    ensures Grows(st, o)
    decreases e, 3, 0
  {
    var target := CastTargetIn(st.casts, e);
    var before := if target != UintType && target != IntType then st.(casts := st.casts[e.nid := target]) else st;
    var source := Typing(e.target, before);
    if source.result.Err? then source
    else
      var s := source.state;
      var from := source.result.value.payload;
      var rule := CastRule(from, target);
      if rule.Err? then Outcome(Err(rule.error), s)
      else
        Outcome(Ok(Verdict(rule.value, source.result.value.answered)),
                s.(casts := if from != target then s.casts[e.nid := rule.value] else s.casts,
                   hints := s.hints[e.nid := rule.value]))
  }

  /** A call: the target, then by the target's type a function call, a call through the
      recursive placeholder, or a TypeError. */
  function TypingApply(e: Node, st: Checker): (o: Outcome)
    requires e.Apply?
    ensures Grows(st, o)
    decreases e, 3, 0
  {
    var callee := Typing(e.target, st);
    if callee.result.Err? then callee
    else
      var t := callee.result.value.payload;
      var cur := callee.result.value.answered;
      if t.FunctionType? then TypingFunctionCall(e, callee.state, cur, t)
      else if t.RecursiveType? then
        if cur.None? then TypingRecursiveCall(e, callee.state, t)
        else Moved(TypingRecursiveCall(e, callee.state.(entries := cur.value), t), callee.state.entries)
      else Outcome(Err(TypeError("Unable to invoke a value of this type")), callee.state)
  }

  /** A call of a function type; `cur` is the store the target answered. No arguments need the
      `[void]` domain; arguments to `[void]` are refused after the target is checked once more
      with the handed store; otherwise the arguments are checked, and the call answers the rest
      of the domain for a partial call or the type `checkArguments` worked out, hinted. */
  function TypingFunctionCall(e: Node, st: Checker, cur: Option<map<nat, Type>>, t: Type): (o: Outcome)
    requires e.Apply? && t.FunctionType?
    ensures GrowsOn(st, cur, o)
    decreases e, 2, 0
  {
    if |e.args| == 0 then
      if IsVoidDomain(t.domain) then Outcome(Ok(Verdict(t.image, cur)), st.(hints := st.hints[e.nid := t.image]))
      else Outcome(Err(TypeError("Tried to invoke a function without any arguments")), st)
    else if IsVoidDomain(t.domain) then
      var again := Typing(e.target, st);
      if again.result.Err? then again
      else Outcome(Err(TypeError("Tried to pass arguments to a function although none were expected")), again.state)
    else
      var checked := if cur.None? then TypingArguments(e, st, t, Some(t.domain), t.image)
                     else Moved(TypingArguments(e, st.(entries := cur.value), t, Some(t.domain), t.image), st.entries);
      if checked.result.Err? then checked
      else
        var s := checked.state;
        var answer := if |e.args| < |t.domain| then FunctionType(t.domain[|e.args|..], t.image)
                      else checked.result.value.payload;
        Outcome(Ok(Verdict(answer, checked.result.value.answered)), s.(hints := s.hints[e.nid := answer]))
  }

  /** A call through the placeholder `t`: domain and image come from the identifier's hint at
      this point (a missing hint is a TypeError); the call node is hinted with the image only
      when it has no hint yet. */
  function TypingRecursiveCall(e: Node, st: Checker, t: Type): (o: Outcome)
    requires e.Apply? && t.RecursiveType?
    ensures Grows(st, o)
    decreases e, 2, 0
  {
    var hint := HintIn(st.hints, t.identifier.nid);
    if hint.None? then Outcome(Err(TypeError("Cannot read the image of the identifier's missing hint")), st)
    else
      var image := if hint.value.FunctionType? then hint.value.image else Type.Undefined;
      var domain := if hint.value.FunctionType? then Some(hint.value.domain) else None;
      var checked := TypingArguments(e, st, t, domain, image);
      if checked.result.Err? then checked
      else
        var s := checked.state;
        Outcome(checked.result, if HintIn(s.hints, e.nid).None? then s.(hints := s.hints[e.nid := image]) else s)
  }

  /** `checkArguments`: no arguments need a `[void]` domain; otherwise the arguments in turn. */
  function TypingArguments(e: Node, st: Checker, target: Type, domain: Option<seq<Type>>, image: Type): (o: Outcome)
    requires e.Apply?
    ensures Grows(st, o)
    decreases e, 1, |e.args| + 1, 0
  {
    if |e.args| == 0 && domain.None? then Outcome(Err(TypeError("Cannot read properties of undefined")), st)
    else if |e.args| == 0 && !IsVoidDomain(domain.value) then
      Outcome(Err(TypeError("Tried to invoke a function without any arguments")), st)
    else TypingArgumentsFrom(e, 0, st, None, target, domain, image, image)
  }

  /** The arguments from the `i`-th, each with the store the previous one answered. */
  function TypingArgumentsFrom(e: Node, i: nat, st: Checker, cur: Option<map<nat, Type>>, target: Type,
                               domain: Option<seq<Type>>, image: Type, applyType: Type): (o: Outcome)
    requires e.Apply? && i <= |e.args|
    ensures GrowsOn(st, cur, o)
    decreases e, 1, |e.args| - i, 1
  {
    if i == |e.args| then Outcome(Ok(Verdict(applyType, cur)), st)
    else
      var step := TypingNextArgument(e, i, st, cur, target, domain, image, applyType);
      if step.result.Err? then step
      else TypingArgumentsFrom(e, i + 1, step.state, step.result.value.answered, target, domain, image,
                               step.result.value.payload)
  }

  /** Argument `i`, and after the last one the call's type, `ApplyResult`; the answer carries
      the call's type so far. */
  function TypingNextArgument(e: Node, i: nat, st: Checker, cur: Option<map<nat, Type>>, target: Type,
                              domain: Option<seq<Type>>, image: Type, applyType: Type): (o: Outcome)
    requires e.Apply? && i < |e.args|
    ensures GrowsOn(st, cur, o)
    decreases e, 1, |e.args| - i, 0
  {
    var arg := TypingArgument(e, i, st, cur, target, domain);
    if arg.result.Err? then arg
    else if i == |e.args| - 1 && ApplyResult(image, |e.args|).Err? then
      Outcome(Err(ApplyResult(image, |e.args|).error), arg.state)
    else
      Outcome(Ok(Verdict(if i == |e.args| - 1 then ApplyResult(image, |e.args|).value else applyType,
                         arg.result.value.answered)), arg.state)
  }

  /** Argument `i`: its type, then its expected type, which it must match; it is hinted with its
      own type. */
  function TypingArgument(e: Node, i: nat, st: Checker, cur: Option<map<nat, Type>>, target: Type,
                          domain: Option<seq<Type>>): (o: Outcome)
    requires e.Apply? && i < |e.args|
    ensures GrowsOn(st, cur, o)
    decreases e, 0, 0
  {
    var arg := TypingOn(e.args[i], st, cur);
    if arg.result.Err? then arg
    else
      var expected := ExpectedAt(domain, target, i);
      if expected.Err? then Outcome(Err(expected.error), arg.state)
      else if !ValueMatchesType(e.args[i], expected.value) then
        Outcome(Err(TypeError("Argument doesn't match the expected type")), arg.state)
      else Outcome(arg.result, arg.state.(hints := arg.state.hints[e.args[i].nid := arg.result.value.payload]))
  }

  /** Checking an argument with a new current store is checking it with that store handed,
      seen from the store handed before. */
  lemma ArgumentMoved(e: Node, i: nat, st: Checker, m: map<nat, Type>, target: Type, domain: Option<seq<Type>>)
    requires e.Apply? && i < |e.args|
    ensures TypingArgument(e, i, st, Some(m), target, domain)
            == Moved(TypingArgument(e, i, st.(entries := m), None, target, domain), st.entries)
  {
  }

  /** The same for argument `i` and the call's type after it. */
  lemma NextArgumentMoved(e: Node, i: nat, st: Checker, m: map<nat, Type>, target: Type,
                          domain: Option<seq<Type>>, image: Type, applyType: Type)
    requires e.Apply? && i < |e.args|
    ensures TypingNextArgument(e, i, st, Some(m), target, domain, image, applyType)
            == Moved(TypingNextArgument(e, i, st.(entries := m), None, target, domain, image, applyType), st.entries)
  {
    ArgumentMoved(e, i, st, m, target, domain);
  }

  /** Argument `j` has an expected type and matches it. */
  predicate ArgumentMatches(e: Node, j: nat, target: Type, domain: Option<seq<Type>>)
    requires e.Apply? && j < |e.args|
  {
    ExpectedAt(domain, target, j).Ok? && ValueMatchesType(e.args[j], ExpectedAt(domain, target, j).value)
  }

  /** After a successful run over the arguments from the `i`-th, the call's type is
      `ApplyResult`, or the type carried in when no argument was left. */
  lemma {:induction false} ArgumentsFromResult(e: Node, i: nat, st: Checker, cur: Option<map<nat, Type>>,
                                               target: Type, domain: Option<seq<Type>>, image: Type,
                                               applyType: Type)
    requires e.Apply? && i <= |e.args|
    requires TypingArgumentsFrom(e, i, st, cur, target, domain, image, applyType).result.Ok?
    ensures var o := TypingArgumentsFrom(e, i, st, cur, target, domain, image, applyType);
            (i == |e.args| ==> o.result.value.payload == applyType)
            && (i < |e.args| ==> ApplyResult(image, |e.args|) == Ok(o.result.value.payload))
    decreases |e.args| - i
  {
    if i < |e.args| {
      var step := TypingNextArgument(e, i, st, cur, target, domain, image, applyType);
      NextArgumentSucceeds(e, i, st, cur, target, domain, image, applyType);
      ArgumentsFromResult(e, i + 1, step.state, step.result.value.answered, target, domain, image,
                          step.result.value.payload);
    }
  }

  /** A successful step matched argument `i` against its expected type; the call's type is
      kept until the last argument and is then `ApplyResult`. */
  lemma NextArgumentSucceeds(e: Node, i: nat, st: Checker, cur: Option<map<nat, Type>>, target: Type,
                             domain: Option<seq<Type>>, image: Type, applyType: Type)
    requires e.Apply? && i < |e.args|
    requires TypingNextArgument(e, i, st, cur, target, domain, image, applyType).result.Ok?
    ensures ArgumentMatches(e, i, target, domain)
    ensures var o := TypingNextArgument(e, i, st, cur, target, domain, image, applyType);
            (i < |e.args| - 1 ==> o.result.value.payload == applyType)
            && (i == |e.args| - 1 ==> ApplyResult(image, |e.args|) == Ok(o.result.value.payload))
  {
    assert TypingArgument(e, i, st, cur, target, domain).result.Ok?;
  }

  /** A successful check of a call's arguments: no arguments need a `[void]` domain and give
      the image; otherwise the call's type is `ApplyResult`. */
  lemma ArgumentsSucceed(e: Node, st: Checker, target: Type, domain: Option<seq<Type>>, image: Type)
    requires e.Apply? && TypingArguments(e, st, target, domain, image).result.Ok?
    ensures var o := TypingArguments(e, st, target, domain, image);
            (|e.args| == 0 ==> domain.Some? && IsVoidDomain(domain.value) && o.result.value.payload == image)
            && (|e.args| > 0 ==> ApplyResult(image, |e.args|) == Ok(o.result.value.payload))
  {
    if |e.args| > 0 {
      ArgumentsFromResult(e, 0, st, None, target, domain, image, image);
    }
  }

  /** A name a successful `let` binds is then read with the bound expression's type: the next
      statement finds the location the `let` bound in the store the `let` answered. */
  lemma LetThenReadType(nid: nat, letId: nat, x: Identifier, bound: Node, readId: nat, st: Checker)
    ensures var b := Typing(bound, st);
            var o := Typing(Block(nid, [Let(letId, x, bound), Id(readId, x.name)]), st);
            b.result.Ok? ==> o.result.Ok? && o.result.value.payload == b.result.value.payload
  {
    var block := Block(nid, [Let(letId, x, bound), Id(readId, x.name)]);
    var b := Typing(bound, st);
    if b.result.Ok? {
      var let := Let(letId, x, bound);
      var t := b.result.value.payload;
      var l := TypingLet(let, st);
      assert Typing(let, st) == l;
      assert l.result == Ok(Verdict(t, Some(Answered(b)[b.state.next := t])));
      assert l.state.bindings == b.state.bindings[x.name := b.state.next];
      var id := Id(readId, x.name);
      var read := TypingId(id, l.state.(entries := Answered(l)));
      assert Typing(id, l.state.(entries := Answered(l))) == read;
      assert read.result == Ok(Verdict(t, None));
      assert TypingOn(id, l.state, l.result.value.answered).result == Ok(Verdict(t, Some(Answered(l))));
      assert TypingStatements(block, 0, st, None, Type.Undefined)
             == TypingStatements(block, 1, l.state, l.result.value.answered, t);
      assert TypingStatements(block, 1, l.state, l.result.value.answered, t).result == Ok(Verdict(t, Some(Answered(l))));
    }
  }
}
