/** The pipeline of src/index.js after parsing: check the program's types, and only when the
    check succeeds evaluate it. Both phases start from empty environments and stores but draw
    locations from the one counter, and the evaluator reads the hints the checker wrote. */
module Driver {
  import opened Outcomes
  import opened Types
  import opened InterpreterClasses
  import opened CheckerSemantics
  import opened EvaluatorSemantics
  import opened TypeSystem
  import opened Interpreter

  /** The check of a whole program: empty environment and store, a counter at zero, and the
      hints and cast targets the nodes carry. */
  ghost function ProgramCheck(program: Node, hints: map<nat, Type>, casts: map<nat, Type>): Outcome {
    Typing(program, Checker(map[], map[], 0, hints, casts))
  }

  /** Checks `program` and evaluates it only when the check succeeds. A check error is the
      answer; otherwise the nodes carry the hints and cast targets the check wrote, and a
      call-free program answers its reference evaluation in `globals`, the new top-level
      environment, with the counter where the check left it. */
  method Run(program: Node, notes: Annotations, fuel: nat)
    returns (r: Result<Evaluated>, ghost globals: Environment)
    modifies notes
    ensures var c := ProgramCheck(program, old(notes.typeHint), old(notes.castTo));
            (c.result.Err? ==> r == Err(c.result.error))
            && (c.result.Ok? ==> notes.typeHint == c.state.hints && notes.castTo == c.state.casts && fresh(globals))
    ensures r.Ok? ==> ProgramCheck(program, old(notes.typeHint), old(notes.castTo)).result.Ok? && fresh(r.value.store)
    ensures ProgramCheck(program, old(notes.typeHint), old(notes.castTo)).result.Ok? && program.Literal? ==>
              r.Ok? && r.value.payload == LiteralValue(program.literal)
    ensures var c := ProgramCheck(program, old(notes.typeHint), old(notes.castTo));
            c.result.Ok? && CallFree(program) ==>
              var v := Evaluation(program, globals, c.state.hints, Machine(map[], map[], c.state.next));
              (r.Ok? <==> v.result.Ok?) && (r.Err? ==> r.error == v.result.error)
              && (r.Ok? ==> r.value.payload == v.result.value && r.value.store.entries == v.machine.entries
                            && globals.bindings == v.machine.bindings)
  {
    var counter := new LocationCounter();
    var typeEnv := new Environment();
    var typeStore := new Store<Type>();
    var check := TypeOf(program, typeEnv, typeStore, notes, counter);
    globals := typeEnv;
    if check.Err? {
      return Err(check.error), globals;
    }
    var env := new Environment();
    var store := new Store<Value>();
    globals := env;
    r := Interpret(program, env, store, notes, counter, fuel);
  }

  /** `let f = (x) => f(x)`: the `let` of a function literal that calls itself. */
  function SelfCalling(letId: nat, fId: nat, funId: nat, xId: nat, callId: nat, readF: nat, readX: nat,
                       f: string, x: string): Node
  {
    Let(letId, Identifier(fId, f),
        FunctionExpression(funId, [Identifier(xId, x)], Apply(callId, Id(readF, f), [Id(readX, x)])))
  }

  /** A function that calls itself never passes the check of a tree without hints, so `Run`
      never evaluates one. The first attempt fails on the unbound name and the `let` is retried
      with the placeholder; the call through the placeholder then reads the hint of the `let`'s
      identifier, which the `let` writes only after the retry succeeds. */
  lemma SelfCallingRefused(letId: nat, fId: nat, funId: nat, xId: nat, callId: nat, readF: nat, readX: nat,
                           f: string, x: string, casts: map<nat, Type>)
    requires f != x && readF != fId
    ensures ProgramCheck(SelfCalling(letId, fId, funId, xId, callId, readF, readX, f, x), map[], casts).result
            == Err(TypeError("Cannot read the image of the identifier's missing hint"))
  {
    var program := SelfCalling(letId, fId, funId, xId, callId, readF, readX, f, x);
    var st := Checker(map[], map[], 0, map[], casts);
    var first := Typing(program.bound, st);
    SelfCallUnbound(funId, xId, callId, readF, readX, f, x, st);
    assert first.result == Err(ReferenceError(f));
    assert TypingLet(program, st) == TypingLetRetry(program, first.state);
    var retried := first.state.(bindings := map[f := 1], entries := map[0 := AnyType][1 := RecursiveType(Identifier(fId, f))],
                                next := 2);
    SelfCallThroughPlaceholder(funId, xId, callId, readF, readX, Identifier(fId, f), x, retried);
  }

  /** The first attempt: inside the literal's body the name is not bound yet. */
  lemma SelfCallUnbound(funId: nat, xId: nat, callId: nat, readF: nat, readX: nat, f: string, x: string,
                        st: Checker)
    requires f != x && st.bindings == map[] && st.entries == map[] && st.next == 0 && st.hints == map[]
    ensures var o := Typing(FunctionExpression(funId, [Identifier(xId, x)], Apply(callId, Id(readF, f), [Id(readX, x)])), st);
            o.result == Err(ReferenceError(f)) && o.state == st.(entries := map[0 := AnyType], next := 1)
  {
    var ps := [Identifier(xId, x)];
    var call := Apply(callId, Id(readF, f), [Id(readX, x)]);
    assert ps[..0] == [];
    assert BindAll(map[], ps[..0], 0) == map[];
    assert BindAll(map[], ps, 0) == map[x := 0];
    assert Filled(map[], 0, 0, AnyType) == map[];
    assert Filled(map[], 0, 1, AnyType) == map[0 := AnyType];
    var inner := st.(bindings := map[x := 0], entries := map[0 := AnyType], next := 1);
    assert Typing(Id(readF, f), inner) == Outcome(Err(ReferenceError(f)), inner);
    assert Typing(call, inner) == Outcome(Err(ReferenceError(f)), inner);
  }

  /** The retry: the name holds the placeholder, and the call through it finds no hint on the
      placeholder's identifier. */
  lemma SelfCallThroughPlaceholder(funId: nat, xId: nat, callId: nat, readF: nat, readX: nat, fIdent: Identifier,
                                   x: string, s: Checker)
    requires fIdent.name != x && readF != fIdent.nid && HintIn(s.hints, fIdent.nid).None? && CheckerSemantics.Issued(s.entries, s.next)
    requires fIdent.name in s.bindings && s.bindings[fIdent.name] in s.entries
    requires s.entries[s.bindings[fIdent.name]] == RecursiveType(fIdent)
    ensures Typing(FunctionExpression(funId, [Identifier(xId, x)], Apply(callId, Id(readF, fIdent.name), [Id(readX, x)])), s).result
            == Err(TypeError("Cannot read the image of the identifier's missing hint"))
  {
    var ps := [Identifier(xId, x)];
    assert ps[..0] == [];
    assert BindAll(s.bindings, ps[..0], s.next) == s.bindings;
    assert Filled(s.entries, s.next, 0, AnyType) == s.entries;
    assert s.bindings[fIdent.name] < s.next;
    assert BindAll(s.bindings, ps, s.next) == s.bindings[x := s.next];
    assert Filled(s.entries, s.next, 1, AnyType) == s.entries[s.next := AnyType];
    var inner := s.(bindings := s.bindings[x := s.next], entries := s.entries[s.next := AnyType], next := s.next + 1);
    var call := Apply(callId, Id(readF, fIdent.name), [Id(readX, x)]);
    PlaceholderCallRefused(callId, readF, readX, fIdent, x, inner);
    assert TypingFunction(FunctionExpression(funId, ps, call), s).result == Typing(call, inner).result;
  }

  /** A call through a name that holds the placeholder, whose identifier has no hint. */
  lemma PlaceholderCallRefused(callId: nat, readF: nat, readX: nat, fIdent: Identifier, x: string, s: Checker)
    requires readF != fIdent.nid && HintIn(s.hints, fIdent.nid).None?
    requires fIdent.name in s.bindings && s.bindings[fIdent.name] in s.entries
    requires s.entries[s.bindings[fIdent.name]] == RecursiveType(fIdent)
    ensures Typing(Apply(callId, Id(readF, fIdent.name), [Id(readX, x)]), s).result
            == Err(TypeError("Cannot read the image of the identifier's missing hint"))
  {
    var call := Apply(callId, Id(readF, fIdent.name), [Id(readX, x)]);
    var placeholder := RecursiveType(fIdent);
    var target := Typing(Id(readF, fIdent.name), s);
    assert target == Outcome(Ok(Verdict(placeholder, None)), s.(hints := s.hints[readF := placeholder]));
    assert TypingRecursiveCall(call, target.state, placeholder).result
           == Err(TypeError("Cannot read the image of the identifier's missing hint"));
  }
}
