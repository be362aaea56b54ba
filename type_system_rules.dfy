/** The pure judgements of the static checker (src/TypeSystem.js): integer promotion, the
    operator, literal and cast rules, the trivial argument check and the walk along a curried
    function type. The imperative traversal that applies them lives in module `TypeSystem`. */
module TypeRules {
  import opened Outcomes
  import opened Types
  import opened TypedArrays
  import opened InterpreterClasses

  /** `getGreaterDomain`: two concrete integer types of the same signedness promote to the
      wider one; anything else (mixed signedness, a generic marker) is refused. */
  function GreaterDomain(left: Type, right: Type): (r: Result<Type>)
    ensures r.Ok? <==> (IsSignedConcrete(left) && IsSignedConcrete(right))
                       || (IsUnsignedConcrete(left) && IsUnsignedConcrete(right))
    ensures r.Ok? ==> r.value == left || r.value == right
    ensures r.Ok? ==> Bits(r.value.width) >= Bits(left.width) && Bits(r.value.width) >= Bits(right.width)
    ensures r.Err? ==> r.error.PlainError?
  {
    if (IsSignedConcrete(left) && IsSignedConcrete(right)) || (IsUnsignedConcrete(left) && IsUnsignedConcrete(right)) then
      if Bits(left.width) >= Bits(right.width) then Ok(left) else Ok(right)
    else Err(PlainError("Implicit cast is not allowed"))
  }

  /** Promotion does not depend on the order of the operands. */
  lemma GreaterDomainSymmetric(a: Type, b: Type)
    ensures GreaterDomain(a, b) == GreaterDomain(b, a)
  {
    if GreaterDomain(a, b).Ok? && a.width == b.width {
      assert a == b;
    }
  }

  lemma ModulusMonotone(v: Width, w: Width)
    requires Bits(v) <= Bits(w)
    ensures Modulus(v) <= Modulus(w)
  {
  }

  /** Every value of either operand's type is a value of the promoted type, so promotion never
      loses information. */
  lemma GreaterDomainHoldsOperands(a: Type, b: Type, x: int)
    requires GreaterDomain(a, b).Ok?
    requires InRange(a.signed, a.width, x) || InRange(b.signed, b.width, x)
    ensures var g := GreaterDomain(a, b).value; InRange(g.signed, g.width, x)
  {
    var g := GreaterDomain(a, b).value;
    ModulusMonotone(a.width, g.width);
    ModulusMonotone(b.width, g.width);
  }

  /** The eager promotion the binary rule computes for two integer operands (null otherwise). */
  function OperandDomain(lt: Type, rt: Type): Result<Type> {
    if IsFixedInteger(lt) && IsFixedInteger(rt) then GreaterDomain(lt, rt) else Ok(Type.Undefined)
  }

  /** The binary-operator rule, in the source's order: `any` with `any` gives `any` and two
      strings give a string whatever the operator; the promotion of two integer operands is
      computed next and may refuse; `==` needs identical operand types, `∧`/`∨` two bools; an
      arithmetic node that already carries a hint takes the hint; `+`, `-`, `·` and `/` need
      two integer operands and give their promotion; `**` needs an integer base and gives its
      type. `hint` is the node's hint when the rule is applied. */
  function BinaryRule(op: BinaryOp, lt: Type, rt: Type, hint: Option<Type>): (r: Result<Type>)
    ensures r.Err? ==> r.error.TypeError? || r.error.PlainError?
  {
    if lt == AnyType && rt == AnyType then Ok(AnyType)
    else if lt == StringType && rt == StringType then Ok(StringType)
    else
      var greater := OperandDomain(lt, rt);
      if greater.Err? then Err(greater.error)
      else if op == Equals then
        if lt != rt then Err(TypeError("The operator \"==\" is not defined for these operands")) else Ok(BoolType)
      else if op == And || op == Or then
        if lt != BoolType || rt != BoolType then Err(TypeError("The operator is only defined for bools")) else Ok(BoolType)
      else if hint.Some? then Ok(hint.value)
      else if op == Power then
        if IsFixedInteger(lt) then Ok(lt) else Err(TypeError("The operator \"**\" is not defined for these operands"))
      else if IsFixedInteger(lt) && IsFixedInteger(rt) then Ok(greater.value)
      else Err(TypeError("The arithmetic operator is not defined for these operands"))
  }

  /** Whether applying the rule also writes the node's hint: every accepting branch does except
      the `any`/`any` one and an arithmetic node that already had a hint. */
  predicate BinaryWritesHint(op: BinaryOp, lt: Type, rt: Type, hint: Option<Type>) {
    !(lt == AnyType && rt == AnyType)
    && ((lt == StringType && rt == StringType) || !op.IsArithmetic() || hint.None?)
  }

  /** After an accepted binary node whose type is not `any`, the node carries its type as
      hint: either the rule writes it, or the rule answered the hint the node already had. */
  lemma BinaryRuleLeavesHint(op: BinaryOp, lt: Type, rt: Type, hint: Option<Type>)
    requires BinaryRule(op, lt, rt, hint).Ok? && BinaryRule(op, lt, rt, hint).value != AnyType
    requires hint.Some? ==> !hint.value.Undefined?
    ensures BinaryWritesHint(op, lt, rt, hint) ==> !BinaryRule(op, lt, rt, hint).value.Undefined?
    ensures !BinaryWritesHint(op, lt, rt, hint) ==> hint == Some(BinaryRule(op, lt, rt, hint).value)
  {
  }

  /** `==` accepts exactly two identical operand types (a generic marker cannot be promoted,
      so it is refused) and gives a bool, except for the two shortcuts. */
  lemma EqualsRule(lt: Type, rt: Type, hint: Option<Type>)
    requires !(lt == AnyType && rt == AnyType) && !(lt == StringType && rt == StringType)
    ensures BinaryRule(Equals, lt, rt, hint).Ok? <==> lt == rt && !lt.GenericInt?
    ensures BinaryRule(Equals, lt, rt, hint).Ok? ==> BinaryRule(Equals, lt, rt, hint).value == BoolType
  {
  }

  /** `∧` and `∨` accept exactly two bools and give a bool; the hint plays no part. */
  lemma BooleanRule(op: BinaryOp, lt: Type, rt: Type, hint: Option<Type>)
    requires op == And || op == Or
    requires !(lt == AnyType && rt == AnyType) && !(lt == StringType && rt == StringType)
    ensures BinaryRule(op, lt, rt, hint) == (if lt == BoolType && rt == BoolType then Ok(BoolType) else BinaryRule(op, lt, rt, None))
    ensures BinaryRule(op, lt, rt, hint).Ok? <==> lt == BoolType && rt == BoolType
  {
  }

  /** Without a hint, `+`, `-`, `·` and `/` accept two concrete integer types of one
      signedness and give their promotion (besides the two shortcuts). */
  lemma ArithmeticRule(op: BinaryOp, lt: Type, rt: Type)
    requires op in {Add, Subtract, Multiply, Divide}
    requires !(lt == AnyType && rt == AnyType) && !(lt == StringType && rt == StringType)
    ensures BinaryRule(op, lt, rt, None).Ok? <==> GreaterDomain(lt, rt).Ok?
    ensures BinaryRule(op, lt, rt, None).Ok? ==> BinaryRule(op, lt, rt, None) == GreaterDomain(lt, rt)
  {
  }

  /** Without a hint, `**` gives the base's type; because the promotion is computed before the
      operator is looked at, an integer exponent of the other signedness is refused. */
  lemma PowerRule(lt: Type, rt: Type)
    requires !(lt == AnyType && rt == AnyType) && !(lt == StringType && rt == StringType)
    ensures BinaryRule(Power, lt, rt, None).Ok? <==> IsFixedInteger(lt) && (IsFixedInteger(rt) ==> GreaterDomain(lt, rt).Ok?)
    ensures BinaryRule(Power, lt, rt, None).Ok? ==> BinaryRule(Power, lt, rt, None).value == lt
  {
  }

  /** An example of the eager promotion: `i8 ** u8` is refused although the base is an integer. */
  lemma PowerWithOtherSignednessRefused()
    ensures BinaryRule(Power, Int8Type, Uint8Type, None).Err?
  {
  }

  /** The string shortcut comes first, so every operator, `-` and `==` included, accepts two
      strings and gives a string. */
  lemma StringShortcut(op: BinaryOp, hint: Option<Type>)
    ensures BinaryRule(op, StringType, StringType, hint) == Ok(StringType)
  {
  }

  /** An arithmetic node with a hint takes the hint whenever the operands pass the checks that
      come before it. */
  lemma HintShortcut(op: BinaryOp, lt: Type, rt: Type, h: Type)
    requires op.IsArithmetic()
    requires !(lt == AnyType && rt == AnyType) && !(lt == StringType && rt == StringType)
    requires OperandDomain(lt, rt).Ok?
    ensures BinaryRule(op, lt, rt, Some(h)) == Ok(h)
  {
  }

  /** `¬` needs a bool operand and gives a bool. */
  function NotRule(t: Type): (r: Result<Type>)
    ensures r.Ok? <==> t == BoolType
    ensures r.Ok? ==> r.value == BoolType
    ensures r.Err? ==> r.error.TypeError?
  {
    if t != BoolType then Err(TypeError("The operator \"¬\" is not defined for this operand")) else Ok(BoolType)
  }

  /** The type tag of a literal, as the literal branch is meant to give it. */
  function LiteralType(lit: Literal): (t: Type)
    ensures lit.IntLiteral? ==> t == FixedInt(lit.signed, lit.width)
    ensures lit.StringLiteral? ==> t == StringType
    ensures lit.BoolLiteral? ==> t == BoolType
  {
    match lit
    case IntLiteral(s, w, _) => FixedInt(s, w)
    case StringLiteral(_) => StringType
    case BoolLiteral(_) => BoolType
  }

  /** The literal branch as written: the unsigned 16- and 32-bit cases test for the SIGNED
      value classes, which an unsigned literal is not, so such a literal falls through to the
      final "Unable to determine type" error. */
  function LiteralTypeAsWritten(lit: Literal): (r: Result<Type>)
    ensures r.Ok? ==> r.value == LiteralType(lit)
  {
    match lit
    case IntLiteral(s, w, _) =>
      if s || w == W8 then Ok(FixedInt(s, w)) else Err(TypeError("Unable to determine type"))
    case StringLiteral(_) => Ok(StringType)
    case BoolLiteral(_) => Ok(BoolType)
  }

  /** As written, a `u16` or `u32` literal is refused; every other literal gets its tag. */
  lemma UnsignedLiteralsRefusedAsWritten(lit: Literal)
    ensures LiteralTypeAsWritten(lit).Err? <==> lit.IntLiteral? && !lit.signed && lit.width != W8
  {
  }

  /** The type of a literal describes the value it evaluates to. */
  lemma LiteralTypeDescribesValue(lit: Literal)
    ensures TypeOfValue(LiteralValue(lit)) == LiteralType(lit)
  {
  }

  /** A function's domain: `[void]` when it has no parameters, otherwise one `any` per
      parameter. */
  function FunctionDomain(parameters: seq<Identifier>): (d: seq<Type>)
    ensures |parameters| == 0 ==> d == [VoidType]
    ensures |parameters| > 0 ==> |d| == |parameters| && forall i :: 0 <= i < |d| ==> d[i] == AnyType
  {
    if |parameters| == 0 then [VoidType] else seq(|parameters|, _ => AnyType)
  }

  /** A domain of exactly `[void]`. */
  predicate IsVoidDomain(d: seq<Type>) {
    |d| == 1 && d[0] == VoidType
  }

  /** A function's domain is void exactly when it has no parameters. */
  lemma FunctionDomainVoid(parameters: seq<Identifier>)
    ensures IsVoidDomain(FunctionDomain(parameters)) <==> |parameters| == 0
  {
    if |parameters| > 0 {
      assert FunctionDomain(parameters)[0] == AnyType;
    }
  }

  /** `valueMatchesType`: `any` accepts every argument; a literal matches its own tag; a
      function literal matches a function type whose domain gives `any` to each of its
      parameters (each parameter is checked against `domain[i]`, which only `any` accepts for
      a parameter node); every other argument is refused. */
  function ValueMatchesType(arg: Node, t: Type): (b: bool)
    ensures t == AnyType ==> b
    ensures t.Undefined? ==> !b
  {
    t == AnyType
    || (arg.Literal? && t == LiteralType(arg.literal))
    || (arg.FunctionExpression? && t.FunctionType?
        && forall i :: 0 <= i < |arg.parameters| ==> i < |t.domain| && t.domain[i] == AnyType)
  }

  /** A literal argument matches exactly `any` and its own tag; an argument that is neither a
      literal nor a function literal matches only `any`. */
  lemma ValueMatchesTypeCases(arg: Node, t: Type)
    ensures arg.Literal? ==> (ValueMatchesType(arg, t) <==> t == AnyType || t == LiteralType(arg.literal))
    ensures !arg.Literal? && !arg.FunctionExpression? ==> (ValueMatchesType(arg, t) <==> t == AnyType)
  {
  }

  /** The walk along a curried function type for the expected type of argument `i` when the
      target's own domain is too short: skip whole domains while `i` lies beyond them, then read
      `domain[currentIndex - i]`, which is the domain's first entry when `i` is exactly
      `currentIndex` and undefined otherwise. A node without a domain ends the walk with an
      error; an undefined node cannot be destructured. */
  function ChainLookup(node: Type, currentIndex: int, i: nat): (r: Result<Type>)
    decreases node
  {
    if node.Undefined? then Err(TypeError("Cannot destructure undefined"))
    else if !node.FunctionType? then Err(PlainError("More arguments specified than formal parameters available"))
    else if i > currentIndex + |node.domain| - 1 then ChainLookup(node.image, currentIndex + |node.domain|, i)
    else Ok(if 0 <= currentIndex - i < |node.domain| then node.domain[currentIndex - i] else Type.Undefined)
  }

  /** The same walk reading the entry the argument position points at, `domain[i - currentIndex]`. */
  function ChainLookupByOffset(node: Type, currentIndex: int, i: nat): (r: Result<Type>)
    decreases node
  {
    if node.Undefined? then Err(TypeError("Cannot destructure undefined"))
    else if !node.FunctionType? then Err(PlainError("More arguments specified than formal parameters available"))
    else if i > currentIndex + |node.domain| - 1 then ChainLookupByOffset(node.image, currentIndex + |node.domain|, i)
    else Ok(if 0 <= i - currentIndex < |node.domain| then node.domain[i - currentIndex] else Type.Undefined)
  }

  /** The walk as written fails exactly when the walk by offset fails, and otherwise finds
      either the same entry or undefined (which no argument matches): only the first parameter
      of a later function in the chain can be reached. */
  lemma {:induction false} ChainLookupReachesOnlyFirstEntries(node: Type, currentIndex: int, i: nat)
    requires currentIndex <= i
    ensures ChainLookup(node, currentIndex, i).Err? <==> ChainLookupByOffset(node, currentIndex, i).Err?
    ensures ChainLookup(node, currentIndex, i).Ok? ==>
              ChainLookup(node, currentIndex, i) == ChainLookupByOffset(node, currentIndex, i)
              || ChainLookup(node, currentIndex, i).value == Type.Undefined
    decreases node
  {
    if node.FunctionType? && i > currentIndex + |node.domain| - 1 {
      ChainLookupReachesOnlyFirstEntries(node.image, currentIndex + |node.domain|, i);
    }
  }

  /** `(x) => (y, z) => …` applied to three arguments: the third argument's expected type is
      undefined as written, although the function it belongs to takes `any` there. */
  lemma ChainLookupMissesSecondParameter(body: Type)
    ensures var f := FunctionType([AnyType], FunctionType([AnyType, AnyType], body));
            ChainLookup(f, 0, 2) == Ok(Type.Undefined) && ChainLookupByOffset(f, 0, 2) == Ok(AnyType)
  {
  }

  /** The `image` member of a type: a function type's image; other type objects have none
      (undefined); undefined itself has no members. */
  function ImageOf(t: Type): (r: Result<Type>)
    ensures r.Err? <==> t.Undefined?
    ensures t.FunctionType? ==> r == Ok(t.image)
  {
    if t.Undefined? then Err(TypeError("Cannot read properties of undefined"))
    else if t.FunctionType? then Ok(t.image)
    else Ok(Type.Undefined)
  }

  /** `.image` taken `k` times, one member read after another as the source's loop does. */
  function Images(t: Type, k: nat): (r: Result<Type>)
    decreases k
  {
    if k == 0 then Ok(t)
    else
      var previous :- Images(t, k - 1);
      ImageOf(previous)
  }

  /** Once a member read fails, every later one fails with the same error. */
  lemma {:induction false} ImagesErrorPersists(t: Type, j: nat, k: nat)
    requires j <= k && Images(t, j).Err?
    ensures Images(t, k) == Images(t, j)
    decreases k
  {
    if k > j {
      ImagesErrorPersists(t, j, k - 1);
    }
  }

  /** `d0 => d1 => … => last`, one parameter per layer. */
  function Curried(ds: seq<Type>, last: Type): (t: Type)
    ensures |ds| > 0 ==> t.FunctionType? && t.domain == [ds[0]]
    decreases |ds|
  {
    if |ds| == 0 then last else FunctionType([ds[0]], Curried(ds[1..], last))
  }

  /** Taking `k` images of a curried type strips its first `k` layers. */
  lemma {:induction false} ImagesOfCurried(ds: seq<Type>, last: Type, k: nat)
    requires k <= |ds|
    ensures Images(Curried(ds, last), k) == Ok(Curried(ds[k..], last))
    decreases k
  {
    if k > 0 {
      ImagesOfCurried(ds, last, k - 1);
      assert ds[k - 1..][1..] == ds[k..];
    }
  }

  /** The expected type of argument `i`: the target domain's entry, or, when that entry is
      missing, the result of the walk along the target's type. A missing domain (a hint that is
      not a function type) cannot be indexed. */
  function ExpectedAt(domain: Option<seq<Type>>, target: Type, i: nat): (r: Result<Type>)
    ensures domain.Some? && i < |domain.value| && !domain.value[i].Undefined? ==> r == Ok(domain.value[i])
    ensures domain.None? ==> r.Err?
  {
    if domain.None? then Err(TypeError("Cannot read properties of undefined"))
    else if i < |domain.value| && !domain.value[i].Undefined? then Ok(domain.value[i])
    else ChainLookup(target, 0, i)
  }

  /** The type of a call with `n` arguments that all matched: the image, or, when the image has
      an image of its own, the image with `n - 1` further images taken. */
  function ApplyResult(image: Type, n: nat): (r: Result<Type>)
    requires n > 0
  {
    var imageImage :- ImageOf(image);
    if imageImage.Undefined? then Ok(image) else Images(image, n - 1)
  }

  /** A call with one argument has the image as its type; a call of a curried function with
      one argument per layer has the type past the last layer (`image` is the target's image,
      the curried rest of the layers). */
  lemma ApplyResultCases(image: Type, ds: seq<Type>, last: Type)
    requires !image.Undefined? && !last.Undefined?
    requires |ds| > 1
    ensures ApplyResult(image, 1) == Ok(image)
    ensures ApplyResult(Curried(ds[1..], last), |ds|) == Ok(last)
  {
    var rest := ds[1..];
    ImagesOfCurried(rest, last, |rest|);
    assert rest[|rest|..] == [];
    if |rest| > 1 {
      assert Curried(rest, last).image == Curried(rest[1..], last);
      assert !Curried(rest[1..], last).Undefined?;
    }
  }

  /** The cast rule: a cast to the source's own type stands; between two integer types the
      generic markers resolve to the source's signed or unsigned counterpart; from a string to
      an integer type the markers become the 32-bit types; every other pair is refused. */
  function CastRule(source: Type, target: Type): (r: Result<Type>)
    ensures target == source ==> r == Ok(target)
    ensures r.Ok? ==> r.value == target || (target.GenericInt? && IsFixedInteger(r.value) && r.value.signed == target.signed)
    ensures r.Ok? && target != source ==> r.value.FixedInt? || r.value.GenericInt?
    ensures r.Ok? <==> target == source
                       || (IsFixedInteger(source) && IsFixedInteger(target)
                           && !(target == IntType && source == UintType) && !(target == UintType && source == IntType))
                       || (source == StringType && IsFixedInteger(target))
  {
    if target == source then Ok(target)
    else if IsFixedInteger(source) && IsFixedInteger(target) then
      if target == UintType then MakeUnsigned(source)
      else if target == IntType then MakeSigned(source)
      else Ok(target)
    else if source == StringType && IsFixedInteger(target) then
      if target == UintType then Ok(Uint32Type)
      else if target == IntType then Ok(Int32Type)
      else Ok(target)
    else Err(TypeError("Can not cast"))
  }

  /** A cast from a concrete integer type always yields a concrete integer type: `i?` and `u?`
      take the source's width. */
  lemma CastResolvesGenericMarkers(source: Type, target: Type)
    requires source.FixedInt? && IsFixedInteger(target)
    ensures CastRule(source, target).Ok?
    ensures CastRule(source, target).value.FixedInt?
    ensures target.GenericInt? ==> CastRule(source, target).value == FixedInt(target.signed, source.width)
  {
  }

  /** A string casts to every integer type, the markers resolving to 32 bits. */
  lemma CastFromString(target: Type)
    requires IsFixedInteger(target)
    ensures CastRule(StringType, target) == Ok(if target.GenericInt? then FixedInt(target.signed, W32) else target)
  {
  }
}
