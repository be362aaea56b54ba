/** The static type tags shared by the checker and the evaluator (src/Types.js), with the
    signed/unsigned counterpart table and the generic `i?`/`u?` markers of the newer copy
    (src/language/Types.js). The source represents each tag as a class; the model flattens
    the fixed-size integer classes into one constructor carrying signedness and width. */
module Types {
  import opened Outcomes

  /** The widths of the concrete fixed-size integer types. */
  datatype Width = W8 | W16 | W32

  function Bits(w: Width): (b: nat)
    ensures b == 8 || b == 16 || b == 32
  {
    match w
    case W8 => 8
    case W16 => 16
    case W32 => 32
  }

  /** An identifier node as a binder (a `let` name or a function parameter): the node's
      identity and the name it carries. */
  datatype Identifier = Identifier(nid: nat, name: string)

  datatype Type =
    | AnyType
    | VoidType
    | BoolType
    | StringType
    /** `FunctionType`: a domain (one entry per parameter, or `[void]`) and an image. */
    | FunctionType(domain: seq<Type>, image: Type)
    /** `RecursiveType`: the placeholder for a function that refers to itself; it keeps the
        identifier node it stands for. */
    | RecursiveType(identifier: Identifier)
    /** `Int8Type` ... `Uint32Type`. */
    | FixedInt(signed: bool, width: Width)
    /** `IntType` (`i?`) and `UintType` (`u?`): a signedness without a width. */
    | GenericInt(signed: bool)
    /** JavaScript's `undefined` where a type is expected: the type of an empty block, of a
        store entry that is missing, or of a member a type object does not have. */
    | Undefined

  const Int8Type := FixedInt(true, W8)
  const Int16Type := FixedInt(true, W16)
  const Int32Type := FixedInt(true, W32)
  const Uint8Type := FixedInt(false, W8)
  const Uint16Type := FixedInt(false, W16)
  const Uint32Type := FixedInt(false, W32)
  const IntType := GenericInt(true)
  const UintType := GenericInt(false)

  /** `FixedIntegerType.isPrototypeOf(t)`: every integer tag below `FixedIntegerType`,
      the generic markers included. */
  predicate IsFixedInteger(t: Type) {
    t.FixedInt? || t.GenericInt?
  }

  /** `IntType.isPrototypeOf(t)`: the concrete signed types (`IntType` itself is excluded). */
  predicate IsSignedConcrete(t: Type) {
    t.FixedInt? && t.signed
  }

  /** `UintType.isPrototypeOf(t)`: the concrete unsigned types. */
  predicate IsUnsignedConcrete(t: Type) {
    t.FixedInt? && !t.signed
  }

  /** `makeSigned`: a signed-family type answers itself; a concrete unsigned type answers its
      counterpart from the table set at module load; `u?` has no counterpart and throws. */
  function MakeSigned(t: Type): (r: Result<Type>)
    requires IsFixedInteger(t)
    ensures r.Err? <==> t == UintType
    ensures r.Ok? ==> IsFixedInteger(r.value) && r.value.signed
    ensures r.Ok? && t.FixedInt? ==> r.value.FixedInt? && r.value.width == t.width
    ensures r.Ok? && t.GenericInt? ==> r.value == t
  {
    if t.signed then Ok(t)
    else if t.FixedInt? then Ok(FixedInt(true, t.width))
    else Err(PlainError("Unable to make \"u?\" signed"))
  }

  /** `makeUnsigned`: the mirror image of `MakeSigned`; `i?` throws. */
  function MakeUnsigned(t: Type): (r: Result<Type>)
    requires IsFixedInteger(t)
    ensures r.Err? <==> t == IntType
    ensures r.Ok? ==> IsFixedInteger(r.value) && !r.value.signed
    ensures r.Ok? && t.FixedInt? ==> r.value.FixedInt? && r.value.width == t.width
    ensures r.Ok? && t.GenericInt? ==> r.value == t
  {
    if !t.signed then Ok(t)
    else if t.FixedInt? then Ok(FixedInt(false, t.width))
    else Err(PlainError("Unable to make \"i?\" unsigned"))
  }

  /** Going to the signed counterpart and back returns every concrete unsigned type,
      and symmetrically for the signed types. */
  lemma CounterpartRoundTrip(t: Type)
    requires t.FixedInt?
    ensures !t.signed ==> MakeSigned(t).Ok? && MakeUnsigned(MakeSigned(t).value) == Ok(t)
    ensures t.signed ==> MakeUnsigned(t).Ok? && MakeSigned(MakeUnsigned(t).value) == Ok(t)
  {
  }

  function WidthText(w: Width): string {
    match w
    case W8 => "8"
    case W16 => "16"
    case W32 => "32"
  }

  /** `inspect`/`toString` of a type: `any`, `void`, `bool`, `string`; abbreviation plus
      width for the integers (`?` for the generic markers); `∞ {name}` for a placeholder;
      `domain => image` for a function, the domain in brackets only when it has more than
      one entry. */
  function Inspect(t: Type): string
    decreases t, 1
  {
    match t
    case AnyType => "any"
    case VoidType => "void"
    case BoolType => "bool"
    case StringType => "string"
    case FixedInt(s, w) => (if s then "i" else "u") + WidthText(w)
    case GenericInt(s) => (if s then "i" else "u") + "?"
    case RecursiveType(id) => "∞ {" + id.name + "}"
    case FunctionType(d, im) =>
      (if |d| > 1 then "[" + Join(d, ", ") + "]" else Join(d, ",")) + " => " + Inspect(im)
    case Undefined => "undefined"
  }

  /** `Array.prototype.join`: an undefined entry contributes the empty string. */
  function Join(ds: seq<Type>, separator: string): string
    decreases ds, 0
  {
    if |ds| == 0 then ""
    else
      var head := if ds[0].Undefined? then "" else Inspect(ds[0]);
      if |ds| == 1 then head else head + separator + Join(ds[1..], separator)
  }

  /** Distinct integer tags print differently, so the printed form identifies the tag. */
  lemma InspectIntegerInjective(a: Type, b: Type)
    requires IsFixedInteger(a) && IsFixedInteger(b)
    ensures Inspect(a) == Inspect(b) <==> a == b
  {
    if a.signed != b.signed {
      assert Inspect(a)[0] != Inspect(b)[0];
    } else if a.FixedInt? != b.FixedInt? {
      assert Inspect(a)[1] != Inspect(b)[1];
    } else if a.FixedInt? && a.width != b.width {
      assert Inspect(a)[1] != Inspect(b)[1] || |Inspect(a)| != |Inspect(b)|;
    }
  }
}
