/** How the macros see a Rust type, and the classification in `ty.rs` that both of
    them share. A type is its syntax tree as far as the macros look at it. */
module RustTypes {
  import opened Wrappers
  import opened Text

  /** A path type is known by its last segment, as `simple_ident` takes it; `Other`
      stands for every syntax the macros never accept. */
  datatype Ty =
    | Path(qself: bool, name: string, args: seq<GenericArg>)
    | Ref(isStatic: bool, isMut: bool, elem: Ty)
    | Slice(elem: Ty)
    | Tuple(elems: seq<Ty>)
    | Other

  datatype GenericArg = TypeArg(ty: Ty) | OtherArg

  predicate IsIdent(ty: Ty, name: string) {
    ty.Path? && !ty.qself && ty.args == [] && ty.name == name
  }

  predicate IsJsValue(ty: Ty) { IsIdent(ty, "JsValue") }

  predicate IsRefJsValue(ty: Ty) { ty.Ref? && IsJsValue(ty.elem) }

  predicate IsStr(ty: Ty) { ty.Ref? && IsIdent(ty.elem, "str") }

  predicate IsMutRef(ty: Ty) { ty.Ref? && ty.isMut }

  predicate IsByteSlice(ty: Ty) { ty.Ref? && ty.elem.Slice? && IsIdent(ty.elem.elem, "u8") }

  predicate IsHandleSlice(ty: Ty) { ty.Ref? && ty.elem.Slice? && IsJsValue(ty.elem.elem) }

  predicate IsUnit(ty: Ty) { ty.Tuple? && ty.elems == [] }

  /** The inner type of `name<Inner>` with exactly one argument, a type. */
  function Generic1(ty: Ty, name: string): Option<Ty> {
    if ty.Path? && ty.name == name && |ty.args| == 1 && ty.args[0].TypeArg? then Some(ty.args[0].ty) else None
  }

  function TypeArgs(args: seq<GenericArg>): seq<Ty> {
    if args == [] then []
    else (if args[0].TypeArg? then [args[0].ty] else []) + TypeArgs(args[1..])
  }

  /** The two type arguments of `name<A, B>`, whatever else is between the brackets. */
  function Generic2(ty: Ty, name: string): Option<(Ty, Ty)> {
    if ty.Path? && ty.name == name && |TypeArgs(ty.args)| == 2
    then Some((TypeArgs(ty.args)[0], TypeArgs(ty.args)[1])) else None
  }

  predicate IsVecU8(ty: Ty) {
    Generic1(ty, "Vec").Some? && IsIdent(Generic1(ty, "Vec").value, "u8")
  }

  predicate IsNumericName(name: string) {
    name == "i8" || name == "i16" || name == "i32" || name == "i64" || name == "isize" ||
    name == "u8" || name == "u16" || name == "u32" || name == "u64" || name == "usize" ||
    name == "f32" || name == "f64"
  }

  /** The descriptor tag of a numeric type: its own name. */
  function Numeric(ty: Ty): Option<string> {
    if ty.Path? && !ty.qself && ty.args == [] && IsNumericName(ty.name) then Some(ty.name) else None
  }

  predicate IsSliceElemName(name: string) {
    name == "i8" || name == "i16" || name == "u16" || name == "i32" || name == "u32" ||
    name == "i64" || name == "u64" || name == "f32" || name == "f64"
  }

  /** `&[T]` for a numeric `T` that has a typed array of its own; not `u8`. */
  function NumericSlice(ty: Ty): Option<string> {
    if ty.Ref? && ty.elem.Slice? && ty.elem.elem.Path? && !ty.elem.elem.qself &&
       ty.elem.elem.args == [] && IsSliceElemName(ty.elem.elem.name)
    then Some(ty.elem.elem.name) else None
  }

  /** The tag of a type inside an `Option` or `Result` return. */
  function PayloadTag(ty: Ty): Option<string> {
    if IsUnit(ty) then Some("unit")
    else if Numeric(ty).Some? then Numeric(ty)
    else if IsIdent(ty, "bool") then Some("bool")
    else if IsJsValue(ty) then Some("handle")
    else if IsIdent(ty, "String") then Some("str")
    else if IsVecU8(ty) then Some("bytes")
    else None
  }

  /** An identifier without its `r#`. */
  function Unraw(name: string): string {
    if "r#" <= name then name[2..] else name
  }

  /** `plain` is what JavaScript is to know the identifier `name` by. */
  predicate PlainName(name: string, plain: string) {
    name == "r#" + plain || (name == plain && !(|name| >= 2 && name[0] == 'r' && name[1] == '#'))
  }

  lemma UnrawIsPlain(name: string, plain: string)
    ensures PlainName(name, plain) <==> plain == Unraw(name)
  {
    if plain == Unraw(name) && "r#" <= name {
      assert name == name[..2] + name[2..];
    }
    if name == "r#" + plain {
      assert name[0] == 'r' && name[1] == '#';
    }
  }

  // What the classification takes for what, written out as types.

  /** A type by its name alone, as `bool` or `String`. */
  function Bare(name: string): Ty { Path(false, name, []) }

  /** `name<inner>`, by whatever path. */
  predicate Wraps(ty: Ty, name: string, inner: Ty) {
    ty.Path? && ty == Path(ty.qself, name, [TypeArg(inner)])
  }

  predicate RefTo(ty: Ty, elem: Ty) {
    ty.Ref? && ty == Ref(ty.isStatic, ty.isMut, elem)
  }

  const NUMBERS: set<string> := {"i8", "i16", "i32", "i64", "isize", "u8", "u16", "u32", "u64", "usize", "f32", "f64"}

  /** Each class is these types and no others. */
  lemma ClassesAre(ty: Ty)
    ensures IsJsValue(ty) <==> ty == Bare("JsValue")
    ensures IsRefJsValue(ty) <==> RefTo(ty, Bare("JsValue"))
    ensures IsStr(ty) <==> RefTo(ty, Bare("str"))
    ensures IsByteSlice(ty) <==> RefTo(ty, Slice(Bare("u8")))
    ensures IsHandleSlice(ty) <==> RefTo(ty, Slice(Bare("JsValue")))
    ensures IsUnit(ty) <==> ty == Tuple([])
    ensures IsVecU8(ty) <==> Wraps(ty, "Vec", Bare("u8"))
  {
  }

  lemma NumbersAre(ty: Ty, name: string)
    ensures Numeric(ty) == Some(name) <==> ty == Bare(name) && name in NUMBERS
    ensures NumericSlice(ty) == Some(name) <==> RefTo(ty, Slice(Bare(name))) && name in NUMBERS - {"u8", "isize", "usize"}
  {
  }

  lemma GenericsAre(ty: Ty, name: string, a: Ty, b: Ty)
    ensures Generic1(ty, name) == Some(a) <==> Wraps(ty, name, a)
    ensures Generic2(ty, name) == Some((a, b)) <==> ty.Path? && ty.name == name && TypeArgs(ty.args) == [a, b]
    ensures TypeArgs([TypeArg(a), TypeArg(b)]) == [a, b]
  {
    assert [TypeArg(a), TypeArg(b)][1..] == [TypeArg(b)] && [TypeArg(b)][1..] == [];
    assert TypeArgs([TypeArg(b)]) == [b];
  }
}

/** What the macros declare a binding's wasm function with, and how JavaScript sees it. */
module WasmAbi {
  import opened Wrappers

  /** The Rust type of one flattened parameter, or of the result. */
  datatype WasmTy = ConstPtr | MutPtr | Usize | I32 | U32 | I64 | Scalar(name: string)

  /** What one argument becomes: its wasm parameters and its descriptor tag. */
  datatype Lowered = Lowered(params: seq<WasmTy>, tag: string)

  function Params(args: seq<Lowered>): seq<WasmTy> {
    if args == [] then [] else Params(args[..|args| - 1]) + args[|args| - 1].params
  }

  function Tags(args: seq<Lowered>): seq<string> {
    if args == [] then [] else Tags(args[..|args| - 1]) + [args[|args| - 1].tag]
  }

  /** What crosses there, as JavaScript has it: an address in wasm memory, a length, an
      index into the value table, any other Number, or a BigInt. */
  datatype Slot = Address | Length | Index | Number | BigInt

  function SlotOf(t: WasmTy): Slot {
    match t
    case ConstPtr => Address
    case MutPtr => Address
    case Usize => Length
    case I32 => Number
    case U32 => Index
    case I64 => BigInt
    case Scalar(name) => if name == "i64" || name == "u64" then BigInt else Number
  }

  function SlotsOf(ts: seq<WasmTy>): (slots: seq<Slot>)
    ensures |slots| == |ts| && forall i :: 0 <= i < |ts| ==> slots[i] == SlotOf(ts[i])
  {
    seq(|ts|, i requires 0 <= i < |ts| => SlotOf(ts[i]))
  }

  lemma SlotsOfBoth(a: seq<WasmTy>, b: seq<WasmTy>)
    ensures SlotsOf(a + b) == SlotsOf(a) + SlotsOf(b)
  {
  }

  /** A return buffer is one more address, in front. */
  lemma WithBuffer(buffer: bool, ts: seq<WasmTy>)
    ensures SlotsOf((if buffer then [MutPtr] else []) + ts) == (if buffer then [Address] else []) + SlotsOf(ts)
  {
    SlotsOfBoth(if buffer then [MutPtr] else [], ts);
  }
}
