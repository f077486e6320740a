/** `emit_shim` (`generate/shim.rs`): the JavaScript function behind one import takes the
    wasm parameters and makes the arguments of the real call out of them. Parameters are
    known by their places, `p0`, `p1` and so on. */
module ImportShims {
  import opened Wrappers
  import opened RustTypes
  import opened WasmAbi
  import opened ImportLanguage
  import E = ExportParser
  import P = ImportParser
  import M = ImportMacro
  import IM = ImportMeaning
  import IA = ImportAgreement

  datatype JsExpr =
    | Text(ptr: nat, len: nat)
    | ByteView(ptr: nat, len: nat)
    | TypedView(elem: P.SliceElem, ptr: nat, len: nat)
    | Objects(ptr: nat, len: nat)
    | AsIs(p: nat)
    | Unsigned32(p: nat)        // p >>> 0
    | Unsigned64(p: nat)        // BigInt.asUintN(64, p)
    | Truth(p: nat)
    | Object(p: nat)            // __wl_obj(p)
    | Undefined
    | IfPresent(disc: nat, payload: JsExpr)

  /** An expression, and how many parameters have been taken when it is made. */
  datatype Made = Made(expr: JsExpr, params: nat)

  function MarshalPayload(p: E.Payload, next: nat): Made {
    match p
    case Unit => Made(Undefined, next)
    case U32 => Made(Unsigned32(next), next + 1)
    case Bool => Made(Truth(next), next + 1)
    case Handle => Made(Object(next), next + 1)
    case Str => Made(Text(next, next + 1), next + 2)
    case Bytes => Made(ByteView(next, next + 1), next + 2)
    case _ => Made(AsIs(next), next + 1)
  }

  function Marshal(arg: P.AbiArg, next: nat): Made {
    match arg
    case Str => Made(Text(next, next + 1), next + 2)
    case Bytes => Made(ByteView(next, next + 1), next + 2)
    case Slice(elem) => Made(TypedView(elem, next, next + 1), next + 2)
    case I64 => Made(AsIs(next), next + 1)
    case U64 => Made(Unsigned64(next), next + 1)
    case Handles => Made(Objects(next, next + 1), next + 2)
    case Bool => Made(Truth(next), next + 1)
    case Num => Made(AsIs(next), next + 1)
    case U32 => Made(Unsigned32(next), next + 1)
    case Handle => Made(Object(next), next + 1)
    case Opt(p) =>
      var payload := MarshalPayload(p, next + 1);
      Made(IfPresent(next, payload.expr), payload.params)
  }

  /** All arguments, one after the other, and the number of parameters they take. */
  datatype AllMade = AllMade(exprs: seq<JsExpr>, params: nat)

  function MarshalAll(args: seq<P.AbiArg>): AllMade {
    if args == [] then AllMade([], 0)
    else
      var before := MarshalAll(args[..|args| - 1]);
      var last := Marshal(args[|args| - 1], before.params);
      AllMade(before.exprs + [last.expr], last.params)
  }

  predicate PeelsReceiver(kind: P.Kind) {
    kind == P.Method || kind == P.Getter || kind == P.Setter || kind == P.IndexGet || kind == P.IndexSet ||
    kind == P.IndexDelete || kind == P.InstanceOf
  }

  /** What the emitted call is put together from. */
  datatype Parts = Parts(params: nat, receiver: Option<JsExpr>, jsArgs: seq<JsExpr>)

  function PartsOf(kind: P.Kind, args: seq<P.AbiArg>): Parts {
    var all := MarshalAll(args);
    if PeelsReceiver(kind) && all.exprs != [] then Parts(all.params, Some(all.exprs[0]), all.exprs[1..])
    else Parts(all.params, None, all.exprs)
  }

  lemma NextMade(args: seq<P.AbiArg>, i: nat)
    requires i < |args|
    ensures var before := MarshalAll(args[..i]); var last := Marshal(args[i], before.params);
      MarshalAll(args[..i + 1]) == AllMade(before.exprs + [last.expr], last.params)
  {
    assert args[..i + 1][..i] == args[..i];
  }

  lemma NoneMade()
    ensures MarshalAll([]) == AllMade([], 0)
  {
  }

  /** The argument loop of `emit_shim`. */
  method EmitArguments(kind: P.Kind, args: seq<P.AbiArg>) returns (parts: Parts)
    ensures parts == PartsOf(kind, args)
  {
    hide Marshal, MarshalAll, PeelsReceiver;
    NoneMade();
    assert args[..0] == [];
    var params: nat, receiver: Option<JsExpr>, jsArgs: seq<JsExpr> := 0, None, [];
    for i := 0 to |args|
      invariant Parts(params, receiver, jsArgs) == PartsOf(kind, args[..i])
      invariant |MarshalAll(args[..i]).exprs| == i
    {
      NextMade(args, i);
      ghost var before := MarshalAll(args[..i]);
      var made := Marshal(args[i], params);
      params := made.params;
      if i == 0 && PeelsReceiver(kind) {
        receiver := Some(made.expr);
      } else {
        jsArgs := jsArgs + [made.expr];
        assert i > 0 ==> (before.exprs + [made.expr])[1..] == before.exprs[1..] + [made.expr];
      }
    }
    assert args[..|args|] == args;
    return Parts(params, receiver, jsArgs);
  }

  /** How many positional arguments the call of a kind looks up. */
  function LookedUp(kind: P.Kind): nat {
    if kind == P.IndexSet then 2
    else if kind == P.Setter || kind == P.IndexGet || kind == P.IndexDelete then 1
    else 0
  }

  lemma {:induction false} OneExprEach(args: seq<P.AbiArg>)
    ensures |MarshalAll(args).exprs| == |args|
  {
    if args != [] {
      OneExprEach(args[..|args| - 1]);
    }
  }

  lemma ParsedHasShape(line: string)
    requires P.ParseLine(line).Ok?
    ensures var d := P.ParseLine(line).value; P.CheckShape(d.kind, d.args, d.ret, d.variadic)
  {
    hide P.CheckShape, P.KindFromTag, P.ParseArgs, P.ParseRet;
  }

  lemma ShapeHasParts(kind: P.Kind, args: seq<P.AbiArg>, ret: P.Ret, variadic: bool)
    requires P.CheckShape(kind, args, ret, variadic)
    ensures PeelsReceiver(kind) ==> args != [] && args[0] == P.Handle
    ensures !PeelsReceiver(kind) <==> kind == P.Function || kind == P.Constructor || kind == P.StaticGetter
    ensures LookedUp(kind) > 0 ==> PeelsReceiver(kind) && |args| == 1 + LookedUp(kind)
  {
  }

  /** The receiver and the positions `emit_shim` expects are there, and no others wanted,
      for every descriptor that parsed. */
  lemma ParsedShapesHaveTheirParts(line: string)
    requires P.ParseLine(line).Ok?
    ensures var d := P.ParseLine(line).value; var parts := PartsOf(d.kind, d.args);
      && (parts.receiver == None <==> d.kind == P.Function || d.kind == P.Constructor || d.kind == P.StaticGetter)
      && (parts.receiver.Some? ==> parts.receiver == Some(Object(0)) && |parts.jsArgs| == |d.args| - 1)
      && (parts.receiver == None ==> |parts.jsArgs| == |d.args|)
      && LookedUp(d.kind) <= |parts.jsArgs|
      && (LookedUp(d.kind) > 0 ==> |parts.jsArgs| == LookedUp(d.kind))
  {
    var d := P.ParseLine(line).value;
    ParsedHasShape(line);
    hide P.ParseLine;
    ShapeHasParts(d.kind, d.args, d.ret, d.variadic);
    hide P.CheckShape, MarshalAll, PeelsReceiver;
    OneExprEach(d.args);
    if PeelsReceiver(d.kind) {
      FirstExpr(d.args);
    }
  }

  lemma {:induction false} FirstExpr(args: seq<P.AbiArg>)
    requires args != []
    ensures MarshalAll(args).exprs != [] && MarshalAll(args).exprs[0] == Marshal(args[0], 0).expr
  {
    hide Marshal;
    if |args| > 1 {
      FirstExpr(args[..|args| - 1]);
    } else {
      assert args[..0] == [];
    }
  }

  // What the arguments are made into.

  /** What JavaScript is to get for an argument. */
  datatype JsType =
    | AString | AByteView | ATypedView(elem: P.SliceElem) | AnObject | SomeObjects | ABoolean | ANumber(name: string)
    | Maybe(of: JsType)

  /** An argument of this Rust type is that. */
  ghost predicate IsA(ty: Ty, t: JsType)
    decreases t
  {
    match t
    case AString => ty == Bare("String") || RefTo(ty, Bare("str"))
    case AByteView => RefTo(ty, Slice(Bare("u8")))
    case ATypedView(elem) => RefTo(ty, Slice(Bare(ElemTag(elem))))
    case AnObject => RefTo(ty, Bare("JsValue"))
    case SomeObjects => RefTo(ty, Slice(Bare("JsValue")))
    case ABoolean => ty == Bare("bool")
    case ANumber(name) => ty == Bare(name) && name in NUMBERS
    case Maybe(of) => exists inner :: Wraps(ty, "Option", inner) && !of.Maybe? && IsA(inner, of)
  }

  predicate Makes(e: JsExpr, t: JsType) {
    match t
    case AString => e.Text?
    case AByteView => e.ByteView?
    case ATypedView(elem) => e.TypedView? && e.elem == elem
    case AnObject => e.Object?
    case SomeObjects => e.Objects?
    case ABoolean => e.Truth?
    case ANumber(_) => e.AsIs? || e.Unsigned32? || e.Unsigned64?
    case Maybe(of) => e.IfPresent? && Makes(e.payload, of)
  }

  /** Through tag, line, reader and shim: an argument of any accepted type arrives as what
      its type says. */
  lemma ArrivesAsItsType(ty: Ty, t: JsType, next: nat)
    requires M.LowerArg(ty).Some? && IsA(ty, t)
    ensures P.ArgFromTag(M.LowerArg(ty).value.tag).Some?
    ensures Makes(Marshal(P.ArgFromTag(M.LowerArg(ty).value.tag).value, next).expr, t)
  {
    IA.ArgAgrees(ty);
    hide P.ArgFromTag, M.LowerArg;
    if t.Maybe? {
      var inner :| Wraps(ty, "Option", inner) && IsA(inner, t.of);
      GenericsAre(ty, "Option", inner, inner);
      OptionalMeans(inner, t.of, next + 1);
    } else {
      DirectMeans(ty, t);
    }
  }

  lemma DirectMeans(ty: Ty, t: JsType)
    requires IsA(ty, t) && !t.Maybe?
    ensures match t
      case AString => IM.ArgOf(ty) == Some(P.Str)
      case AByteView => IM.ArgOf(ty) == Some(P.Bytes)
      case ATypedView(elem) => IM.ArgOf(ty) == Some(P.Slice(elem))
      case AnObject => IM.ArgOf(ty) == Some(P.Handle)
      case SomeObjects => IM.ArgOf(ty) == Some(P.Handles)
      case ABoolean => IM.ArgOf(ty) == Some(P.Bool)
      case ANumber(name) => IsNumericName(name) && IM.ArgOf(ty) == Some(IM.NumericArg(name))
  {
    hide IM.NumericArg;
  }

  lemma OptionalMeans(inner: Ty, t: JsType, next: nat)
    requires IsA(inner, t) && !t.Maybe? && IM.OptionalArg(inner).Some?
    ensures Makes(MarshalPayload(IM.OptionalArg(inner).value, next).expr, t)
  {
  }

  // Numbers, by value.

  const WORD: int := 0x1_0000_0000
  const LONG: int := 0x1_0000_0000_0000_0000

  const INTEGERS: set<string> := NUMBERS - {"f32", "f64"}

  /** The values of an integer type, on a 32-bit target. */
  predicate Holds(name: string, v: int) {
    if name == "i8" then -0x80 <= v < 0x80
    else if name == "i16" then -0x8000 <= v < 0x8000
    else if name == "i32" || name == "isize" then -WORD / 2 <= v < WORD / 2
    else if name == "i64" then -LONG / 2 <= v < LONG / 2
    else if name == "u8" then 0 <= v < 0x100
    else if name == "u16" then 0 <= v < 0x10000
    else if name == "u32" || name == "usize" then 0 <= v < WORD
    else 0 <= v < LONG
  }

  /** A wasm integer as JavaScript sees it: signed, at its width. */
  function Crossing(name: string, v: int): int {
    var width := if name == "i64" || name == "u64" then LONG else WORD;
    if v >= width / 2 then v - width else v
  }

  /** What the expression makes of it. */
  function Seen(e: JsExpr, x: int): int {
    match e
    case Unsigned32(_) => x % WORD
    case Unsigned64(_) => x % LONG
    case _ => x
  }

  /** Every integer argument arrives with its value. */
  lemma IntegersArrive(name: string, v: int, next: nat)
    requires name in INTEGERS && Holds(name, v)
    ensures Makes(Marshal(IM.NumericArg(name), next).expr, ANumber(name))
    ensures Seen(Marshal(IM.NumericArg(name), next).expr, Crossing(name, v)) == v
  {
  }

  /** In an `Option`, exactly those do that are not in the upper half of a `u64`: there the
      shim passes the `BigInt` on as it is. */
  lemma OptionalIntegersArriveExactly(name: string, v: int, next: nat)
    requires name in INTEGERS && Holds(name, v)
    ensures Makes(MarshalPayload(IM.NumericPayload(name), next).expr, ANumber(name))
    ensures Seen(MarshalPayload(IM.NumericPayload(name), next).expr, Crossing(name, v)) == v <==>
      !(name == "u64" && v >= LONG / 2)
  {
  }

  lemma AnOptionalU64ArrivesNegative(next: nat)
    ensures Holds("u64", LONG / 2)
    ensures Seen(MarshalPayload(IM.NumericPayload("u64"), next).expr, Crossing("u64", LONG / 2)) == -LONG / 2
  {
  }

  // What the parameters are used as.

  /** What an expression does with a parameter. */
  datatype Use = AddressUse | LengthUse | IndexUse | NumberUse | BigIntUse | AnyUse

  /** A value of this kind is what that use needs. */
  predicate Serves(slot: Slot, use: Use) {
    match use
    case AddressUse => slot == Address
    case LengthUse => slot == Length
    case IndexUse => slot == Index
    case NumberUse => slot == Number
    case BigIntUse => slot == BigInt
    case AnyUse => slot == Number || slot == BigInt
  }

  /** Every parameter an expression takes, in the order it takes them. */
  function Uses(e: JsExpr): seq<(nat, Use)> {
    match e
    case Text(ptr, len) => [(ptr, AddressUse), (len, LengthUse)]
    case ByteView(ptr, len) => [(ptr, AddressUse), (len, LengthUse)]
    case TypedView(_, ptr, len) => [(ptr, AddressUse), (len, LengthUse)]
    case Objects(ptr, len) => [(ptr, AddressUse), (len, LengthUse)]
    case AsIs(p) => [(p, AnyUse)]
    case Unsigned32(p) => [(p, NumberUse)]
    case Unsigned64(p) => [(p, BigIntUse)]
    case Truth(p) => [(p, NumberUse)]
    case Object(p) => [(p, IndexUse)]
    case Undefined => []
    case IfPresent(disc, payload) => [(disc, NumberUse)] + Uses(payload)
  }

  function AllUses(exprs: seq<JsExpr>): seq<(nat, Use)> {
    if exprs == [] then [] else AllUses(exprs[..|exprs| - 1]) + Uses(exprs[|exprs| - 1])
  }

  /** The parameters from `first` on, each once and in turn, and what is in each serves. */
  ghost predicate Taken(uses: seq<(nat, Use)>, first: nat, slots: seq<Slot>) {
    |uses| == |slots| && forall k :: 0 <= k < |uses| ==> uses[k].0 == first + k && Serves(slots[k], uses[k].1)
  }

  lemma TakenBoth(a: seq<(nat, Use)>, b: seq<(nat, Use)>, first: nat, left: seq<Slot>, right: seq<Slot>)
    requires Taken(a, first, left) && Taken(b, first + |left|, right)
    ensures Taken(a + b, first, left + right)
  {
  }

  lemma PayloadIsTaken(p: E.Payload, next: nat)
    ensures Taken(Uses(MarshalPayload(p, next).expr), next, IM.PayloadSlots(p))
    ensures MarshalPayload(p, next).params == next + |IM.PayloadSlots(p)|
  {
  }

  lemma ArgIsTaken(arg: P.AbiArg, next: nat)
    ensures Taken(Uses(Marshal(arg, next).expr), next, IM.ArgSlots(arg))
    ensures Marshal(arg, next).params == next + |IM.ArgSlots(arg)|
  {
    if arg.Opt? {
      OptionIsTaken(arg.payload, next);
    }
  }

  lemma OptionIsTaken(p: E.Payload, next: nat)
    ensures Taken(Uses(Marshal(P.Opt(p), next).expr), next, IM.ArgSlots(P.Opt(p)))
    ensures Marshal(P.Opt(p), next).params == next + |IM.ArgSlots(P.Opt(p))|
  {
    hide MarshalPayload, IM.PayloadSlots;
    PayloadIsTaken(p, next + 1);
    TakenBoth([(next, NumberUse)], Uses(MarshalPayload(p, next + 1).expr), next, [Number], IM.PayloadSlots(p));
  }

  lemma {:induction false} ArgsAreTaken(args: seq<P.AbiArg>)
    ensures var all := MarshalAll(args);
      Taken(AllUses(all.exprs), 0, IA.AllSlots(args)) && all.params == |IA.AllSlots(args)|
  {
    hide Taken, Marshal, Uses, IM.ArgSlots;
    if args == [] {
      NothingTaken();
    } else {
      var init, arg := args[..|args| - 1], args[|args| - 1];
      ArgsAreTaken(init);
      var before := MarshalAll(init);
      var last := Marshal(arg, before.params);
      ArgIsTaken(arg, before.params);
      assert (before.exprs + [last.expr])[..|before.exprs|] == before.exprs;
      TakenBoth(AllUses(before.exprs), Uses(last.expr), 0, IA.AllSlots(init), IM.ArgSlots(arg));
    }
  }

  lemma NothingTaken()
    ensures Taken([], 0, [])
  {
  }

  lemma ServesWhatIsDeclared(uses: seq<(nat, Use)>, declared: seq<WasmTy>, slots: seq<Slot>, off: nat)
    requires Taken(uses, 0, slots) && |declared| == off + |slots| && SlotsOf(declared)[off..] == slots
    ensures forall k :: 0 <= k < |uses| ==> uses[k].0 == k && Serves(SlotOf(declared[off + k]), uses[k].1)
  {
    forall k | 0 <= k < |uses| ensures uses[k].0 == k && Serves(SlotOf(declared[off + k]), uses[k].1) {
      assert SlotsOf(declared)[off..][k] == SlotOf(declared[off + k]);
    }
  }

  /** Uses that take, after the buffer if there is one, everything that is declared. */
  ghost predicate UsesAll(uses: seq<(nat, Use)>, params: nat, declared: seq<WasmTy>, buffer: bool) {
    var off := if buffer then 1 else 0;
    && |declared| == off + params == off + |uses|
    && (buffer ==> SlotOf(declared[0]) == Address)
    && forall k :: 0 <= k < params ==> uses[k].0 == k && Serves(SlotOf(declared[off + k]), uses[k].1)
  }

  lemma TakenIsAll(uses: seq<(nat, Use)>, params: nat, declared: seq<WasmTy>, buffer: bool, slots: seq<Slot>)
    requires SlotsOf(declared) == (if buffer then [Address] else []) + slots
    requires Taken(uses, 0, slots) && params == |slots|
    ensures UsesAll(uses, params, declared, buffer)
  {
    var off := if buffer then 1 else 0;
    assert buffer ==> SlotsOf(declared)[0] == Address;
    assert SlotsOf(declared)[off..] == slots;
    ServesWhatIsDeclared(uses, declared, slots, off);
  }

  /** The whole way: the shim emitted for any binding the macro accepts takes as many
      parameters as the wasm import declares, the return buffer aside, uses each exactly
      once and in turn, and each as what its declared type delivers. */
  lemma ShimTakesWhatIsDeclared(modulePath: string, f: M.ImportFn)
    requires M.BuildFn(modulePath, f).Ok?
    ensures IM.Meaning(modulePath, f).Some?
    ensures var d := IM.Meaning(modulePath, f).value; var all := MarshalAll(d.args);
      UsesAll(AllUses(all.exprs), all.params, M.BuildFn(modulePath, f).value.externParams, IM.UsesBuffer(d.ret))
  {
    hide M.BuildFn, IM.Meaning, MarshalAll, AllUses, IA.AllSlots, SlotsOf, IA.ParamTotal, Taken, UsesAll, IM.UsesBuffer,
         IM.ResultSlot, IM.RetSlot;
    IA.SignatureAgrees(modulePath, f);
    var d := IM.Meaning(modulePath, f).value;
    ArgsAreTaken(d.args);
    TakenIsAll(AllUses(MarshalAll(d.args).exprs), MarshalAll(d.args).params, M.BuildFn(modulePath, f).value.externParams,
               IM.UsesBuffer(d.ret), IA.AllSlots(d.args));
  }
}

/** `emit_export` (`generate/export.rs`): the JavaScript function of one export takes the
    caller's arguments and passes wasm parameters made out of them. */
module ExportWrappers {
  import opened Wrappers
  import opened WasmAbi
  import E = ExportParser
  import X = ExportMacro
  import IM = ImportMeaning
  import XA = ExportAgreement

  /** One wasm argument, by the caller's argument it is made of. */
  datatype Given =
    | RetBuffer
    | AsGiven(i: nat)
    | PtrOf(i: nat) | LenOf(i: nat)
    | IndexOf(i: nat)           // __wl_add
    | Present(i: nat)
    | OrZero(i: nat) | OrZeroBig(i: nat) | TruthOrZero(i: nat)

  function PassPayload(p: E.Payload, i: nat): seq<Given> {
    match p
    case Unit => []
    case I64 => [OrZeroBig(i)]
    case U64 => [OrZeroBig(i)]
    case Bool => [TruthOrZero(i)]
    case Handle => [IndexOf(i)]
    case Str => [PtrOf(i), LenOf(i)]
    case Bytes => [PtrOf(i), LenOf(i)]
    case _ => [OrZero(i)]
  }

  function Pass(arg: E.ExportArg, i: nat): seq<Given> {
    match arg
    case NumArg => [AsGiven(i)]
    case StrArg => [PtrOf(i), LenOf(i)]
    case BytesArg => [PtrOf(i), LenOf(i)]
    case HandleArg => [IndexOf(i)]
    case OptArg(p) => [Present(i)] + PassPayload(p, i)
  }

  function PassAll(args: seq<E.ExportArg>): seq<Given> {
    if args == [] then [] else PassAll(args[..|args| - 1]) + Pass(args[|args| - 1], |args| - 1)
  }

  /** The argument loop of `emit_export`, and the buffer `sret_call` puts in front. */
  method EmitCall(args: seq<E.ExportArg>, ret: E.ExportRet) returns (wasmArgs: seq<Given>)
    ensures wasmArgs == (if XA.UsesBuffer(ret) then [RetBuffer] else []) + PassAll(args)
  {
    hide Pass;
    wasmArgs := [];
    for i := 0 to |args|
      invariant wasmArgs == PassAll(args[..i])
    {
      assert args[..i + 1][..i] == args[..i];
      wasmArgs := wasmArgs + Pass(args[i], i);
    }
    assert args[..|args|] == args;
    if ret.OptRet? || ret.ResRet? {
      wasmArgs := [RetBuffer] + wasmArgs;
    }
  }

  function GivenSlot(g: Given): Slot {
    match g
    case RetBuffer => Address
    case AsGiven(_) => Number
    case PtrOf(_) => Address
    case LenOf(_) => Length
    case IndexOf(_) => Index
    case Present(_) => Number
    case OrZero(_) => Number
    case OrZeroBig(_) => BigInt
    case TruthOrZero(_) => Number
  }

  function GivenSlots(gs: seq<Given>): (slots: seq<Slot>)
    ensures |slots| == |gs| && forall i :: 0 <= i < |gs| ==> slots[i] == GivenSlot(gs[i])
  {
    seq(|gs|, i requires 0 <= i < |gs| => GivenSlot(gs[i]))
  }

  lemma ArgIsPassed(arg: E.ExportArg, i: nat)
    ensures GivenSlots(Pass(arg, i)) == XA.ArgSlots(arg)
  {
    if arg.OptArg? {
      PayloadIsPassed(arg.payload, i);
      hide PassPayload, IM.PayloadSlots;
      assert GivenSlots([Present(i)] + PassPayload(arg.payload, i)) == [Number] + GivenSlots(PassPayload(arg.payload, i));
    }
  }

  lemma PayloadIsPassed(p: E.Payload, i: nat)
    ensures GivenSlots(PassPayload(p, i)) == IM.PayloadSlots(p)
  {
  }

  lemma {:induction false} ArgsArePassed(args: seq<E.ExportArg>)
    ensures GivenSlots(PassAll(args)) == XA.AllSlots(args)
  {
    hide Pass, XA.ArgSlots, GivenSlot;
    if args != [] {
      var init, last := args[..|args| - 1], args[|args| - 1];
      ArgsArePassed(init);
      ArgIsPassed(last, |init|);
      assert GivenSlots(PassAll(init) + Pass(last, |init|)) == GivenSlots(PassAll(init)) + GivenSlots(Pass(last, |init|));
    }
  }

  /** The caller's argument a wasm argument is made of. */
  function Source(g: Given): Option<nat> {
    if g == RetBuffer then None else Some(g.i)
  }

  lemma PassedFromOne(arg: E.ExportArg, i: nat)
    ensures forall g :: g in Pass(arg, i) ==> Source(g) == Some(i)
  {
  }

  lemma OnePassedMore(init: seq<E.ExportArg>, last: E.ExportArg)
    ensures PassAll(init + [last]) == PassAll(init) + Pass(last, |init|)
    ensures |PassAll(init)| == |XA.AllSlots(init)| && |PassAll(init + [last])| == |XA.AllSlots(init + [last])|
  {
    ArgsArePassed(init);
    ArgsArePassed(init + [last]);
    hide Pass, XA.ArgSlots, XA.AllSlots, GivenSlot;
    assert (init + [last])[..|init|] == init;
  }

  /** Each of them is made of the argument it stands for, the one in whose place it is. */
  lemma {:induction false} EachFromItsOwn(args: seq<E.ExportArg>, i: nat, k: nat)
    requires i < |args| && |XA.AllSlots(args[..i])| <= k < |XA.AllSlots(args[..i + 1])|
    ensures k < |PassAll(args)| && Source(PassAll(args)[k]) == Some(i)
  {
    hide Pass, PassAll, XA.AllSlots, Source;
    var init, last := args[..|args| - 1], args[|args| - 1];
    assert args == init + [last];
    OnePassedMore(init, last);
    if i == |init| {
      assert args[..i + 1] == args;
      PassedFromOne(last, i);
      assert PassAll(args)[k] == Pass(last, i)[k - |PassAll(init)|];
    } else {
      assert init[..i] == args[..i] && init[..i + 1] == args[..i + 1];
      EachFromItsOwn(init, i, k);
    }
  }

  /** The whole way: the wrapper emitted for any export the macro accepts passes exactly
      the parameters the entry point declares, each of the kind its declared type takes. */
  lemma WrapperPassesWhatIsDeclared(f: X.ExportFn)
    requires X.BuildExport(f).Ok?
    ensures XA.Meaning(f).Some?
    ensures var e := XA.Meaning(f).value;
      GivenSlots((if XA.UsesBuffer(e.ret) then [RetBuffer] else []) + PassAll(e.args)) == SlotsOf(X.BuildExport(f).value.params)
  {
    XA.SignatureAgrees(f);
    hide X.BuildExport, XA.Meaning, PassAll, XA.AllSlots, XA.ParamTotal;
    var e := XA.Meaning(f).value;
    ArgsArePassed(e.args);
    var front := if XA.UsesBuffer(e.ret) then [RetBuffer] else [];
    assert GivenSlots(front + PassAll(e.args)) == GivenSlots(front) + GivenSlots(PassAll(e.args));
  }
}
