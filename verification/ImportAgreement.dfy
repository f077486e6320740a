/** What an imported function means to the glue, said directly from its Rust
    signature; and the proof that the text between the macro and the code generator
    carries exactly that. */
module ImportMeaning {
  import opened Wrappers
  import opened Text
  import opened RustTypes
  import opened WasmAbi
  import E = ExportParser
  import P = ImportParser
  import M = ImportMacro

  /** A numeric type inside an `Option` or `Result`: pointer-sized ones are 32 bits. */
  function NumericPayload(name: string): E.Payload
    requires IsNumericName(name)
  {
    if name == "i8" then E.I8
    else if name == "i16" then E.I16
    else if name == "i32" || name == "isize" then E.I32
    else if name == "i64" then E.I64
    else if name == "u8" then E.U8
    else if name == "u16" then E.U16
    else if name == "u32" || name == "usize" then E.U32
    else if name == "u64" then E.U64
    else if name == "f32" then E.F32
    else E.F64
  }

  /** A numeric argument: only unsigned 32-bit and the 64-bit ones need care in JS. */
  function NumericArg(name: string): P.AbiArg
    requires IsNumericName(name)
  {
    if name == "u32" || name == "usize" then P.U32
    else if name == "i64" then P.I64
    else if name == "u64" then P.U64
    else P.Num
  }

  function ElemOf(name: string): P.SliceElem
    requires IsSliceElemName(name)
  {
    if name == "i8" then P.SI8
    else if name == "i16" then P.SI16
    else if name == "u16" then P.SU16
    else if name == "i32" then P.SI32
    else if name == "u32" then P.SU32
    else if name == "i64" then P.SI64
    else if name == "u64" then P.SU64
    else if name == "f32" then P.SF32
    else P.SF64
  }

  /** A type returned inside an `Option` or `Result`. */
  function PayloadOf(ty: Ty): Option<E.Payload> {
    if IsUnit(ty) then Some(E.Unit)
    else if Numeric(ty).Some? then Some(NumericPayload(ty.name))
    else if IsIdent(ty, "bool") then Some(E.Bool)
    else if IsJsValue(ty) then Some(E.Handle)
    else if IsIdent(ty, "String") then Some(E.Str)
    else if IsVecU8(ty) then Some(E.Bytes)
    else None
  }

  /** The inner type of an optional argument: it is borrowed. */
  function OptionalArg(inner: Ty): Option<E.Payload> {
    if IsStr(inner) then Some(E.Str)
    else if IsByteSlice(inner) then Some(E.Bytes)
    else if IsRefJsValue(inner) then Some(E.Handle)
    else if IsIdent(inner, "bool") then Some(E.Bool)
    else if Numeric(inner).Some? then Some(NumericPayload(inner.name))
    else None
  }

  function ArgOf(ty: Ty): Option<P.AbiArg> {
    var optional := Generic1(ty, "Option");
    if optional.Some? then
      var p := OptionalArg(optional.value);
      if p.Some? then Some(P.Opt(p.value)) else None
    else if IsStr(ty) || IsIdent(ty, "String") then Some(P.Str)
    else if IsByteSlice(ty) then Some(P.Bytes)
    else if IsHandleSlice(ty) then Some(P.Handles)
    else if NumericSlice(ty).Some? then Some(P.Slice(ElemOf(NumericSlice(ty).value)))
    else if IsRefJsValue(ty) then Some(P.Handle)
    else if IsIdent(ty, "bool") then Some(P.Bool)
    else if Numeric(ty).Some? then Some(NumericArg(ty.name))
    else None
  }

  function ArgsOf(params: seq<(string, Ty)>): Option<seq<P.AbiArg>> {
    if params == [] then Some([])
    else
      var before := ArgsOf(params[..|params| - 1]);
      var last := ArgOf(params[|params| - 1].1);
      if before.Some? && last.Some? then Some(before.value + [last.value]) else None
  }

  function RetOf(ret: Option<Ty>): Option<P.Ret> {
    if ret == None || IsUnit(ret.value) then Some(P.Void)
    else
      var ty := ret.value;
      var optional, result := Generic1(ty, "Option"), Generic2(ty, "Result");
      if IsJsValue(ty) then Some(P.HandleRet)
      else if IsIdent(ty, "String") then Some(P.StrRet)
      else if IsVecU8(ty) then Some(P.BytesRet)
      else if IsIdent(ty, "bool") || Numeric(ty).Some? then Some(P.Value(ty.name))
      else if optional.Some? then
        var p := PayloadOf(optional.value);
        if p.Some? then Some(P.OptRet(p.value)) else None
      else if result.Some? then
        var (okTy, errTy) := result.value;
        var err := PayloadOf(errTy);
        var nullable := Generic1(okTy, "Option");
        var ok := PayloadOf(if nullable.Some? then nullable.value else okTy);
        if ok == None || err == None then None
        else if nullable.Some? then Some(P.ResOptRet(ok.value, err.value))
        else Some(P.ResRet(ok.value, err.value))
      else None
  }

  function KindOf(f: M.ImportFn): P.Kind {
    if f.kind == None then (if M.HasReceiver(f.params) then P.Method else P.Function)
    else match f.kind.value
      case Getter => P.Getter
      case Setter => P.Setter
      case Constructor => P.Constructor
      case IndexingGetter => P.IndexGet
      case IndexingSetter => P.IndexSet
      case Instanceof => P.InstanceOf
      case StaticGetter => P.StaticGetter
      case IndexingDeleter => P.IndexDelete
  }

  /** The glue's view of one binding. */
  function Meaning(modulePath: string, f: M.ImportFn): Option<P.Descriptor> {
    var args, ret := ArgsOf(f.params), RetOf(f.ret);
    if args.Some? && ret.Some? then
      Some(P.Descriptor(KindOf(f), f.namespace, modulePath + "::" + f.name, M.JsName(f), args.value, ret.value, f.variadic))
    else None
  }

  /** What crosses for a payload: text and bytes as address and length. That the emitted
      glue uses it so is proved where the emitter is modelled. */
  function PayloadSlots(p: E.Payload): seq<Slot> {
    match p
    case Unit => []
    case Str => [Address, Length]
    case Bytes => [Address, Length]
    case Handle => [Index]
    case I64 => [BigInt]
    case U64 => [BigInt]
    case _ => [Number]
  }

  /** What crosses from wasm for an argument; an optional one has its discriminant first. */
  function ArgSlots(a: P.AbiArg): seq<Slot> {
    match a
    case Str => [Address, Length]
    case Bytes => [Address, Length]
    case Slice(_) => [Address, Length]
    case Handles => [Address, Length]
    case Handle => [Index]
    case I64 => [BigInt]
    case U64 => [BigInt]
    case Opt(p) => [Number] + PayloadSlots(p)
    case _ => [Number]
  }

  /** What comes back to wasm: text and bytes packed into one 64-bit number. */
  function RetSlot(ret: P.Ret): Option<Slot> {
    match ret
    case HandleRet => Some(Index)
    case StrRet => Some(BigInt)
    case BytesRet => Some(BigInt)
    case Value(name) => Some(if name == "i64" || name == "u64" then BigInt else Number)
    case _ => None
  }

  function ResultSlot(result: Option<WasmTy>): Option<Slot> {
    if result == None then None else Some(SlotOf(result.value))
  }

  /** As many as the reader counts. */
  lemma SlotsAreCounted(a: P.AbiArg)
    ensures |ArgSlots(a)| == P.ParamCount(a)
  {
  }

  predicate UsesBuffer(ret: P.Ret) {
    ret.OptRet? || ret.ResRet? || ret.ResOptRet?
  }
}

module ImportAgreement {
  import opened Wrappers
  import opened Text
  import opened RustTypes
  import opened WasmAbi
  import opened ImportMeaning
  import E = ExportParser
  import P = ImportParser
  import M = ImportMacro

  /** A tag never disturbs the fields of its line. */
  predicate Plain(tag: string) {
    forall i :: 0 <= i < |tag| ==> 'a' <= tag[i] <= 'z' || '0' <= tag[i] <= '9' || tag[i] == ':'
  }

  predicate Letters(tag: string) {
    tag != "" && forall i :: 0 <= i < |tag| ==> 'a' <= tag[i] <= 'z' || '0' <= tag[i] <= '9'
  }

  lemma NumericPayloadTag(name: string)
    requires IsNumericName(name)
    ensures Letters(name) && E.PayloadFromTag(name) == Some(NumericPayload(name))
  {
    hide P.ArgFromTag, NumericArg;
  }

  lemma NumericArgTag(name: string)
    requires IsNumericName(name)
    ensures P.ArgFromTag(name) == Some(NumericArg(name))
  {
    hide E.PayloadFromTag, NumericPayload, ElemOf;
  }

  lemma NumericSlots(name: string)
    requires IsNumericName(name)
    ensures PayloadSlots(NumericPayload(name)) == ArgSlots(NumericArg(name)) == [SlotOf(Scalar(name))]
  {
    hide E.PayloadFromTag, P.ArgFromTag;
  }

  lemma NumericTag(name: string)
    requires IsNumericName(name)
    ensures Letters(name)
    ensures E.PayloadFromTag(name) == Some(NumericPayload(name))
    ensures P.ArgFromTag(name) == Some(NumericArg(name))
    ensures PayloadSlots(NumericPayload(name)) == ArgSlots(NumericArg(name)) == [SlotOf(Scalar(name))]
  {
    hide IsNumericName, Letters, E.PayloadFromTag, NumericPayload, P.ArgFromTag, NumericArg, PayloadSlots, ArgSlots, SlotOf;
    NumericPayloadTag(name);
    NumericArgTag(name);
    NumericSlots(name);
  }

  lemma SliceTag(name: string)
    requires IsSliceElemName(name)
    ensures Plain("slice:" + name)
    ensures P.ArgFromTag("slice:" + name) == Some(P.Slice(ElemOf(name)))
  {
  }

  lemma OptTag(tag: string)
    requires Letters(tag) && E.PayloadFromTag(tag).Some?
    ensures Plain("opt:" + tag)
    ensures P.ArgFromTag("opt:" + tag) == Some(P.Opt(E.PayloadFromTag(tag).value))
  {
    hide E.PayloadFromTag;
    var s := "opt:" + tag;
    assert s[0] == 'o' && s[4..] == tag;
  }

  lemma PayloadTagMeans(ty: Ty)
    ensures PayloadTag(ty).Some? <==> PayloadOf(ty).Some?
    ensures PayloadTag(ty).Some? ==> Letters(PayloadTag(ty).value) && E.PayloadFromTag(PayloadTag(ty).value) == PayloadOf(ty)
  {
    hide E.PayloadFromTag, P.ArgFromTag, NumericPayload;
    FixedPayloads();
    if Numeric(ty).Some? {
      NumericTag(ty.name);
    }
  }

  lemma FixedTags()
    ensures P.ArgFromTag("str") == Some(P.Str) && P.ArgFromTag("bytes") == Some(P.Bytes)
    ensures P.ArgFromTag("bool") == Some(P.Bool) && P.ArgFromTag("handle") == Some(P.Handle)
    ensures P.ArgFromTag("handles") == Some(P.Handles)
    ensures Plain("str") && Plain("bytes") && Plain("bool") && Plain("handle") && Plain("handles")
  {
  }

  lemma LettersArePlain(tag: string)
    requires Letters(tag)
    ensures tag != "" && Plain(tag)
  {
  }

  lemma FixedPayloads()
    ensures E.PayloadFromTag("str") == Some(E.Str) && E.PayloadFromTag("bytes") == Some(E.Bytes)
    ensures E.PayloadFromTag("bool") == Some(E.Bool) && E.PayloadFromTag("handle") == Some(E.Handle)
    ensures E.PayloadFromTag("unit") == Some(E.Unit)
  {
  }

  lemma OptionArgMeans(inner: Ty)
    ensures M.OptionArg(inner).Some? <==> OptionalArg(inner).Some?
    ensures M.OptionArg(inner).Some? ==>
      var l := M.OptionArg(inner).value;
      && Letters(l.tag)
      && E.PayloadFromTag(l.tag) == OptionalArg(inner)
      && SlotsOf(l.params) == [Number] + PayloadSlots(OptionalArg(inner).value)
  {
    hide E.PayloadFromTag, P.ArgFromTag, NumericPayload, NumericArg;
    FixedPayloads();
    if Numeric(inner).Some? {
      NumericTag(inner.name);
    }
  }

  /** One argument: the macro accepts it exactly when it has a meaning, its tag is read
      back as that, and it declares exactly the parameters that cross for that. */
  lemma ArgAgrees(ty: Ty)
    ensures M.LowerArg(ty).Some? <==> ArgOf(ty).Some?
    ensures M.LowerArg(ty).Some? ==>
      var l := M.LowerArg(ty).value;
      && l.tag != "" && Plain(l.tag)
      && P.ArgFromTag(l.tag) == ArgOf(ty)
      && SlotsOf(l.params) == ArgSlots(ArgOf(ty).value)
  {
    hide E.PayloadFromTag, P.ArgFromTag, NumericPayload, NumericArg, ElemOf, M.OptionArg, OptionalArg, Plain, Letters;
    FixedTags();
    var optional := Generic1(ty, "Option");
    if optional.Some? {
      OptionArgMeans(optional.value);
      if M.OptionArg(optional.value).Some? {
        OptTag(M.OptionArg(optional.value).value.tag);
      }
    } else if NumericSlice(ty).Some? {
      SliceTag(NumericSlice(ty).value);
    } else if Numeric(ty).Some? {
      NumericTag(ty.name);
      LettersArePlain(ty.name);
    }
  }

  lemma OptRet(tag: string)
    requires Letters(tag) && E.PayloadFromTag(tag).Some?
    ensures Plain("opt:" + tag) && P.ParseRet("opt:" + tag) == Some(P.OptRet(E.PayloadFromTag(tag).value))
  {
    hide E.PayloadFromTag;
    assert ("opt:" + tag)[4..] == tag;
  }

  lemma PairTag(ok: string, err: string)
    requires Letters(ok) && Letters(err) && E.PayloadFromTag(ok).Some? && E.PayloadFromTag(err).Some?
    ensures P.ParsePair(ok + ":" + err) == Some((E.PayloadFromTag(ok).value, E.PayloadFromTag(err).value))
  {
    hide E.PayloadFromTag;
    SplitOnceOf(ok, err, ':');
  }

  lemma ResRet(ok: string, err: string)
    requires Letters(ok) && Letters(err) && E.PayloadFromTag(ok).Some? && E.PayloadFromTag(err).Some?
    ensures Plain("res:" + ok + ":" + err)
    ensures P.ParseRet("res:" + ok + ":" + err) == Some(P.ResRet(E.PayloadFromTag(ok).value, E.PayloadFromTag(err).value))
  {
    hide E.PayloadFromTag, P.ParsePair, P.IsScalar;
    var s, pair := "res:" + ok + ":" + err, ok + ":" + err;
    assert s == "res:" + pair;
    StripPrefixOf("res:", pair);
    assert s[0] == 'r' && s[3] == ':';
    PairTag(ok, err);
  }

  lemma ResOptRet(ok: string, err: string)
    requires Letters(ok) && Letters(err) && E.PayloadFromTag(ok).Some? && E.PayloadFromTag(err).Some?
    ensures Plain("resopt:" + ok + ":" + err)
    ensures P.ParseRet("resopt:" + ok + ":" + err) == Some(P.ResOptRet(E.PayloadFromTag(ok).value, E.PayloadFromTag(err).value))
  {
    hide E.PayloadFromTag;
    var s := "resopt:" + ok + ":" + err;
    assert s == "resopt:" + (ok + ":" + err);
    assert s[7..] == ok + ":" + err && s[0] == 'r';
    PairTag(ok, err);
  }

  lemma NumericRet(name: string)
    requires IsNumericName(name)
    ensures P.ParseRet(name) == Some(P.Value(name))
  {
    hide E.PayloadFromTag;
    assert name[0] != 'o' && name[0] != 'r';
  }

  lemma FixedRets()
    ensures P.ParseRet("") == Some(P.Void) && P.ParseRet("handle") == Some(P.HandleRet)
    ensures P.ParseRet("str") == Some(P.StrRet) && P.ParseRet("bytes") == Some(P.BytesRet)
    ensures P.ParseRet("bool") == Some(P.Value("bool"))
    ensures Plain("") && Plain("handle") && Plain("str") && Plain("bytes") && Plain("bool")
  {
    hide E.PayloadFromTag;
    assert "bytes"[0] == 'b' && "bool"[0] == 'b' && "handle"[0] == 'h';
  }

  /** The return: same agreement, and a buffer exactly for the three kinds that need it. */
  lemma RetAgrees(ret: Option<Ty>)
    ensures M.BuildReturn(ret).Some? <==> RetOf(ret).Some?
    ensures ret == None ==> RetOf(ret) == Some(P.Void)
    ensures M.BuildReturn(ret).Some? ==>
      var r := M.BuildReturn(ret).value;
      && Plain(r.tag)
      && P.ParseRet(r.tag) == RetOf(ret)
      && (r.buffer <==> UsesBuffer(RetOf(ret).value))
  {
    hide E.PayloadFromTag, P.ParseRet, NumericPayload, PayloadTag, PayloadOf, Plain, Letters;
    FixedRets();
    if ret.Some? && !IsUnit(ret.value) {
      var ty := ret.value;
      var optional, result := Generic1(ty, "Option"), Generic2(ty, "Result");
      if Numeric(ty).Some? {
        NumericTag(ty.name);
        LettersArePlain(ty.name);
        NumericRet(ty.name);
      } else if optional.Some? {
        PayloadTagMeans(optional.value);
        if PayloadTag(optional.value).Some? {
          OptRet(PayloadTag(optional.value).value);
        }
      } else if result.Some? {
        var (okTy, errTy) := result.value;
        var nullable := Generic1(okTy, "Option");
        var inner := if nullable.Some? then nullable.value else okTy;
        PayloadTagMeans(inner);
        PayloadTagMeans(errTy);
        if PayloadTag(inner).Some? && PayloadTag(errTy).Some? {
          ResRet(PayloadTag(inner).value, PayloadTag(errTy).value);
          ResOptRet(PayloadTag(inner).value, PayloadTag(errTy).value);
        }
      }
    }
  }

  /** And the wasm result is what comes back. */
  lemma ResultAgrees(ret: Option<Ty>)
    requires M.BuildReturn(ret).Some? && RetOf(ret).Some?
    ensures ResultSlot(M.BuildReturn(ret).value.result) == RetSlot(RetOf(ret).value)
  {
    hide PayloadTag, PayloadOf, IsNumericName, Generic2;
  }

  function AllSlots(args: seq<P.AbiArg>): seq<Slot> {
    if args == [] then [] else AllSlots(args[..|args| - 1]) + ArgSlots(args[|args| - 1])
  }

  function ParamTotal(args: seq<P.AbiArg>): nat {
    if args == [] then 0 else ParamTotal(args[..|args| - 1]) + P.ParamCount(args[|args| - 1])
  }

  ghost predicate PlainTags(tags: seq<string>) {
    forall i :: 0 <= i < |tags| ==> tags[i] != "" && Plain(tags[i])
  }

  /** Lowered arguments and the meanings read back from their tags. */
  ghost predicate ListAgrees(ls: seq<Lowered>, args: seq<P.AbiArg>) {
    && PlainTags(Tags(ls)) && |Tags(ls)| == |ls| == |args|
    && P.ArgsFromTags(Tags(ls)) == Some(args)
    && SlotsOf(Params(ls)) == AllSlots(args)
  }

  lemma LoweredLast(ls: seq<Lowered>, l: Lowered)
    ensures Tags(ls + [l]) == Tags(ls) + [l.tag] && Params(ls + [l]) == Params(ls) + l.params
  {
    assert (ls + [l])[..|ls|] == ls;
  }

  lemma TagLast(tags: seq<string>, tag: string)
    requires P.ArgsFromTags(tags).Some? && P.ArgFromTag(tag).Some?
    ensures P.ArgsFromTags(tags + [tag]) == Some(P.ArgsFromTags(tags).value + [P.ArgFromTag(tag).value])
  {
    hide P.ArgFromTag;
    assert (tags + [tag])[..|tags|] == tags;
  }

  lemma AllSlotsLast(args: seq<P.AbiArg>, arg: P.AbiArg)
    ensures AllSlots(args + [arg]) == AllSlots(args) + ArgSlots(arg)
  {
    assert (args + [arg])[..|args|] == args;
  }

  lemma ListAgreesLast(ls: seq<Lowered>, l: Lowered, args: seq<P.AbiArg>, arg: P.AbiArg)
    requires ListAgrees(ls, args)
    requires l.tag != "" && Plain(l.tag) && P.ArgFromTag(l.tag) == Some(arg) && SlotsOf(l.params) == ArgSlots(arg)
    ensures ListAgrees(ls + [l], args + [arg])
  {
    hide Plain, P.ArgFromTag, P.ArgsFromTags, ArgSlots, AllSlots, SlotsOf, Tags, Params;
    LoweredLast(ls, l);
    TagLast(Tags(ls), l.tag);
    AllSlotsLast(args, arg);
    SlotsOfBoth(Params(ls), l.params);
  }

  lemma {:induction false} AllSlotsAreCounted(args: seq<P.AbiArg>)
    ensures |AllSlots(args)| == ParamTotal(args)
  {
    if args != [] {
      AllSlotsAreCounted(args[..|args| - 1]);
      SlotsAreCounted(args[|args| - 1]);
    }
  }

  lemma {:induction false} ArgsAgree(params: seq<(string, Ty)>)
    ensures M.LowerArgs(params).Some? <==> ArgsOf(params).Some?
    ensures M.LowerArgs(params).Some? ==>
      |ArgsOf(params).value| == |params| && ListAgrees(M.LowerArgs(params).value, ArgsOf(params).value)
  {
    if params != [] {
      var init, last := params[..|params| - 1], params[|params| - 1].1;
      ArgsAgree(init);
      ArgAgrees(last);
      hide M.LowerArg, ArgOf, P.ArgFromTag, Plain, ListAgrees;
      if M.LowerArgs(params).Some? {
        ListAgreesLast(M.LowerArgs(init).value, M.LowerArg(last).value, ArgsOf(init).value, ArgOf(last).value);
      }
    }
  }

  lemma ArgListReadsBack(tags: seq<string>)
    requires PlainTags(tags)
    ensures P.ParseArgs(Join(tags, ',')) == P.ArgsFromTags(tags)
  {
    if tags != [] {
      JoinNonEmpty(tags, ',');
      SplitJoin(tags, ',');
    }
  }

  /** The receiver test of the macro is the receiver test of the reader. */
  lemma {:induction false} ReceiverIsHandle(params: seq<(string, Ty)>)
    requires ArgsOf(params).Some? && M.HasReceiver(params)
    ensures |ArgsOf(params).value| == |params| && ArgsOf(params).value[0] == P.Handle
  {
    ArgsAgree(params);
    if |params| > 1 {
      ReceiverIsHandle(params[..|params| - 1]);
    } else {
      assert params[..0] == [];
    }
  }

  /** What the macro leaves for the reader to check: the return type alone. */
  predicate ReturnFits(kind: P.Kind, ret: P.Ret) {
    match kind
    case Getter => ret != P.Void
    case StaticGetter => ret != P.Void
    case IndexGet => ret != P.Void
    case InstanceOf => ret == P.Value("bool")
    case Setter => ret == P.Void || (ret.ResRet? && ret.ok == E.Unit)
    case IndexDelete => ret == P.Void || ret == P.Value("bool")
    case Constructor => ret == P.HandleRet || (ret.ResRet? && ret.ok == E.Handle) || (ret.OptRet? && ret.payload == E.Handle)
    case _ => true
  }

  /** Names as Rust's own tokens and paths spell them. */
  predicate RustName(name: string) {
    Unraw(name) != "" && name != "" && M.Clean(name)
  }

  /** Given that the macro accepted the function, the reader's shape check can fail only
      on its return type, and does exactly when that does not fit the kind. */
  lemma ShapeIsTheReturn(modulePath: string, f: M.ImportFn)
    requires M.BuildFn(modulePath, f).Ok?
    ensures Meaning(modulePath, f).Some?
    ensures var d := Meaning(modulePath, f).value;
      P.CheckShape(d.kind, d.args, d.ret, d.variadic) <==> ReturnFits(d.kind, d.ret)
  {
    hide E.PayloadFromTag, P.ParseRet, M.LowerArgs, M.BuildReturn, ArgsOf, RetOf, Tags, Params, P.ArgsFromTags, Plain, ListAgrees,
         ResultSlot, RetSlot;
    ArgsAgree(f.params);
    RetAgrees(f.ret);
    if M.HasReceiver(f.params) {
      ReceiverIsHandle(f.params);
    }
  }

  lemma FieldsReadBack(modulePath: string, f: M.ImportFn, kind: string, tags: seq<string>, ret: string)
    requires M.Clean(modulePath) && RustName(f.name) && M.CheckDescriptorStr(f.namespace)
    requires f.js.Some? ==> M.CheckDescriptorStr(f.js.value)
    requires Plain(kind) && Plain(ret) && forall i :: 0 <= i < |tags| ==> Plain(tags[i])
    ensures var fields := M.DescriptorFields(modulePath, f, kind, tags, ret);
      && Split(Join(fields, '|'), '|') == fields
      && Lacks(Join(fields, '|'), '\n') && Lacks(Join(fields, '|'), '\r')
  {
    var fields := M.DescriptorFields(modulePath, f, kind, tags, ret);
    JoinLacks(tags, ',', '|');
    JoinLacks(tags, ',', '\n');
    JoinLacks(tags, ',', '\r');
    assert Lacks(M.JsName(f), '|') && Lacks(M.JsName(f), '\n') && Lacks(M.JsName(f), '\r');
    assert Lacks(fields[2], '|') && Lacks(fields[2], '\n') && Lacks(fields[2], '\r');
    SplitJoin(fields, '|');
    JoinLacks(fields, '|', '\n');
    JoinLacks(fields, '|', '\r');
  }

  lemma KindReadsBack(f: M.ImportFn)
    ensures M.PickKind(f).Ok? ==> Plain(M.PickKind(f).value) && P.KindFromTag(M.PickKind(f).value) == Some(KindOf(f))
  {
  }

  lemma ReadFields(line: string, kindTag: string, ns: string, importName: string, js: string, argTags: string, retTag: string,
                   kind: P.Kind, args: seq<P.AbiArg>, ret: P.Ret, variadic: bool)
    requires Split(line, '|') == [kindTag, ns, importName, js, argTags, retTag, if variadic then "1" else ""]
    requires ns != "" && importName != "" && js != ""
    requires P.KindFromTag(kindTag) == Some(kind) && P.ParseArgs(argTags) == Some(args) && P.ParseRet(retTag) == Some(ret)
    ensures P.ParseLine(line) ==
      if P.CheckShape(kind, args, ret, variadic)
      then Ok(P.Descriptor(kind, ns, importName, js, args, ret, variadic)) else Err(P.WrongShape)
  {
    hide P.KindFromTag, P.ParseArgs, P.ParseRet, P.CheckShape, Split;
  }

  lemma NotEmptyAndNoCr(line: string)
    requires Lacks(line, '\r')
    ensures StripCr(line) == line
    ensures |Split(line, '|')| > 1 ==> line != ""
  {
  }

  /** A line that `lines` gives back as it is. */
  ghost predicate OneLine(line: string) {
    line != "" && Lacks(line, '\n') && StripCr(line) == line
  }

  /** One line: the glue reads back the binding's own meaning, or refuses its shape. */
  lemma LineReadsBack(modulePath: string, f: M.ImportFn)
    requires M.Clean(modulePath) && RustName(f.name) && M.BuildFn(modulePath, f).Ok?
    ensures Meaning(modulePath, f).Some?
    ensures var d := Meaning(modulePath, f).value; var line := M.BuildFn(modulePath, f).value.line;
      && OneLine(line)
      && P.ParseLine(line) == if ReturnFits(d.kind, d.ret) then Ok(d) else Err(P.WrongShape)
  {
    ArgsAgree(f.params);
    RetAgrees(f.ret);
    KindReadsBack(f);
    ShapeIsTheReturn(modulePath, f);
    var tags := Tags(M.LowerArgs(f.params).value);
    var ret := M.BuildReturn(f.ret).value.tag;
    var kind := M.PickKind(f).value;
    ArgListReadsBack(tags);
    FieldsReadBack(modulePath, f, kind, tags, ret);
    hide P.ParseRet, P.ParseArgs, P.KindFromTag, M.LowerArgs, M.BuildReturn, ArgsOf, RetOf, Tags, Params,
         P.ArgsFromTags, ParamTotal, M.PickKind, KindOf, P.CheckShape, ReturnFits, P.ParseLine, Split, Join, Lacks, StripCr,
         M.Clean, Plain, Unraw;
    var line := Join(M.DescriptorFields(modulePath, f, kind, tags, ret), '|');
    NotEmptyAndNoCr(line);
    var d := Meaning(modulePath, f).value;
    ReadFields(line, kind, f.namespace, modulePath + "::" + f.name, M.JsName(f), Join(tags, ','), ret,
               d.kind, d.args, d.ret, f.variadic);
  }

  predicate MutableSlice(ty: Ty) {
    ty.Ref? && ty.isMut && ty.elem.Slice? && ty.elem != Slice(Bare("JsValue"))
  }

  /** JavaScript is given a pointer to write through exactly for a `&mut` slice of numbers. */
  lemma WritableExactlyWhenMutable(ty: Ty)
    requires M.LowerArg(ty).Some?
    ensures MutPtr in M.LowerArg(ty).value.params <==>
      MutableSlice(ty) || exists inner :: Wraps(ty, "Option", inner) && MutableSlice(inner)
  {
    if Generic1(ty, "Option").Some? {
      var inner := Generic1(ty, "Option").value;
      assert Wraps(ty, "Option", inner);
      assert MutPtr in M.OptionArg(inner).value.params <==> MutableSlice(inner);
    }
  }

  /** The kind of a binding, by its attribute or else by its first parameter. */
  predicate IsKind(kind: P.Kind, f: M.ImportFn) {
    match f.kind
    case None => kind == if TakesThis(f) then P.Method else P.Function
    case Some(Getter) => kind == P.Getter
    case Some(Setter) => kind == P.Setter
    case Some(Constructor) => kind == P.Constructor
    case Some(IndexingGetter) => kind == P.IndexGet
    case Some(IndexingSetter) => kind == P.IndexSet
    case Some(Instanceof) => kind == P.InstanceOf
    case Some(StaticGetter) => kind == P.StaticGetter
    case Some(IndexingDeleter) => kind == P.IndexDelete
  }

  /** The first parameter is `this: &JsValue`. */
  predicate TakesThis(f: M.ImportFn) {
    f.params != [] && f.params[0].0 == "this" && RefTo(f.params[0].1, Bare("JsValue"))
  }

  /** What is read of a line that is accepted is what was written in the source: which
      function of which JavaScript object the binding calls, as what, and which wasm
      import is behind it. */
  lemma TheLineIsTheSignature(modulePath: string, f: M.ImportFn, plain: string)
    requires M.Clean(modulePath) && RustName(f.name) && M.BuildFn(modulePath, f).Ok?
    requires PlainName(f.name, plain)
    ensures var line := M.BuildFn(modulePath, f).value.line;
      P.ParseLine(line).Ok? ==>
        var d := P.ParseLine(line).value;
        && d.jsName == (if f.js.Some? then f.js.value else plain)
        && d.namespace == f.namespace
        && d.importName == modulePath + "::" + f.name
        && d.variadic == f.variadic
        && IsKind(d.kind, f)
  {
    LineReadsBack(modulePath, f);
    UnrawIsPlain(f.name, plain);
    KindOfIsKind(f);
    hide M.BuildFn, P.ParseLine, OneLine, Unraw, ArgsOf, RetOf, ReturnFits, KindOf, IsKind, PlainName, RustName, M.Clean;
  }

  lemma KindOfIsKind(f: M.ImportFn)
    ensures IsKind(KindOf(f), f)
  {
    if f.params != [] {
      ClassesAre(f.params[0].1);
    }
    hide IsRefJsValue, RefTo;
  }

  /** A string that can stand in a descriptor line. */
  predicate Printable(s: string) {
    s != "" && forall i :: 0 <= i < |s| ==> s[i] != '|' && ' ' <= s[i] && !('\U{7f}' <= s[i] <= '\U{9f}')
  }

  /** What a kind attribute asks of the signature it stands on. */
  predicate AttributeFits(f: M.ImportFn) {
    match f.kind
    case None => true
    case Some(Getter) => TakesThis(f) && |f.params| == 1 && f.ret.Some?
    case Some(Setter) => TakesThis(f) && |f.params| == 2
    case Some(Constructor) => f.ret.Some?
    case Some(IndexingGetter) => TakesThis(f) && |f.params| == 2 && f.ret.Some?
    case Some(IndexingSetter) => TakesThis(f) && |f.params| == 3 && f.ret == None
    case Some(Instanceof) => TakesThis(f) && |f.params| == 1 && f.ret.Some?
    case Some(StaticGetter) => f.params == [] && f.ret.Some?
    case Some(IndexingDeleter) => TakesThis(f) && |f.params| == 2
  }

  /** The macro accepts a binding exactly if its strings can be printed, its types have a
      meaning, its attribute fits, and only something called is variadic. */
  lemma AcceptedExactly(modulePath: string, f: M.ImportFn)
    ensures M.BuildFn(modulePath, f).Ok? <==>
      && Printable(f.namespace) && (f.js.Some? ==> Printable(f.js.value))
      && ArgsOf(f.params).Some? && RetOf(f.ret).Some?
      && AttributeFits(f)
      && (f.variadic ==> f.kind == None || f.kind == Some(M.Constructor))
  {
    ArgsAgree(f.params);
    RetAgrees(f.ret);
    PrintableIs(f.namespace);
    if f.js.Some? {
      PrintableIs(f.js.value);
    }
    KindAccepted(f);
    hide M.LowerArgs, M.BuildReturn, ArgsOf, RetOf, ListAgrees, P.ParseRet, Join, Tags, Params, ResultSlot, RetSlot, M.PickKind,
         AttributeFits, M.CheckDescriptorStr, Printable, M.DescriptorFields;
  }

  /** Why a binding is refused: what the error says of it is so. */
  lemma ARefusalIsTrue(modulePath: string, f: M.ImportFn)
    requires M.BuildFn(modulePath, f).Err?
    ensures match M.BuildFn(modulePath, f).error
      case BadString => !Printable(f.namespace) || (f.js.Some? && !Printable(f.js.value))
      case UnsupportedArgument => ArgsOf(f.params) == None
      case MissingReceiver => f.kind.Some? && !TakesThis(f)
      case WrongArity => f.kind.Some? && !AttributeFits(f)
      case MustReturn => f.kind.Some? && f.ret == None && !AttributeFits(f)
      case MustNotReturn => f.kind == Some(M.IndexingSetter) && f.ret.Some?
      case VariadicOnNonCall => f.variadic && f.kind.Some? && f.kind != Some(M.Constructor)
      case UnsupportedReturn => RetOf(f.ret) == None
  {
    ArgsAgree(f.params);
    RetAgrees(f.ret);
    PrintableIs(f.namespace);
    if f.js.Some? {
      PrintableIs(f.js.value);
    }
    KindAccepted(f);
    if M.PickKind(f).Err? {
      KindRefusals(f);
    }
    hide M.LowerArgs, M.BuildReturn, ArgsOf, RetOf, ListAgrees, P.ParseRet, Join, Tags, Params, ResultSlot, RetSlot, M.PickKind,
         AttributeFits, M.CheckDescriptorStr, Printable, M.DescriptorFields, TakesThis;
  }

  lemma KindRefusals(f: M.ImportFn)
    requires M.PickKind(f).Err?
    ensures f.kind.Some?
    ensures match M.PickKind(f).error
      case MissingReceiver => !TakesThis(f)
      case WrongArity => true
      case MustReturn => f.ret == None
      case MustNotReturn => f.kind == Some(M.IndexingSetter) && f.ret.Some?
      case _ => false
  {
    if f.params != [] {
      ClassesAre(f.params[0].1);
    }
    hide IsRefJsValue, RefTo;
  }

  lemma PrintableIs(s: string)
    ensures M.CheckDescriptorStr(s) <==> Printable(s)
  {
  }

  lemma KindAccepted(f: M.ImportFn)
    ensures M.PickKind(f).Ok? <==> AttributeFits(f)
    ensures M.PickKind(f).Ok? ==>
      var kind := M.PickKind(f).value; (kind == "f" || kind == "m" || kind == "n" <==> f.kind == None || f.kind == Some(M.Constructor))
  {
    if f.params != [] {
      ClassesAre(f.params[0].1);
    }
    hide IsRefJsValue, RefTo;
  }

  /** The wasm import declares exactly the parameters that cross for the parsed binding, an
      address in front if and only if the return goes through a buffer, and the result that
      comes back; they are as many as the reader counts. */
  lemma SignatureAgrees(modulePath: string, f: M.ImportFn)
    requires M.BuildFn(modulePath, f).Ok?
    ensures Meaning(modulePath, f).Some?
    ensures var d := Meaning(modulePath, f).value; var b := M.BuildFn(modulePath, f).value;
      && SlotsOf(b.externParams) == (if UsesBuffer(d.ret) then [Address] else []) + AllSlots(d.args)
      && |b.externParams| == ParamTotal(d.args) + (if UsesBuffer(d.ret) then 1 else 0)
      && ResultSlot(b.result) == RetSlot(d.ret)
  {
    ArgsAgree(f.params);
    RetAgrees(f.ret);
    ResultAgrees(f.ret);
    var d, ls := Meaning(modulePath, f).value, M.LowerArgs(f.params).value;
    assert SlotsOf(Params(ls)) == AllSlots(d.args);
    hide M.LowerArgs, M.BuildReturn, ArgsOf, RetOf, Params, M.PickKind, Join, AllSlots, ParamTotal, P.ParseRet, Plain,
         ListAgrees, SlotOf, RetSlot, ResultSlot, M.CheckDescriptorStr, Unraw;
    AllSlotsAreCounted(d.args);
    WithBuffer(UsesBuffer(d.ret), Params(ls));
  }

  function Meanings(modulePath: string, fns: seq<M.ImportFn>): seq<P.Descriptor> {
    if fns == [] then []
    else
      var last := Meaning(modulePath, fns[|fns| - 1]);
      Meanings(modulePath, fns[..|fns| - 1]) + if last.Some? then [last.value] else []
  }

  predicate Fits(modulePath: string, f: M.ImportFn) {
    var d := Meaning(modulePath, f);
    d.Some? && ReturnFits(d.value.kind, d.value.ret)
  }

  ghost predicate AllFit(modulePath: string, fns: seq<M.ImportFn>) {
    forall i :: 0 <= i < |fns| ==> Fits(modulePath, fns[i])
  }

  lemma {:induction false} LinesOfAt(bindings: seq<M.Binding>, i: nat)
    requires i < |bindings|
    ensures |M.LinesOf(bindings)| == |bindings| && M.LinesOf(bindings)[i] == bindings[i].line
  {
    if i < |bindings| - 1 {
      LinesOfAt(bindings[..|bindings| - 1], i);
    } else if |bindings| > 1 {
      LinesOfAt(bindings[..|bindings| - 1], 0);
    }
  }

  lemma {:induction false} BuildAllAt(modulePath: string, fns: seq<M.ImportFn>, i: nat)
    requires M.BuildAll(modulePath, fns).Ok? && i < |fns|
    ensures |M.BuildAll(modulePath, fns).value| == |fns|
    ensures M.BuildFn(modulePath, fns[i]) == Ok(M.BuildAll(modulePath, fns).value[i])
  {
    hide M.BuildFn;
    if i < |fns| - 1 {
      BuildAllAt(modulePath, fns[..|fns| - 1], i);
    } else if |fns| > 1 {
      BuildAllAt(modulePath, fns[..|fns| - 1], 0);
    }
  }

  lemma SectionIsLines(modulePath: string, fns: seq<M.ImportFn>)
    requires M.Clean(modulePath) && (forall i :: 0 <= i < |fns| ==> RustName(fns[i].name))
    requires M.BuildAll(modulePath, fns).Ok?
    ensures var lines := M.LinesOf(M.BuildAll(modulePath, fns).value);
      forall i :: 0 <= i < |lines| ==> OneLine(lines[i])
  {
    hide M.BuildFn, M.BuildAll, M.LinesOf, OneLine, RustName, M.Clean;
    var bindings := M.BuildAll(modulePath, fns).value;
    var lines := M.LinesOf(bindings);
    if fns == [] {
      NoLines(modulePath);
    } else {
      BuildAllAt(modulePath, fns, 0);
      LinesOfAt(bindings, 0);
    }
    forall i | 0 <= i < |lines| ensures OneLine(lines[i]) {
      BuildAllAt(modulePath, fns, i);
      LinesOfAt(bindings, i);
      LineReadsBack(modulePath, fns[i]);
    }
  }

  lemma NoLines(modulePath: string)
    ensures M.BuildAll(modulePath, []) == Ok([]) && M.LinesOf([]) == [] && P.ParseLines([]) == Ok([])
    ensures AllFit(modulePath, []) && Meanings(modulePath, []) == []
  {
  }

  lemma AllFitLast(modulePath: string, fns: seq<M.ImportFn>)
    requires fns != []
    ensures AllFit(modulePath, fns) <==> AllFit(modulePath, fns[..|fns| - 1]) && Fits(modulePath, fns[|fns| - 1])
  {
    hide Fits;
    var n := |fns| - 1;
    assert forall i :: 0 <= i < n ==> fns[i] == fns[..n][i];
  }

  lemma BuildAllLast(modulePath: string, fns: seq<M.ImportFn>)
    requires M.BuildAll(modulePath, fns).Ok? && fns != []
    ensures M.BuildAll(modulePath, fns[..|fns| - 1]).Ok? && M.BuildFn(modulePath, fns[|fns| - 1]).Ok?
    ensures M.BuildAll(modulePath, fns).value ==
      M.BuildAll(modulePath, fns[..|fns| - 1]).value + [M.BuildFn(modulePath, fns[|fns| - 1]).value]
  {
    hide M.BuildFn;
  }

  lemma LinesOfLast(bindings: seq<M.Binding>, last: M.Binding)
    ensures M.LinesOf(bindings + [last]) == M.LinesOf(bindings) + [last.line]
  {
    assert (bindings + [last])[..|bindings|] == bindings;
  }

  lemma ParseLinesLast(lines: seq<string>, line: string)
    requires line != ""
    ensures P.ParseLines(lines + [line]) ==
      if P.ParseLines(lines).Err? then P.ParseLines(lines)
      else if P.ParseLine(line).Err? then Err(P.ParseLine(line).error)
      else Ok(P.ParseLines(lines).value + [P.ParseLine(line).value])
  {
    hide P.ParseLine;
    assert (lines + [line])[..|lines|] == lines;
  }

  lemma {:induction false} SectionParses(modulePath: string, fns: seq<M.ImportFn>)
    requires M.Clean(modulePath) && (forall i :: 0 <= i < |fns| ==> RustName(fns[i].name))
    requires M.BuildAll(modulePath, fns).Ok?
    ensures P.ParseLines(M.LinesOf(M.BuildAll(modulePath, fns).value)) ==
      if AllFit(modulePath, fns) then Ok(Meanings(modulePath, fns)) else Err(P.WrongShape)
  {
    hide M.BuildFn, Meaning, ReturnFits, P.ParseLine, RustName, M.Clean, AllFit, M.BuildAll, M.LinesOf, P.ParseLines;
    if fns == [] {
      NoLines(modulePath);
    } else {
      var init, last := fns[..|fns| - 1], fns[|fns| - 1];
      BuildAllLast(modulePath, fns);
      SectionParses(modulePath, init);
      LineReadsBack(modulePath, last);
      AllFitLast(modulePath, fns);
      var before, binding := M.BuildAll(modulePath, init).value, M.BuildFn(modulePath, last).value;
      LinesOfLast(before, binding);
      ParseLinesLast(M.LinesOf(before), binding.line);
    }
  }

  /** The whole section: whatever list of functions `import!` accepts, the code
      generator reads back exactly their meanings, in order, if every return type fits
      its kind, and refuses the section if some does not. */
  lemma SectionReadsBack(modulePath: string, namespaces: seq<string>, fns: seq<M.ImportFn>)
    requires M.Clean(modulePath) && (forall i :: 0 <= i < |fns| ==> RustName(fns[i].name))
    requires M.Expansion(modulePath, namespaces, fns).Ok?
    ensures P.ParseLines(Lines(M.Section(M.Expansion(modulePath, namespaces, fns).value))) ==
      if AllFit(modulePath, fns) then Ok(Meanings(modulePath, fns)) else Err(P.WrongShape)
  {
    SectionIsLines(modulePath, fns);
    SectionParses(modulePath, fns);
    var lines := M.LinesOf(M.BuildAll(modulePath, fns).value);
    LinesOfTerminated(lines);
    NoCrToStrip(lines);
  }

  /** One `import!` in one module. */
  datatype Invocation = Invocation(modulePath: string, namespaces: seq<string>, fns: seq<M.ImportFn>)

  ghost predicate Accepted(i: Invocation) {
    && M.Clean(i.modulePath) && (forall k :: 0 <= k < |i.fns| ==> RustName(i.fns[k].name))
    && M.Expansion(i.modulePath, i.namespaces, i.fns).Ok?
  }

  /** What the linker puts into the section: every invocation's own text, one after another. */
  ghost function Linked(all: seq<Invocation>): string
    requires forall i :: 0 <= i < |all| ==> Accepted(all[i])
  {
    if all == [] then ""
    else
      var last := all[|all| - 1];
      assert Accepted(last);
      Linked(all[..|all| - 1]) + M.Section(M.Expansion(last.modulePath, last.namespaces, last.fns).value)
  }

  ghost function LinkedLines(all: seq<Invocation>): seq<string>
    requires forall i :: 0 <= i < |all| ==> Accepted(all[i])
  {
    if all == [] then []
    else
      var last := all[|all| - 1];
      assert Accepted(last);
      LinkedLines(all[..|all| - 1]) + M.LinesOf(M.Expansion(last.modulePath, last.namespaces, last.fns).value)
  }

  ghost function LinkedMeanings(all: seq<Invocation>): seq<P.Descriptor> {
    if all == [] then []
    else LinkedMeanings(all[..|all| - 1]) + Meanings(all[|all| - 1].modulePath, all[|all| - 1].fns)
  }

  ghost predicate AllInvocationsFit(all: seq<Invocation>) {
    forall i :: 0 <= i < |all| ==> AllFit(all[i].modulePath, all[i].fns)
  }

  lemma {:induction false} TerminatedBoth(a: seq<string>, b: seq<string>)
    ensures Terminated(a + b) == Terminated(a) + Terminated(b)
  {
    if a == [] {
      assert a + b == b;
    } else {
      TerminatedBoth(a[1..], b);
      assert (a + b)[1..] == a[1..] + b;
    }
  }

  lemma {:induction false} ParseLinesBoth(a: seq<string>, b: seq<string>)
    ensures P.ParseLines(a + b) ==
      if P.ParseLines(a).Err? then P.ParseLines(a)
      else if P.ParseLines(b).Err? then P.ParseLines(b)
      else Ok(P.ParseLines(a).value + P.ParseLines(b).value)
  {
    hide P.ParseLine;
    if b == [] {
      assert a + b == a;
      assert P.ParseLines(a).Ok? ==> P.ParseLines(a).value + [] == P.ParseLines(a).value;
    } else {
      ParseLinesBoth(a, b[..|b| - 1]);
      assert (a + b)[..|a + b| - 1] == a + b[..|b| - 1];
      var before, init := P.ParseLines(a), P.ParseLines(b[..|b| - 1]);
      if before.Ok? && init.Ok? {
        assert forall d :: before.value + (init.value + [d]) == before.value + init.value + [d];
      }
    }
  }

  lemma LinkedFitLast(all: seq<Invocation>)
    requires all != []
    ensures AllInvocationsFit(all) <==>
      AllInvocationsFit(all[..|all| - 1]) && AllFit(all[|all| - 1].modulePath, all[|all| - 1].fns)
  {
    hide AllFit;
    var n := |all| - 1;
    assert forall i :: 0 <= i < n ==> all[i] == all[..n][i];
  }

  lemma {:induction false} LinkedIsLines(all: seq<Invocation>)
    requires forall i :: 0 <= i < |all| ==> Accepted(all[i])
    ensures Linked(all) == Terminated(LinkedLines(all))
    ensures forall i :: 0 <= i < |LinkedLines(all)| ==> OneLine(LinkedLines(all)[i])
    ensures P.ParseLines(LinkedLines(all)) ==
      if AllInvocationsFit(all) then Ok(LinkedMeanings(all)) else Err(P.WrongShape)
  {
    hide M.BuildAll, M.LinesOf, P.ParseLines, AllFit, OneLine, RustName, M.Clean, Meanings, AllInvocationsFit;
    if all == [] {
      NoLines("");
      NoneToFit();
    } else {
      var last := all[|all| - 1];
      assert Accepted(last);
      LinkedIsLines(all[..|all| - 1]);
      SectionIsLines(last.modulePath, last.fns);
      SectionParses(last.modulePath, last.fns);
      var lines := M.LinesOf(M.BuildAll(last.modulePath, last.fns).value);
      ParseLinesBoth(LinkedLines(all[..|all| - 1]), lines);
      TerminatedBoth(LinkedLines(all[..|all| - 1]), lines);
      LinkedFitLast(all);
    }
  }

  lemma NoneToFit()
    ensures AllInvocationsFit([])
  {
  }

  /** A program's whole import section, over all its modules and `import!`s: read back as
      the meaning of every binding, in order, or refused if a return type does not fit. */
  lemma LinkedSectionReadsBack(all: seq<Invocation>)
    requires forall i :: 0 <= i < |all| ==> Accepted(all[i])
    ensures P.ParseLines(Lines(Linked(all))) ==
      if AllInvocationsFit(all) then Ok(LinkedMeanings(all)) else Err(P.WrongShape)
  {
    LinkedIsLines(all);
    hide Accepted, Linked, LinkedLines, P.ParseLines, AllInvocationsFit, LinkedMeanings;
    var lines := LinkedLines(all);
    assert forall i :: 0 <= i < |lines| ==> OneLine(lines[i]);
    LinesOfTerminated(lines);
    NoCrToStrip(lines);
  }

  /** The two checks do differ: `-> ()` satisfies the macro's demand that a getter
      return something, and the reader then refuses it. */
  lemma AUnitGetterIsAcceptedThenRefused() returns (f: M.ImportFn)
    ensures f.kind == Some(M.Getter) && RustName(f.name) && M.BuildFn("m", f).Ok?
    ensures P.ParseLine(M.BuildFn("m", f).value.line) == Err(P.WrongShape)
  {
    var this_ := Ref(false, false, Path(false, "JsValue", []));
    f := M.ImportFn("n", Some(M.Getter), false, "g", [("this", this_)], Some(Tuple([])), None);
    assert f.params[..0] == [];
    assert M.LowerArg(this_) == Some(Lowered([U32], "handle"));
    assert M.LowerArgs(f.params).Some?;
    LineReadsBack("m", f);
  }
}
