/** What an exported function's signature means to the glue, and the proof that its
    descriptor line carries exactly that, whatever signature the macro accepts. */
module ExportAgreement {
  import opened Wrappers
  import opened Text
  import opened RustTypes
  import opened WasmAbi
  import opened JsLexer
  import E = ExportParser
  import X = ExportMacro
  import IM = ImportMeaning
  import IA = ImportAgreement

  function OptionalArg(inner: Ty): Option<E.Payload> {
    if Numeric(inner).Some? then Some(IM.NumericPayload(inner.name))
    else if IsIdent(inner, "bool") then Some(E.Bool)
    else if IsJsValue(inner) then Some(E.Handle)
    else if X.SoundRef(inner) && IsStr(inner) then Some(E.Str)
    else if X.SoundRef(inner) && IsByteSlice(inner) then Some(E.Bytes)
    else None
  }

  predicate IsDirect(ty: Ty) {
    IsIdent(ty, "i32") || IsIdent(ty, "u32") || IsIdent(ty, "f64")
  }

  /** A signature's argument, said without tags. */
  function ArgOf(ty: Ty): Option<E.ExportArg> {
    var optional := Generic1(ty, "Option");
    if optional.Some? then
      var p := OptionalArg(optional.value);
      if p.Some? then Some(E.OptArg(p.value)) else None
    else if IsStr(ty) && X.SoundRef(ty) then Some(E.StrArg)
    else if IsByteSlice(ty) && X.SoundRef(ty) then Some(E.BytesArg)
    else if IsJsValue(ty) then Some(E.HandleArg)
    else if IsDirect(ty) || IsIdent(ty, "bool") then Some(E.NumArg)
    else None
  }

  function InputOf(input: X.Arg): Option<E.ExportArg> {
    if input.Named? then ArgOf(input.ty) else None
  }

  function ArgsOf(inputs: seq<X.Arg>): Option<seq<E.ExportArg>> {
    if inputs == [] then Some([])
    else
      var before := ArgsOf(inputs[..|inputs| - 1]);
      var last := InputOf(inputs[|inputs| - 1]);
      if before.Some? && last.Some? then Some(before.value + [last.value]) else None
  }

  function RetOf(output: Option<Ty>): Option<E.ExportRet> {
    if output == None || IsUnit(output.value) then Some(E.VoidRet)
    else
      var ty := output.value;
      var optional, result := Generic1(ty, "Option"), Generic2(ty, "Result");
      if optional.Some? then
        var p := IM.PayloadOf(optional.value);
        if p.Some? then Some(E.OptRet(p.value)) else None
      else if result.Some? then
        var ok, err := IM.PayloadOf(result.value.0), IM.PayloadOf(result.value.1);
        if ok.Some? && err.Some? then Some(E.ResRet(ok.value, err.value)) else None
      else if IsIdent(ty, "u32") then Some(E.U32Ret)
      else if IsDirect(ty) then Some(E.ValueRet)
      else if IsIdent(ty, "bool") then Some(E.BoolRet)
      else if IsIdent(ty, "String") then Some(E.StrRet)
      else if IsVecU8(ty) then Some(E.BytesRet)
      else if IsJsValue(ty) then Some(E.HandleRet)
      else None
  }

  function Meaning(f: X.ExportFn): Option<E.Export> {
    var args, ret := ArgsOf(f.inputs), RetOf(f.output);
    if args.Some? && ret.Some? then Some(E.Export(Unraw(f.name), args.value, ret.value)) else None
  }

  /** How many wasm parameters cross for an argument. */
  function ParamCount(a: E.ExportArg): nat {
    match a
    case StrArg => 2
    case BytesArg => 2
    case OptArg(p) => 1 + E.PayloadParams(p)
    case _ => 1
  }

  function ArgSlots(a: E.ExportArg): seq<Slot> {
    match a
    case StrArg => [Address, Length]
    case BytesArg => [Address, Length]
    case HandleArg => [Index]
    case OptArg(p) => [Number] + IM.PayloadSlots(p)
    case NumArg => [Number]
  }

  function AllSlots(args: seq<E.ExportArg>): seq<Slot> {
    if args == [] then [] else AllSlots(args[..|args| - 1]) + ArgSlots(args[|args| - 1])
  }

  /** The wasm result: text and bytes packed into one 64-bit number. */
  function RetSlot(ret: E.ExportRet): Option<Slot> {
    match ret
    case HandleRet => Some(Index)
    case StrRet => Some(BigInt)
    case BytesRet => Some(BigInt)
    case BoolRet => Some(Number)
    case ValueRet => Some(Number)
    case U32Ret => Some(Number)
    case _ => None
  }

  lemma {:induction false} AllSlotsAreCounted(args: seq<E.ExportArg>)
    ensures |AllSlots(args)| == ParamTotal(args)
  {
    if args != [] {
      AllSlotsAreCounted(args[..|args| - 1]);
    }
  }

  function ParamTotal(args: seq<E.ExportArg>): nat {
    if args == [] then 0 else ParamTotal(args[..|args| - 1]) + ParamCount(args[|args| - 1])
  }

  lemma FixedTags()
    ensures E.ArgFromTag("str") == Some(E.StrArg) && E.ArgFromTag("bytes") == Some(E.BytesArg)
    ensures E.ArgFromTag("handle") == Some(E.HandleArg) && E.ArgFromTag("bool") == Some(E.NumArg)
    ensures E.ArgFromTag("i32") == E.ArgFromTag("u32") == E.ArgFromTag("f64") == Some(E.NumArg)
  {
  }

  lemma OptTag(tag: string)
    requires IA.Letters(tag) && E.PayloadFromTag(tag).Some?
    ensures IA.Plain("opt:" + tag)
    ensures E.ArgFromTag("opt:" + tag) == Some(E.OptArg(E.PayloadFromTag(tag).value))
  {
    hide E.PayloadFromTag;
    var s := "opt:" + tag;
    assert s[0] == 'o' && s[4..] == tag;
  }

  lemma OptionArgMeans(inner: Ty)
    ensures X.OptionArg(inner).Ok? && X.SoundRef(inner) <==> OptionalArg(inner).Some?
    ensures X.OptionArg(inner).Ok? && X.SoundRef(inner) ==>
      var l := X.OptionArg(inner).value;
      && IA.Letters(l.tag)
      && E.PayloadFromTag(l.tag) == OptionalArg(inner)
      && SlotsOf(l.params) == [Number] + IM.PayloadSlots(OptionalArg(inner).value)
  {
    hide E.PayloadFromTag, IM.NumericPayload, IM.NumericArg;
    IA.FixedPayloads();
    if Numeric(inner).Some? {
      IA.NumericTag(inner.name);
    }
  }

  lemma ArgAgrees(ty: Ty)
    ensures X.LowerArg(ty).Ok? <==> ArgOf(ty).Some?
    ensures X.LowerArg(ty).Ok? ==>
      var l := X.LowerArg(ty).value;
      && l.tag != "" && IA.Plain(l.tag)
      && E.ArgFromTag(l.tag) == ArgOf(ty)
      && SlotsOf(l.params) == ArgSlots(ArgOf(ty).value)
  {
    hide E.PayloadFromTag, E.ArgFromTag, X.OptionArg, OptionalArg;
    FixedTags();
    var optional := Generic1(ty, "Option");
    if optional.Some? {
      OptionArgMeans(optional.value);
      if X.OptionArg(optional.value).Ok? && X.SoundRef(optional.value) {
        OptTag(X.OptionArg(optional.value).value.tag);
      }
    }
  }

  lemma FixedRets()
    ensures E.ParseRet("") == Ok(E.VoidRet) && E.ParseRet("handle") == Ok(E.HandleRet)
    ensures E.ParseRet("str") == Ok(E.StrRet) && E.ParseRet("bytes") == Ok(E.BytesRet)
    ensures E.ParseRet("bool") == Ok(E.BoolRet) && E.ParseRet("u32") == Ok(E.U32Ret)
    ensures E.ParseRet("i32") == Ok(E.ValueRet) && E.ParseRet("f64") == Ok(E.ValueRet)
    ensures IA.Plain("") && IA.Plain("handle") && IA.Plain("str") && IA.Plain("bytes")
    ensures IA.Plain("bool") && IA.Plain("u32") && IA.Plain("i32") && IA.Plain("f64")
  {
    hide E.PayloadFromTag;
    assert "bytes"[0] == 'b' && "bool"[0] == 'b' && "handle"[0] == 'h';
  }

  lemma OptRet(tag: string)
    requires IA.Letters(tag) && E.PayloadFromTag(tag).Some?
    ensures IA.Plain("opt:" + tag) && E.ParseRet("opt:" + tag) == Ok(E.OptRet(E.PayloadFromTag(tag).value))
  {
    hide E.PayloadFromTag;
    assert ("opt:" + tag)[4..] == tag;
  }

  lemma ResRet(ok: string, err: string)
    requires IA.Letters(ok) && IA.Letters(err) && E.PayloadFromTag(ok).Some? && E.PayloadFromTag(err).Some?
    ensures IA.Plain("res:" + ok + ":" + err)
    ensures E.ParseRet("res:" + ok + ":" + err) == Ok(E.ResRet(E.PayloadFromTag(ok).value, E.PayloadFromTag(err).value))
  {
    hide E.PayloadFromTag;
    var s, pair := "res:" + ok + ":" + err, ok + ":" + err;
    assert s == "res:" + pair;
    StripPrefixOf("res:", pair);
    assert s[0] == 'r';
    SplitOnceOf(ok, err, ':');
  }

  lemma PayloadMeans(ty: Ty)
    ensures X.Payload(ty) == PayloadTag(ty)
  {
  }

  lemma RetAgrees(output: Option<Ty>)
    ensures X.BuildReturn(output).Some? <==> RetOf(output).Some?
    ensures X.BuildReturn(output).Some? ==>
      var r := X.BuildReturn(output).value;
      && IA.Plain(r.tag)
      && E.ParseRet(r.tag) == Ok(RetOf(output).value)
      && (r.buffer <==> RetOf(output).value.OptRet? || RetOf(output).value.ResRet?)
  {
    hide E.PayloadFromTag, E.ParseRet, IM.NumericPayload, PayloadTag, IM.PayloadOf, X.Payload, IA.Plain, IA.Letters;
    FixedRets();
    if output.Some? && !IsUnit(output.value) {
      var ty := output.value;
      var optional, result := Generic1(ty, "Option"), Generic2(ty, "Result");
      if optional.Some? {
        PayloadMeans(optional.value);
        IA.PayloadTagMeans(optional.value);
        if PayloadTag(optional.value).Some? {
          OptRet(PayloadTag(optional.value).value);
        }
      } else if result.Some? {
        PayloadMeans(result.value.0);
        PayloadMeans(result.value.1);
        IA.PayloadTagMeans(result.value.0);
        IA.PayloadTagMeans(result.value.1);
        if PayloadTag(result.value.0).Some? && PayloadTag(result.value.1).Some? {
          ResRet(PayloadTag(result.value.0).value, PayloadTag(result.value.1).value);
        }
      }
    }
  }

  lemma ResultAgrees(output: Option<Ty>)
    requires X.BuildReturn(output).Some? && RetOf(output).Some?
    ensures IM.ResultSlot(X.BuildReturn(output).value.result) == RetSlot(RetOf(output).value)
  {
    hide X.Payload, IM.PayloadOf, Generic2;
  }

  lemma {:induction false} ArgsAgree(inputs: seq<X.Arg>)
    ensures X.LowerArgs(inputs).Ok? <==> ArgsOf(inputs).Some?
    ensures X.LowerArgs(inputs).Ok? ==>
      var ls := X.LowerArgs(inputs).value;
      && (forall i :: 0 <= i < |Tags(ls)| ==> Tags(ls)[i] != "" && IA.Plain(Tags(ls)[i]))
      && |Tags(ls)| == |inputs|
      && E.ArgsFromTags(Tags(ls)) == Ok(ArgsOf(inputs).value)
      && SlotsOf(Params(ls)) == AllSlots(ArgsOf(inputs).value)
  {
    if inputs != [] {
      var init, last := inputs[..|inputs| - 1], inputs[|inputs| - 1];
      ArgsAgree(init);
      if last.Named? {
        ArgAgrees(last.ty);
      }
      hide X.LowerArg, ArgOf, E.ArgFromTag, IA.Plain;
      if X.LowerArgs(inputs).Ok? {
        var ls := X.LowerArgs(inputs).value;
        assert ls[..|ls| - 1] == X.LowerArgs(init).value;
        assert Tags(ls)[..|inputs| - 1] == Tags(ls[..|ls| - 1]);
        var args := ArgsOf(inputs).value;
        assert args[..|args| - 1] == ArgsOf(init).value;
        SlotsOfBoth(Params(ls[..|ls| - 1]), ls[|ls| - 1].params);
      }
    }
  }

  lemma ArgListReadsBack(tags: seq<string>)
    requires forall i :: 0 <= i < |tags| ==> tags[i] != "" && IA.Plain(tags[i])
    ensures E.ParseArgs(Join(tags, ',')) == E.ArgsFromTags(tags)
  {
    hide E.ArgFromTag;
    if tags != [] {
      JoinNonEmpty(tags, ',');
      SplitJoin(tags, ',');
    }
  }

  function Fields(name: string, tags: seq<string>, ret: string): seq<string> {
    [name, Join(tags, ','), ret]
  }

  lemma FieldsReadBack(name: string, tags: seq<string>, ret: string)
    requires IA.M.Clean(name) && IA.Plain(ret) && forall i :: 0 <= i < |tags| ==> IA.Plain(tags[i])
    ensures var fields := Fields(name, tags, ret);
      Split(Join(fields, '|'), '|') == fields && Lacks(Join(fields, '|'), '\n') && Lacks(Join(fields, '|'), '\r')
  {
    hide Split, Join;
    var fields := Fields(name, tags, ret);
    JoinLacks(tags, ',', '|');
    JoinLacks(tags, ',', '\n');
    JoinLacks(tags, ',', '\r');
    SplitJoin(fields, '|');
    JoinLacks(fields, '|', '\n');
    JoinLacks(fields, '|', '\r');
  }

  /** Every signature `#[export]` accepts has a meaning, and its section line, alone or
      among others, is read back as exactly that. */
  lemma LineReadsBack(f: X.ExportFn)
    requires IA.RustName(f.name) && X.BuildExport(f).Ok?
    ensures Meaning(f).Some?
    ensures var line := X.BuildExport(f).value.line;
      IA.OneLine(line) && E.ParseLine(line) == Ok(Meaning(f).value)
  {
    ArgsAgree(f.inputs);
    RetAgrees(f.output);
    var tags, ret := Tags(X.LowerArgs(f.inputs).value), X.BuildReturn(f.output).value.tag;
    ArgListReadsBack(tags);
    FieldsReadBack(Unraw(f.name), tags, ret);
    hide E.ParseArgs, E.ParseRet, E.ArgsFromTags, X.LowerArgs, X.BuildReturn, ArgsOf, RetOf, Tags, Params, ParamTotal,
         Split, Join, Lacks, StripCr, X.CheckName, IA.Plain;
    IA.NotEmptyAndNoCr(X.BuildExport(f).value.line);
  }

  predicate UsesBuffer(ret: E.ExportRet) {
    ret.OptRet? || ret.ResRet?
  }

  /** The entry point takes exactly what crosses for the parsed tags, an address in front if
      and only if the return is an `Option` or a `Result`, and its result is what crosses
      back. */
  lemma SignatureAgrees(f: X.ExportFn)
    requires X.BuildExport(f).Ok?
    ensures Meaning(f).Some?
    ensures var e := Meaning(f).value; var shim := X.BuildExport(f).value;
      && SlotsOf(shim.params) == (if UsesBuffer(e.ret) then [Address] else []) + AllSlots(e.args)
      && |shim.params| == ParamTotal(e.args) + (if UsesBuffer(e.ret) then 1 else 0)
      && IM.ResultSlot(shim.result) == RetSlot(e.ret)
  {
    ArgsAgree(f.inputs);
    RetAgrees(f.output);
    ResultAgrees(f.output);
    hide X.LowerArgs, X.BuildReturn, ArgsOf, RetOf, Params, X.CheckName, Join, AllSlots, ParamTotal, E.ParseRet, IA.Plain,
         SlotOf, RetSlot, IM.ResultSlot;
    var e := Meaning(f).value;
    AllSlotsAreCounted(e.args);
    WithBuffer(UsesBuffer(e.ret), Params(X.LowerArgs(f.inputs).value));
  }

  /** And no other: a function with a usable name is accepted exactly when its
      signature has a meaning. */
  lemma AcceptedExactlyWhenMeaningful(f: X.ExportFn)
    requires X.CheckName(f) == None
    ensures X.BuildExport(f).Ok? <==> Meaning(f).Some?
  {
    ArgsAgree(f.inputs);
    RetAgrees(f.output);
  }

  /** The names the generated module exports itself, and those of its own functions. */
  ghost predicate IsGlues(name: string) {
    name == "makeImports" || name == "instantiate" || name == "setInstance" || name == "makeMemory" ||
    exists rest :: name == "__wl_" + rest
  }

  /** Which functions `#[export]` accepts, from their signatures: `plain` is the name without
      its `r#`. The one kind of name that JavaScript could not declare and that is accepted
      nevertheless is `eval` and `arguments`. */
  lemma AcceptedExactly(f: X.ExportFn, plain: string)
    requires PlainName(f.name, plain)
    ensures X.BuildExport(f).Ok? <==>
      && !f.isAsync && !f.isGeneric && !f.isUnsafe
      && (IsBinding(plain) || plain == "eval" || plain == "arguments")
      && !IsGlues(plain)
      && ArgsOf(f.inputs).Some? && RetOf(f.output).Some?
  {
    UnrawIsPlain(f.name, plain);
    ArgsAgree(f.inputs);
    RetAgrees(f.output);
    ReservedAgrees(plain);
    GlueAgrees(plain);
    EvalIsNotReserved();
    hide X.IsJsReservedWord, IsReserved, X.IsGlueName, IsGlues, X.LowerArgs, X.BuildReturn, ArgsOf, RetOf, E.ParseRet, Join,
         Tags, Params;
  }

  /** So an accepted name can be declared in a module exactly if it is neither of these. */
  lemma AcceptedNamesDeclareExactly(f: X.ExportFn, plain: string)
    requires PlainName(f.name, plain) && X.BuildExport(f).Ok?
    ensures IsBinding(plain) <==> plain != "eval" && plain != "arguments"
  {
    AcceptedExactly(f, plain);
    hide IsReserved, X.BuildExport;
  }

  lemma EvalIsAccepted()
    ensures X.BuildExport(X.ExportFn("eval", false, false, false, [], None)).Ok? && !IsBinding("eval")
  {
    assert "eval"[0] == 'e';
    UnrawIsPlain("eval", "eval");
    ReservedAgrees("eval");
    EvalIsNotReserved();
    hide X.IsJsReservedWord, IsReserved;
  }

  lemma EvalIsNotReserved()
    ensures !IsReserved("eval") && !IsReserved("arguments")
  {
    assert "eval"[1] == 'v' && "arguments"[1] == 'r';
  }

  lemma ReservedAgrees(word: string)
    ensures X.IsJsReservedWord(word) <==> IsReserved(word)
  {
  }

  lemma GlueAgrees(name: string)
    ensures X.IsGlueName(name) <==> IsGlues(name)
  {
    if "__wl_" <= name {
      assert name == "__wl_" + name[5..];
    }
    forall rest | name == "__wl_" + rest ensures "__wl_" <= name {
    }
  }

  /** What is read of an export's line is what was written in the source. */
  lemma TheLineIsTheSignature(f: X.ExportFn, plain: string)
    requires IA.RustName(f.name) && X.BuildExport(f).Ok? && PlainName(f.name, plain)
    ensures ArgsOf(f.inputs).Some? && RetOf(f.output).Some?
    ensures E.ParseLine(X.BuildExport(f).value.line) == Ok(E.Export(plain, ArgsOf(f.inputs).value, RetOf(f.output).value))
  {
    LineReadsBack(f);
    UnrawIsPlain(f.name, plain);
  }

  /** Why a function is refused: what the error says of it is so. */
  lemma ARefusalIsTrue(f: X.ExportFn, plain: string)
    requires PlainName(f.name, plain) && X.BuildExport(f).Err?
    ensures match X.BuildExport(f).error
      case AsyncFn => f.isAsync
      case GenericFn => f.isGeneric
      case UnsafeFn => f.isUnsafe
      case ReservedWord => IsReserved(plain)
      case GlueName => IsGlues(plain)
      case NotASimpleName => X.Pattern in f.inputs
      case MethodReceiver => X.Receiver in f.inputs
      case UnsoundReference => ArgsOf(f.inputs) == None
      case UnsupportedArgument => ArgsOf(f.inputs) == None
      case UnsupportedReturn => RetOf(f.output) == None
  {
    UnrawIsPlain(f.name, plain);
    ArgsAgree(f.inputs);
    RetAgrees(f.output);
    ReservedAgrees(plain);
    GlueAgrees(plain);
    hide X.IsJsReservedWord, IsReserved, X.IsGlueName, IsGlues, X.BuildReturn, ArgsOf, RetOf, E.ParseRet, Join, Tags, Params;
    if X.LowerArgs(f.inputs).Err? {
      InputErrors(f.inputs);
    }
  }

  lemma {:induction false} InputErrors(inputs: seq<X.Arg>)
    requires X.LowerArgs(inputs).Err?
    ensures match X.LowerArgs(inputs).error
      case NotASimpleName => X.Pattern in inputs
      case MethodReceiver => X.Receiver in inputs
      case UnsoundReference => true
      case UnsupportedArgument => true
      case _ => false
  {
    if X.LowerArgs(inputs[..|inputs| - 1]).Err? {
      InputErrors(inputs[..|inputs| - 1]);
    }
  }

  /** A borrowed argument is accepted only as a plain `&`: not `&'static`, not `&mut`. */
  lemma OnlyPlainReferences(isStatic: bool, isMut: bool, qself: bool)
    ensures ArgOf(Ref(isStatic, isMut, Bare("str"))) == if isStatic || isMut then None else Some(E.StrArg)
    ensures ArgOf(Ref(isStatic, isMut, Slice(Bare("u8")))) == if isStatic || isMut then None else Some(E.BytesArg)
    ensures ArgOf(Path(qself, "Option", [TypeArg(Ref(isStatic, isMut, Bare("str")))])) ==
      if isStatic || isMut then None else Some(E.OptArg(E.Str))
    ensures ArgOf(Path(qself, "Option", [TypeArg(Ref(isStatic, isMut, Slice(Bare("u8"))))])) ==
      if isStatic || isMut then None else Some(E.OptArg(E.Bytes))
  {
  }

  /** A function `#[export]` accepts, with a name Rust could give it. */
  predicate Accepted(f: X.ExportFn) {
    IA.RustName(f.name) && X.BuildExport(f).Ok?
  }

  function LinesOf(fns: seq<X.ExportFn>): seq<string>
    requires forall i :: 0 <= i < |fns| ==> Accepted(fns[i])
  {
    if fns == [] then []
    else
      assert Accepted(fns[|fns| - 1]);
      LinesOf(fns[..|fns| - 1]) + [X.BuildExport(fns[|fns| - 1]).value.line]
  }

  function Meanings(fns: seq<X.ExportFn>): seq<E.Export> {
    if fns == [] then []
    else
      var last := Meaning(fns[|fns| - 1]);
      Meanings(fns[..|fns| - 1]) + if last.Some? then [last.value] else []
  }

  lemma {:induction false} LinesParse(fns: seq<X.ExportFn>)
    requires forall i :: 0 <= i < |fns| ==> Accepted(fns[i])
    ensures |Meanings(fns)| == |fns| && E.ParseLines(LinesOf(fns)) == Ok(Meanings(fns))
    ensures forall i :: 0 <= i < |LinesOf(fns)| ==> IA.OneLine(LinesOf(fns)[i])
  {
    if fns != [] {
      var init, last := fns[..|fns| - 1], fns[|fns| - 1];
      LinesParse(init);
      LineReadsBack(last);
      hide Accepted, X.BuildExport, Meaning, IA.OneLine, E.ParseLine;
      assert LinesOf(fns)[..|LinesOf(fns)| - 1] == LinesOf(init);
      assert X.BuildExport(last).value.line != "" by { OneLineMeans(X.BuildExport(last).value.line); }
    }
  }

  lemma OneLineMeans(line: string)
    requires IA.OneLine(line)
    ensures line != "" && Lacks(line, '\n') && StripCr(line) == line
  {
  }

  /** The whole section, however many functions a program exports: read back as exactly
      their signatures, in order. Unlike for imports, nothing accepted is refused later. */
  lemma SectionReadsBack(fns: seq<X.ExportFn>)
    requires forall i :: 0 <= i < |fns| ==> Accepted(fns[i])
    ensures |Meanings(fns)| == |fns|
    ensures E.ParseLines(Lines(Terminated(LinesOf(fns)))) == Ok(Meanings(fns))
  {
    LinesParse(fns);
    hide Accepted, LinesOf, Meanings;
    LinesOfTerminated(LinesOf(fns));
    NoCrToStrip(LinesOf(fns));
  }
}
