/** `#[export]` (`export.rs`): the flattened entry point of an exported function and
    its descriptor line. */
module ExportMacro {
  import opened Wrappers
  import opened Text
  import opened RustTypes
  import opened WasmAbi

  datatype Error =
    | AsyncFn | GenericFn | UnsafeFn | ReservedWord | GlueName
    | NotASimpleName | MethodReceiver | UnsoundReference | UnsupportedArgument | UnsupportedReturn

  type Result<T> = Wrappers.Result<T, Error>

  /** JavaScript's reserved words, where a module's top level is strict. */
  predicate IsJsReservedWord(name: string) {
    name in {
      "await", "break", "case", "catch", "class", "const", "continue", "debugger", "default", "delete", "do", "else",
      "enum", "export", "extends", "false", "finally", "for", "function", "if", "implements", "import", "in",
      "instanceof", "interface", "let", "new", "null", "package", "private", "protected", "public", "return", "static",
      "super", "switch", "this", "throw", "true", "try", "typeof", "var", "void", "while", "with", "yield" }
  }

  /** Names the generated glue defines itself. */
  predicate IsGlueName(name: string) {
    name in { "instantiate", "setInstance", "makeImports", "makeMemory" } || "__wl_" <= name
  }

  /** `validate_export_ref`: the argument buffer dies with the call and is never copied back. */
  predicate SoundRef(ty: Ty) {
    ty.Ref? ==> !ty.isStatic && !ty.isMut
  }

  function DirectNumeric(ty: Ty): Option<string> {
    var n := Numeric(ty);
    if n == Some("i32") || n == Some("u32") || n == Some("f64") then n else None
  }

  /** `option_arg`: the discriminant, then the inner type's own parameters. */
  function OptionArg(inner: Ty): Result<Lowered> {
    if Numeric(inner).Some? then Ok(Lowered([I32, Scalar(Numeric(inner).value)], Numeric(inner).value))
    else if IsIdent(inner, "bool") then Ok(Lowered([I32, I32], "bool"))
    else if IsJsValue(inner) then Ok(Lowered([I32, U32], "handle"))
    else if IsStr(inner) then Ok(Lowered([I32, ConstPtr, Usize], "str"))
    else if IsByteSlice(inner) then Ok(Lowered([I32, ConstPtr, Usize], "bytes"))
    else Err(UnsupportedArgument)
  }

  function LowerArg(ty: Ty): Result<Lowered> {
    var optional := Generic1(ty, "Option");
    if optional.Some? then
      if !SoundRef(optional.value) then Err(UnsoundReference)
      else
        var l := OptionArg(optional.value);
        if l.Err? then l else Ok(Lowered(l.value.params, "opt:" + l.value.tag))
    else if IsStr(ty) || IsByteSlice(ty) then
      if !SoundRef(ty) then Err(UnsoundReference)
      else Ok(Lowered([ConstPtr, Usize], if IsStr(ty) then "str" else "bytes"))
    else if IsJsValue(ty) then Ok(Lowered([U32], "handle"))
    else if DirectNumeric(ty).Some? then Ok(Lowered([Scalar(DirectNumeric(ty).value)], DirectNumeric(ty).value))
    else if IsIdent(ty, "bool") then Ok(Lowered([I32], "bool"))
    else Err(UnsupportedArgument)
  }

  /** `payload`: the tag of a type written to the return buffer. */
  function Payload(ty: Ty): Option<string> {
    if IsUnit(ty) then Some("unit")
    else if Numeric(ty).Some? then Numeric(ty)
    else if IsIdent(ty, "bool") then Some("bool")
    else if IsIdent(ty, "JsValue") then Some("handle")
    else if IsIdent(ty, "String") then Some("str")
    else if IsVecU8(ty) then Some("bytes")
    else None
  }

  datatype Returned = Returned(tag: string, buffer: bool, result: Option<WasmTy>)

  function BuildReturn(output: Option<Ty>): Option<Returned> {
    if output == None || IsUnit(output.value) then Some(Returned("", false, None))
    else
      var ty := output.value;
      var optional, result := Generic1(ty, "Option"), Generic2(ty, "Result");
      if optional.Some? then
        var tag := Payload(optional.value);
        if tag.Some? then Some(Returned("opt:" + tag.value, true, None)) else None
      else if result.Some? then
        var ok, err := Payload(result.value.0), Payload(result.value.1);
        if ok.Some? && err.Some? then Some(Returned("res:" + ok.value + ":" + err.value, true, None)) else None
      else if DirectNumeric(ty).Some? then Some(Returned(DirectNumeric(ty).value, false, Some(Scalar(DirectNumeric(ty).value))))
      else if IsIdent(ty, "bool") then Some(Returned("bool", false, Some(I32)))
      else if IsIdent(ty, "String") then Some(Returned("str", false, Some(I64)))
      else if IsVecU8(ty) then Some(Returned("bytes", false, Some(I64)))
      else if IsIdent(ty, "JsValue") then Some(Returned("handle", false, Some(U32)))
      else None
  }

  /** One argument of the function: a type under a simple name, which is all that is
      supported, or any other pattern, or `self`. */
  datatype Arg = Named(ty: Ty) | Pattern | Receiver

  function LowerInput(input: Arg): Result<Lowered> {
    match input
    case Named(ty) => LowerArg(ty)
    case Pattern => Err(NotASimpleName)
    case Receiver => Err(MethodReceiver)
  }

  datatype ExportFn = ExportFn(
    name: string, isAsync: bool, isGeneric: bool, isUnsafe: bool, inputs: seq<Arg>, output: Option<Ty>)

  /** The entry point's parameters, `__ret` first if there is one, its wasm result, and
      the line, without its newline. */
  datatype Shim = Shim(params: seq<WasmTy>, result: Option<WasmTy>, line: string)

  function LowerArgs(inputs: seq<Arg>): Result<seq<Lowered>> {
    if inputs == [] then Ok([])
    else
      var before := LowerArgs(inputs[..|inputs| - 1]);
      var last := LowerInput(inputs[|inputs| - 1]);
      if before.Err? then before else if last.Err? then Err(last.error) else Ok(before.value + [last.value])
  }

  function CheckName(f: ExportFn): Option<Error> {
    if f.isAsync then Some(AsyncFn)
    else if f.isGeneric then Some(GenericFn)
    else if f.isUnsafe then Some(UnsafeFn)
    else if IsJsReservedWord(Unraw(f.name)) then Some(ReservedWord)
    else if IsGlueName(Unraw(f.name)) then Some(GlueName)
    else None
  }

  function BuildExport(f: ExportFn): Result<Shim> {
    if CheckName(f).Some? then Err(CheckName(f).value)
    else
      var args := LowerArgs(f.inputs);
      if args.Err? then Err(args.error)
      else
        var ret := BuildReturn(f.output);
        if ret == None then Err(UnsupportedReturn)
        else
          Ok(Shim((if ret.value.buffer then [MutPtr] else []) + Params(args.value), ret.value.result,
                  Join([Unraw(f.name), Join(Tags(args.value), ','), ret.value.tag], '|')))
  }

  lemma {:induction false} LowerArgsStops(inputs: seq<Arg>, i: nat)
    requires i <= |inputs| && LowerArgs(inputs[..i]).Err?
    ensures LowerArgs(inputs) == LowerArgs(inputs[..i])
  {
    if i < |inputs| {
      assert inputs[..|inputs| - 1][..i] == inputs[..i];
      LowerArgsStops(inputs[..|inputs| - 1], i);
    } else {
      assert inputs[..i] == inputs;
    }
  }

  /** `build_export`, with its argument loop. */
  method Expand(f: ExportFn) returns (r: Result<Shim>)
    ensures r == BuildExport(f)
  {
    hide LowerInput, BuildReturn, CheckName, Join;
    if CheckName(f).Some? {
      return Err(CheckName(f).value);
    }
    var flatParams: seq<WasmTy>, argTags: seq<string> := [], [];
    ghost var args: seq<Lowered> := [];
    for i := 0 to |f.inputs|
      invariant LowerArgs(f.inputs[..i]) == Ok(args)
      invariant flatParams == Params(args) && argTags == Tags(args)
    {
      var lowered := LowerInput(f.inputs[i]);
      assert f.inputs[..i + 1][..i] == f.inputs[..i];
      if lowered.Err? {
        LowerArgsStops(f.inputs, i + 1);
        return Err(lowered.error);
      }
      flatParams := flatParams + lowered.value.params;
      argTags := argTags + [lowered.value.tag];
      assert (args + [lowered.value])[..|args|] == args;
      args := args + [lowered.value];
    }
    assert f.inputs[..|f.inputs|] == f.inputs;
    var ret := BuildReturn(f.output);
    if ret == None {
      return Err(UnsupportedReturn);
    }
    assert [] + flatParams == flatParams;
    if ret.value.buffer {
      flatParams := [MutPtr] + flatParams;
    }
    return Ok(Shim(flatParams, ret.value.result, Join([Unraw(f.name), Join(argTags, ','), ret.value.tag], '|')));
  }
}
