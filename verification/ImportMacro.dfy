/** `import!` (`import.rs`): the wasm parameters each imported function is declared
    with, and the descriptor line it contributes. */
module ImportMacro {
  import opened Wrappers
  import opened Text
  import opened RustTypes
  import opened WasmAbi

  datatype Error =
    | BadString | UnsupportedArgument | MissingReceiver | WrongArity | MustReturn | MustNotReturn
    | VariadicOnNonCall | UnsupportedReturn

  type Result<T> = Wrappers.Result<T, Error>

  /** `option_arg`: the discriminant, then the inner type's own parameters. */
  function OptionArg(inner: Ty): Option<Lowered> {
    if IsStr(inner) then Some(Lowered([I32, ConstPtr, Usize], "str"))
    else if IsByteSlice(inner) then Some(Lowered([I32, if IsMutRef(inner) then MutPtr else ConstPtr, Usize], "bytes"))
    else if IsRefJsValue(inner) then Some(Lowered([I32, U32], "handle"))
    else if IsIdent(inner, "bool") then Some(Lowered([I32, I32], "bool"))
    else if Numeric(inner).Some? then Some(Lowered([I32, Scalar(Numeric(inner).value)], Numeric(inner).value))
    else None
  }

  function LowerArg(ty: Ty): Option<Lowered> {
    if Generic1(ty, "Option").Some? then
      var inner := OptionArg(Generic1(ty, "Option").value);
      if inner.Some? then Some(Lowered(inner.value.params, "opt:" + inner.value.tag)) else None
    else if IsIdent(ty, "String") || IsStr(ty) then Some(Lowered([ConstPtr, Usize], "str"))
    else if IsByteSlice(ty) then Some(Lowered([if IsMutRef(ty) then MutPtr else ConstPtr, Usize], "bytes"))
    else if IsHandleSlice(ty) then Some(Lowered([ConstPtr, Usize], "handles"))
    else if NumericSlice(ty).Some? then
      Some(Lowered([if IsMutRef(ty) then MutPtr else ConstPtr, Usize], "slice:" + NumericSlice(ty).value))
    else if IsRefJsValue(ty) then Some(Lowered([U32], "handle"))
    else if IsIdent(ty, "bool") then Some(Lowered([I32], "bool"))
    else if Numeric(ty).Some? then Some(Lowered([Scalar(Numeric(ty).value)], Numeric(ty).value))
    else None
  }

  /** What a return becomes: its tag, whether it goes through a `__ret` buffer, and the
      wasm result, if there is one. */
  datatype Returned = Returned(tag: string, buffer: bool, result: Option<WasmTy>)

  function BuildReturn(ret: Option<Ty>): Option<Returned> {
    if ret == None || IsUnit(ret.value) then Some(Returned("", false, None))
    else
      var ty := ret.value;
      if IsIdent(ty, "bool") then Some(Returned("bool", false, Some(I32)))
      else if IsJsValue(ty) then Some(Returned("handle", false, Some(U32)))
      else if IsIdent(ty, "String") then Some(Returned("str", false, Some(I64)))
      else if IsVecU8(ty) then Some(Returned("bytes", false, Some(I64)))
      else if Numeric(ty).Some? then Some(Returned(Numeric(ty).value, false, Some(Scalar(Numeric(ty).value))))
      else if Generic1(ty, "Option").Some? then
        var tag := PayloadTag(Generic1(ty, "Option").value);
        if tag.Some? then Some(Returned("opt:" + tag.value, true, None)) else None
      else if Generic2(ty, "Result").Some? then
        var (okTy, errTy) := Generic2(ty, "Result").value;
        var nullable := Generic1(okTy, "Option");
        var ok := PayloadTag(if nullable.Some? then nullable.value else okTy);
        var err := PayloadTag(errTy);
        if ok.Some? && err.Some? then
          Some(Returned((if nullable.Some? then "resopt:" else "res:") + ok.value + ":" + err.value, true, None))
        else None
      else None
  }

  /** The explicit binding kinds. */
  datatype KindAttr =
    | Getter | Setter | Constructor | IndexingGetter | IndexingSetter | Instanceof | StaticGetter | IndexingDeleter

  function KindTag(k: KindAttr): string {
    match k
    case Getter => "g"
    case Setter => "s"
    case Constructor => "n"
    case IndexingGetter => "ig"
    case IndexingSetter => "is"
    case Instanceof => "io"
    case StaticGetter => "sg"
    case IndexingDeleter => "id"
  }

  /** The exact parameter count, with the receiver, where there is one. */
  function KindArity(k: KindAttr): Option<nat> {
    match k
    case Getter => Some(1)
    case Setter => Some(2)
    case Constructor => None
    case IndexingGetter => Some(2)
    case IndexingSetter => Some(3)
    case Instanceof => Some(1)
    case StaticGetter => Some(0)
    case IndexingDeleter => Some(2)
  }

  /** Whether a return type must, or must not, be written. */
  function KindReturns(k: KindAttr): Option<bool> {
    match k
    case Setter => None
    case IndexingDeleter => None
    case IndexingSetter => Some(false)
    case _ => Some(true)
  }

  predicate KindHasReceiver(k: KindAttr) {
    k != Constructor && k != StaticGetter
  }

  /** One `fn` of an `import!` block, with its namespace. */
  datatype ImportFn = ImportFn(
    namespace: string, kind: Option<KindAttr>, variadic: bool, name: string,
    params: seq<(string, Ty)>, ret: Option<Ty>, js: Option<string>)

  /** `check_descriptor_str`: nothing that would shift the line's fields. */
  predicate Clean(s: string) {
    forall i :: 0 <= i < |s| ==> s[i] != '|' && !IsControl(s[i])
  }

  predicate CheckDescriptorStr(s: string) {
    s != "" && Clean(s)
  }

  function LowerArgs(params: seq<(string, Ty)>): Option<seq<Lowered>> {
    if params == [] then Some([])
    else
      var before := LowerArgs(params[..|params| - 1]);
      var last := LowerArg(params[|params| - 1].1);
      if before.Some? && last.Some? then Some(before.value + [last.value]) else None
  }

  predicate HasReceiver(params: seq<(string, Ty)>) {
    params != [] && params[0].0 == "this" && IsRefJsValue(params[0].1)
  }

  /** The kind tag, once the attribute's demands are met. */
  function PickKind(f: ImportFn): Result<string> {
    if f.kind == None then Ok(if HasReceiver(f.params) then "m" else "f")
    else
      var k := f.kind.value;
      if KindHasReceiver(k) && !HasReceiver(f.params) then Err(MissingReceiver)
      else if KindArity(k).Some? && |f.params| != KindArity(k).value then Err(WrongArity)
      else if KindReturns(k) == Some(true) && f.ret == None then Err(MustReturn)
      else if KindReturns(k) == Some(false) && f.ret.Some? then Err(MustNotReturn)
      else Ok(KindTag(k))
  }

  /** What one function expands to: the parameters its wasm import declares, `__ret`
      first if there is one, its wasm result, and its descriptor line, without the newline. */
  datatype Binding = Binding(externParams: seq<WasmTy>, result: Option<WasmTy>, line: string)

  function JsName(f: ImportFn): string {
    if f.js.Some? then f.js.value else Unraw(f.name)
  }

  function DescriptorFields(modulePath: string, f: ImportFn, kind: string, tags: seq<string>, ret: string): seq<string> {
    [kind, f.namespace, modulePath + "::" + f.name, JsName(f), Join(tags, ','), ret, if f.variadic then "1" else ""]
  }

  /** One binding, its strings with it. */
  function BuildFn(modulePath: string, f: ImportFn): Result<Binding> {
    if !CheckDescriptorStr(f.namespace) || (f.js.Some? && !CheckDescriptorStr(f.js.value)) then Err(BadString)
    else
      var args := LowerArgs(f.params);
      if args == None then Err(UnsupportedArgument)
      else
        var kind := PickKind(f);
        if kind.Err? then Err(kind.error)
        else if f.variadic && kind.value != "f" && kind.value != "m" && kind.value != "n" then Err(VariadicOnNonCall)
        else
          var ret := BuildReturn(f.ret);
          if ret == None then Err(UnsupportedReturn)
          else
            var fields := DescriptorFields(modulePath, f, kind.value, Tags(args.value), ret.value.tag);
            Ok(Binding((if ret.value.buffer then [MutPtr] else []) + Params(args.value), ret.value.result, Join(fields, '|')))
  }

  lemma {:induction false} LowerArgsStops(params: seq<(string, Ty)>, i: nat)
    requires i <= |params| && LowerArgs(params[..i]) == None
    ensures LowerArgs(params) == None
  {
    if i < |params| {
      assert params[..|params| - 1][..i] == params[..i];
      LowerArgsStops(params[..|params| - 1], i);
    } else {
      assert params[..i] == params;
    }
  }

  /** `build_fn`, with its argument loop. */
  method ExpandFn(modulePath: string, f: ImportFn) returns (r: Result<Binding>)
    ensures r == BuildFn(modulePath, f)
  {
    hide LowerArg, BuildReturn, PickKind, Join, CheckDescriptorStr;
    if !CheckDescriptorStr(f.namespace) || (f.js.Some? && !CheckDescriptorStr(f.js.value)) {
      return Err(BadString);
    }
    var externParams: seq<WasmTy>, argTags: seq<string> := [], [];
    ghost var args: seq<Lowered> := [];
    for i := 0 to |f.params|
      invariant LowerArgs(f.params[..i]) == Some(args)
      invariant externParams == Params(args) && argTags == Tags(args)
    {
      var lowered := LowerArg(f.params[i].1);
      assert f.params[..i + 1][..i] == f.params[..i];
      if lowered == None {
        LowerArgsStops(f.params, i + 1);
        return Err(UnsupportedArgument);
      }
      externParams := externParams + lowered.value.params;
      argTags := argTags + [lowered.value.tag];
      assert (args + [lowered.value])[..|args|] == args;
      args := args + [lowered.value];
    }
    assert f.params[..|f.params|] == f.params;
    var kind := PickKind(f);
    if kind.Err? {
      return Err(kind.error);
    }
    if f.variadic && kind.value != "f" && kind.value != "m" && kind.value != "n" {
      return Err(VariadicOnNonCall);
    }
    var ret := BuildReturn(f.ret);
    if ret == None {
      return Err(UnsupportedReturn);
    }
    var fields := DescriptorFields(modulePath, f, kind.value, argTags, ret.value.tag);
    return Ok(Binding((if ret.value.buffer then [MutPtr] else []) + externParams, ret.value.result, Join(fields, '|')));
  }

  /** `build`: every function of the invocation, or its first error; the descriptor
      section is the lines in order. */
  function BuildAll(modulePath: string, fns: seq<ImportFn>): Result<seq<Binding>> {
    if fns == [] then Ok([])
    else
      var before := BuildAll(modulePath, fns[..|fns| - 1]);
      var last := BuildFn(modulePath, fns[|fns| - 1]);
      if before.Err? then before else if last.Err? then Err(last.error) else Ok(before.value + [last.value])
  }

  lemma {:induction false} BuildAllStops(modulePath: string, fns: seq<ImportFn>, i: nat)
    requires i <= |fns| && BuildAll(modulePath, fns[..i]).Err?
    ensures BuildAll(modulePath, fns) == BuildAll(modulePath, fns[..i])
  {
    hide BuildFn;
    if i < |fns| {
      assert fns[..|fns| - 1][..i] == fns[..i];
      BuildAllStops(modulePath, fns[..|fns| - 1], i);
    } else {
      assert fns[..i] == fns;
    }
  }

  /** Every string of an invocation is looked at while it is parsed, before any binding is
      built: those of its blocks, in order, and those of its functions. */
  predicate StringsOk(namespaces: seq<string>, fns: seq<ImportFn>) {
    && (forall i :: 0 <= i < |namespaces| ==> CheckDescriptorStr(namespaces[i]))
    && (forall i :: 0 <= i < |fns| ==> OwnStringsOk(fns[i]))
  }

  predicate OwnStringsOk(f: ImportFn) {
    CheckDescriptorStr(f.namespace) && (f.js.Some? ==> CheckDescriptorStr(f.js.value))
  }

  function Expansion(modulePath: string, namespaces: seq<string>, fns: seq<ImportFn>): Result<seq<Binding>> {
    if !StringsOk(namespaces, fns) then Err(BadString) else BuildAll(modulePath, fns)
  }

  /** A whole invocation: the namespaces of its blocks, and the functions in them. */
  method Expand(modulePath: string, namespaces: seq<string>, fns: seq<ImportFn>) returns (r: Result<seq<Binding>>)
    ensures r == Expansion(modulePath, namespaces, fns)
  {
    hide BuildFn, CheckDescriptorStr;
    for i := 0 to |namespaces|
      invariant forall k :: 0 <= k < i ==> CheckDescriptorStr(namespaces[k])
    {
      if !CheckDescriptorStr(namespaces[i]) {
        return Err(BadString);
      }
    }
    for i := 0 to |fns|
      invariant forall k :: 0 <= k < i ==> OwnStringsOk(fns[k])
    {
      if !OwnStringsOk(fns[i]) {
        return Err(BadString);
      }
    }
    var items: seq<Binding> := [];
    for i := 0 to |fns|
      invariant BuildAll(modulePath, fns[..i]) == Ok(items)
    {
      assert fns[..i + 1][..i] == fns[..i];
      var item := ExpandFn(modulePath, fns[i]);
      if item.Err? {
        BuildAllStops(modulePath, fns, i + 1);
        return Err(item.error);
      }
      items := items + [item.value];
    }
    assert fns[..|fns|] == fns;
    return Ok(items);
  }

  function LinesOf(bindings: seq<Binding>): seq<string> {
    if bindings == [] then [] else LinesOf(bindings[..|bindings| - 1]) + [bindings[|bindings| - 1].line]
  }

  function Section(bindings: seq<Binding>): string {
    Terminated(LinesOf(bindings))
  }
}
