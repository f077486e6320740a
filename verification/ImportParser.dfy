/** `descriptor.rs` of the code generator: the import descriptors, one line each,
    `kind|namespace|import_name|js_name|argtags|rettag|variadic`. */
module ImportParser {
  import opened Wrappers
  import opened Text
  import ExportParser

  type Payload = ExportParser.Payload

  datatype Kind =
    | Function | Method | Getter | Setter | Constructor | IndexGet | IndexSet | StaticGetter | IndexDelete | InstanceOf

  datatype SliceElem = SI8 | SI16 | SU16 | SI32 | SU32 | SI64 | SU64 | SF32 | SF64

  datatype AbiArg =
    | Str | Bytes | Bool | Num | U32 | Handle | Opt(payload: Payload) | I64 | U64 | Handles | Slice(elem: SliceElem)

  datatype Ret =
    | Void | HandleRet | StrRet | BytesRet
    | OptRet(payload: Payload)
    | ResRet(ok: Payload, err: Payload)
    | ResOptRet(ok: Payload, err: Payload)
    | Value(scalar: string)

  datatype Descriptor = Descriptor(
    kind: Kind, namespace: string, importName: string, jsName: string, args: seq<AbiArg>, ret: Ret, variadic: bool)

  datatype Error = MalformedLine | BadVariadicFlag | UnknownKind | UnknownArgument | UnknownReturn | WrongShape

  type Result<T> = Wrappers.Result<T, Error>

  function ParamCount(a: AbiArg): nat {
    match a
    case Str => 2
    case Bytes => 2
    case Slice(_) => 2
    case Handles => 2
    case Opt(p) => 1 + ExportParser.PayloadParams(p)
    case _ => 1
  }

  function SliceElemFromTag(tag: string): Option<SliceElem> {
    if tag == "i8" then Some(SI8)
    else if tag == "i16" then Some(SI16)
    else if tag == "u16" then Some(SU16)
    else if tag == "i32" then Some(SI32)
    else if tag == "u32" then Some(SU32)
    else if tag == "i64" then Some(SI64)
    else if tag == "u64" then Some(SU64)
    else if tag == "f32" then Some(SF32)
    else if tag == "f64" then Some(SF64)
    else None
  }

  function ArgFromTag(tag: string): Option<AbiArg> {
    if tag == "str" then Some(Str)
    else if tag == "bytes" then Some(Bytes)
    else if tag == "bool" then Some(Bool)
    else if tag == "handle" then Some(Handle)
    else if tag == "handles" then Some(Handles)
    else if tag == "i8" || tag == "i16" || tag == "i32" || tag == "isize" ||
            tag == "u8" || tag == "u16" || tag == "f32" || tag == "f64" then Some(Num)
    else if tag == "u32" || tag == "usize" then Some(U32)
    else if tag == "i64" then Some(I64)
    else if tag == "u64" then Some(U64)
    else
      var slice := StripPrefix(tag, "slice:");
      var opt := StripPrefix(tag, "opt:");
      if slice.Some? then
        var elem := SliceElemFromTag(slice.value);
        if elem.Some? then Some(Slice(elem.value)) else None
      else if opt.Some? then
        var p := ExportParser.PayloadFromTag(opt.value);
        if p.Some? then Some(Opt(p.value)) else None
      else None
  }

  function ArgsFromTags(tags: seq<string>): Option<seq<AbiArg>> {
    if tags == [] then Some([])
    else
      var before := ArgsFromTags(tags[..|tags| - 1]);
      var last := ArgFromTag(tags[|tags| - 1]);
      if before.Some? && last.Some? then Some(before.value + [last.value]) else None
  }

  function ParseArgs(argTags: string): Option<seq<AbiArg>> {
    if argTags == "" then Some([]) else ArgsFromTags(Split(argTags, ','))
  }

  predicate IsScalar(tag: string) {
    tag == "i8" || tag == "i16" || tag == "i32" || tag == "i64" || tag == "isize" ||
    tag == "u8" || tag == "u16" || tag == "u32" || tag == "u64" || tag == "usize" ||
    tag == "f32" || tag == "f64" || tag == "bool"
  }

  function ParsePair(rest: string): Option<(Payload, Payload)> {
    var parts := SplitOnce(rest, ':');
    if parts == None then None
    else
      var ok, err := ExportParser.PayloadFromTag(parts.value.0), ExportParser.PayloadFromTag(parts.value.1);
      if ok.Some? && err.Some? then Some((ok.value, err.value)) else None
  }

  function ParseRet(tag: string): Option<Ret> {
    var opt := StripPrefix(tag, "opt:");
    var resOpt := StripPrefix(tag, "resopt:");
    var res := StripPrefix(tag, "res:");
    if opt.Some? then
      var p := ExportParser.PayloadFromTag(opt.value);
      if p.Some? then Some(OptRet(p.value)) else None
    else if resOpt.Some? then
      var pair := ParsePair(resOpt.value);
      if pair.Some? then Some(ResOptRet(pair.value.0, pair.value.1)) else None
    else if res.Some? then
      var pair := ParsePair(res.value);
      if pair.Some? then Some(ResRet(pair.value.0, pair.value.1)) else None
    else if tag == "" then Some(Void)
    else if tag == "handle" then Some(HandleRet)
    else if tag == "str" then Some(StrRet)
    else if tag == "bytes" then Some(BytesRet)
    else if IsScalar(tag) then Some(Value(tag))
    else None
  }

  function KindFromTag(tag: string): Option<Kind> {
    if tag == "f" then Some(Function)
    else if tag == "m" then Some(Method)
    else if tag == "g" then Some(Getter)
    else if tag == "s" then Some(Setter)
    else if tag == "n" then Some(Constructor)
    else if tag == "ig" then Some(IndexGet)
    else if tag == "is" then Some(IndexSet)
    else if tag == "io" then Some(InstanceOf)
    else if tag == "sg" then Some(StaticGetter)
    else if tag == "id" then Some(IndexDelete)
    else None
  }

  predicate NeedsReceiver(kind: Kind) {
    kind == Method || kind == Getter || kind == Setter || kind == IndexGet || kind == IndexSet ||
    kind == IndexDelete || kind == InstanceOf
  }

  /** For the kinds of fixed shape, the arity and whether a value must be returned. */
  function Expected(kind: Kind): Option<(nat, bool)> {
    match kind
    case Getter => Some((1, true))
    case InstanceOf => Some((1, true))
    case StaticGetter => Some((0, true))
    case IndexGet => Some((2, true))
    case IndexSet => Some((3, false))
    case _ => None
  }

  /** `check_shape`: whether a descriptor fits what its kind can emit. */
  predicate CheckShape(kind: Kind, args: seq<AbiArg>, ret: Ret, variadic: bool) {
    && (variadic ==> kind == Function || kind == Method || kind == Constructor)
    && (NeedsReceiver(kind) ==> args != [] && args[0] == Handle)
    && (Expected(kind).Some? ==>
          && |args| == Expected(kind).value.0
          && (Expected(kind).value.1 <==> ret != Void))
    && (kind == Setter ==> |args| == 2 && (ret == Void || (ret.ResRet? && ret.ok == ExportParser.Unit)))
    && (kind == IndexDelete ==> |args| == 2 && (ret == Void || ret == Value("bool")))
    && (kind == InstanceOf ==> ret == Value("bool"))
    && (kind == Constructor ==>
          || ret == HandleRet
          || (ret.ResRet? && ret.ok == ExportParser.Handle)
          || (ret.OptRet? && ret.payload == ExportParser.Handle))
  }

  function ParseLine(line: string): Result<Descriptor> {
    var fields := Split(line, '|');
    if !(6 <= |fields| <= 7) then Err(MalformedLine)
    else if |fields| == 7 && fields[6] != "" && fields[6] != "1" then Err(BadVariadicFlag)
    else if fields[1] == "" || fields[2] == "" || fields[3] == "" then Err(MalformedLine)
    else
      var variadic := |fields| == 7 && fields[6] == "1";
      var kind := KindFromTag(fields[0]);
      var args := ParseArgs(fields[4]);
      var ret := ParseRet(fields[5]);
      if kind == None then Err(UnknownKind)
      else if args == None then Err(UnknownArgument)
      else if ret == None then Err(UnknownReturn)
      else if !CheckShape(kind.value, args.value, ret.value, variadic) then Err(WrongShape)
      else Ok(Descriptor(kind.value, fields[1], fields[2], fields[3], args.value, ret.value, variadic))
  }

  /** Line by line, skipping empty lines, stopping at the first bad one. */
  function ParseLines(lines: seq<string>): Result<seq<Descriptor>> {
    if lines == [] then Ok([])
    else
      var before := ParseLines(lines[..|lines| - 1]);
      var line := lines[|lines| - 1];
      if before.Err? || line == "" then before
      else
        var last := ParseLine(line);
        if last.Err? then Err(last.error) else Ok(before.value + [last.value])
  }

  lemma {:induction false} ErrorsStick(lines: seq<string>, i: nat)
    requires i <= |lines| && ParseLines(lines[..i]).Err?
    ensures ParseLines(lines) == ParseLines(lines[..i])
  {
    if i < |lines| {
      assert lines[..|lines| - 1][..i] == lines[..i];
      ErrorsStick(lines[..|lines| - 1], i);
    } else {
      assert lines[..i] == lines;
    }
  }

  method Parse(text: string) returns (r: Result<seq<Descriptor>>)
    ensures r == ParseLines(Lines(text))
  {
    var lines := Lines(text);
    var descriptors: seq<Descriptor> := [];
    var i := 0;
    while i < |lines|
      invariant 0 <= i <= |lines|
      invariant ParseLines(lines[..i]) == Ok(descriptors)
    {
      assert lines[..i + 1][..i] == lines[..i];
      if lines[i] != "" {
        var d := ParseLine(lines[i]);
        if d.Err? {
          ErrorsStick(lines, i + 1);
          return Err(d.error);
        }
        descriptors := descriptors + [d.value];
      }
      i := i + 1;
    }
    assert lines[..i] == lines;
    return Ok(descriptors);
  }
}
