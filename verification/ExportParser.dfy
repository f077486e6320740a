/** `exports.rs` of the code generator: the export descriptors, one line each,
    `name|argtags|rettag`, and the ABI their tags stand for. */
module ExportParser {
  import opened Wrappers
  import opened Text

  datatype Payload =
    | Unit | I8 | I16 | U8 | U16 | I64 | U64 | F32 | I32 | U32 | F64 | Bool | Str | Bytes | Handle

  /** How many wasm parameters a payload takes: a pointer and a length for text and bytes. */
  function PayloadParams(p: Payload): nat {
    match p
    case Unit => 0
    case Str => 2
    case Bytes => 2
    case _ => 1
  }

  function PayloadFromTag(tag: string): Option<Payload> {
    if tag == "unit" then Some(Unit)
    else if tag == "i8" then Some(I8)
    else if tag == "i16" then Some(I16)
    else if tag == "u8" then Some(U8)
    else if tag == "u16" then Some(U16)
    else if tag == "i64" then Some(I64)
    else if tag == "u64" then Some(U64)
    else if tag == "f32" then Some(F32)
    else if tag == "isize" then Some(I32)
    else if tag == "usize" then Some(U32)
    else if tag == "i32" then Some(I32)
    else if tag == "u32" then Some(U32)
    else if tag == "f64" then Some(F64)
    else if tag == "bool" then Some(Bool)
    else if tag == "str" then Some(Str)
    else if tag == "bytes" then Some(Bytes)
    else if tag == "handle" then Some(Handle)
    else None
  }

  datatype ExportArg = NumArg | StrArg | BytesArg | HandleArg | OptArg(payload: Payload)

  datatype ExportRet =
    | VoidRet | BoolRet | ValueRet | U32Ret | StrRet | BytesRet | HandleRet
    | OptRet(payload: Payload)
    | ResRet(ok: Payload, err: Payload)

  datatype Export = Export(name: string, args: seq<ExportArg>, ret: ExportRet)

  /** Why a section is refused. */
  datatype Error = MalformedLine | UnknownArgument | UnknownReturn

  type Result<T> = Wrappers.Result<T, Error>

  function ArgFromTag(tag: string): Option<ExportArg> {
    if tag == "str" then Some(StrArg)
    else if tag == "bytes" then Some(BytesArg)
    else if tag == "handle" then Some(HandleArg)
    else if tag == "i32" || tag == "u32" || tag == "f64" || tag == "bool" then Some(NumArg)
    else
      var inner := StripPrefix(tag, "opt:");
      if inner.Some? && PayloadFromTag(inner.value).Some? then Some(OptArg(PayloadFromTag(inner.value).value)) else None
  }

  function ArgsFromTags(tags: seq<string>): Result<seq<ExportArg>> {
    if tags == [] then Ok([])
    else
      var before := ArgsFromTags(tags[..|tags| - 1]);
      var last := ArgFromTag(tags[|tags| - 1]);
      if before.Err? then before else if last == None then Err(UnknownArgument) else Ok(before.value + [last.value])
  }

  /** The argument list of one line; no tags at all is no arguments. */
  function ParseArgs(argTags: string): Result<seq<ExportArg>> {
    if argTags == "" then Ok([]) else ArgsFromTags(Split(argTags, ','))
  }

  function ParseRet(tag: string): Result<ExportRet> {
    var opt := StripPrefix(tag, "opt:");
    var res := StripPrefix(tag, "res:");
    if opt.Some? then
      var p := PayloadFromTag(opt.value);
      if p.Some? then Ok(OptRet(p.value)) else Err(UnknownReturn)
    else if res.Some? then
      var parts := SplitOnce(res.value, ':');
      if parts == None then Err(UnknownReturn)
      else
        var ok, err := PayloadFromTag(parts.value.0), PayloadFromTag(parts.value.1);
        if ok.Some? && err.Some? then Ok(ResRet(ok.value, err.value)) else Err(UnknownReturn)
    else if tag == "" then Ok(VoidRet)
    else if tag == "bool" then Ok(BoolRet)
    else if tag == "str" then Ok(StrRet)
    else if tag == "bytes" then Ok(BytesRet)
    else if tag == "handle" then Ok(HandleRet)
    else if tag == "u32" then Ok(U32Ret)
    else if tag == "i32" || tag == "f64" then Ok(ValueRet)
    else Err(UnknownReturn)
  }

  function ParseLine(line: string): Result<Export> {
    var fields := Split(line, '|');
    if |fields| != 3 || fields[0] == "" then Err(MalformedLine)
    else
      var args := ParseArgs(fields[1]);
      var ret := ParseRet(fields[2]);
      if args.Err? then Err(args.error)
      else if ret.Err? then Err(ret.error)
      else Ok(Export(fields[0], args.value, ret.value))
  }

  /** Line by line, skipping empty lines, stopping at the first bad one. */
  function ParseLines(lines: seq<string>): Result<seq<Export>> {
    if lines == [] then Ok([])
    else
      var before := ParseLines(lines[..|lines| - 1]);
      var line := lines[|lines| - 1];
      if before.Err? || line == "" then before
      else
        var last := ParseLine(line);
        if last.Err? then Err(last.error) else Ok(before.value + [last.value])
  }

  lemma {:induction false} ErrorsStick(lines: seq<string>, i: nat)
    requires i <= |lines| && ParseLines(lines[..i]).Err?
    ensures ParseLines(lines) == ParseLines(lines[..i])
  {
    if i < |lines| {
      assert lines[..|lines| - 1][..i] == lines[..i];
      ErrorsStick(lines[..|lines| - 1], i);
    } else {
      assert lines[..i] == lines;
    }
  }

  method Parse(text: string) returns (r: Result<seq<Export>>)
    ensures r == ParseLines(Lines(text))
  {
    var lines := Lines(text);
    var exports: seq<Export> := [];
    var i := 0;
    while i < |lines|
      invariant 0 <= i <= |lines|
      invariant ParseLines(lines[..i]) == Ok(exports)
    {
      assert lines[..i + 1][..i] == lines[..i];
      if lines[i] != "" {
        var d := ParseLine(lines[i]);
        if d.Err? {
          ErrorsStick(lines, i + 1);
          return Err(d.error);
        }
        exports := exports + [d.value];
      }
      i := i + 1;
    }
    assert lines[..i] == lines;
    return Ok(exports);
  }
}
