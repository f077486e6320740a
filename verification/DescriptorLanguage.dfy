/** The lines the code generator accepts, written the other way round: which texts stand for
    which descriptor. */
module ExportLanguage {
  import opened Wrappers
  import opened Text
  import E = ExportParser
  import IA = ImportAgreement

  /** Every way to write a payload. */
  function PayloadTags(p: E.Payload): set<string> {
    match p
    case Unit => {"unit"}
    case I8 => {"i8"}
    case I16 => {"i16"}
    case U8 => {"u8"}
    case U16 => {"u16"}
    case I64 => {"i64"}
    case U64 => {"u64"}
    case F32 => {"f32"}
    case I32 => {"i32", "isize"}
    case U32 => {"u32", "usize"}
    case F64 => {"f64"}
    case Bool => {"bool"}
    case Str => {"str"}
    case Bytes => {"bytes"}
    case Handle => {"handle"}
  }

  /** `tag` is `prefix` and a payload. */
  ghost predicate Prefixed(tag: string, prefix: string, p: E.Payload) {
    exists t :: t in PayloadTags(p) && tag == prefix + t
  }

  ghost predicate PrefixedPair(tag: string, prefix: string, ok: E.Payload, err: E.Payload) {
    exists t, u :: t in PayloadTags(ok) && u in PayloadTags(err) && tag == prefix + (t + ":" + u)
  }

  ghost predicate ArgTag(tag: string, a: E.ExportArg) {
    match a
    case NumArg => tag in {"i32", "u32", "f64", "bool"}
    case StrArg => tag == "str"
    case BytesArg => tag == "bytes"
    case HandleArg => tag == "handle"
    case OptArg(p) => Prefixed(tag, "opt:", p)
  }

  ghost predicate RetTag(tag: string, ret: E.ExportRet) {
    match ret
    case VoidRet => tag == ""
    case BoolRet => tag == "bool"
    case ValueRet => tag in {"i32", "f64"}
    case U32Ret => tag == "u32"
    case StrRet => tag == "str"
    case BytesRet => tag == "bytes"
    case HandleRet => tag == "handle"
    case OptRet(p) => Prefixed(tag, "opt:", p)
    case ResRet(ok, err) => PrefixedPair(tag, "res:", ok, err)
  }

  ghost predicate ArgTags(tags: seq<string>, args: seq<E.ExportArg>) {
    |tags| == |args| && forall i :: 0 <= i < |tags| ==> ArgTag(tags[i], args[i])
  }

  /** `name|argtags|rettag`. */
  ghost predicate Writes(line: string, e: E.Export, tags: seq<string>, ret: string) {
    && line == Join([e.name, Join(tags, ','), ret], '|')
    && e.name != "" && Lacks(e.name, '|')
    && ArgTags(tags, e.args) && RetTag(ret, e.ret)
  }

  lemma PayloadReads(tag: string, p: E.Payload)
    ensures E.PayloadFromTag(tag) == Some(p) <==> tag in PayloadTags(p)
  {
    if tag in PayloadTags(p) {
      PayloadIsRead(tag, p);
    }
  }

  lemma PayloadIsRead(tag: string, p: E.Payload)
    requires tag in PayloadTags(p)
    ensures E.PayloadFromTag(tag) == Some(p)
  {
  }

  lemma PayloadTagIsLetters(tag: string, p: E.Payload)
    requires tag in PayloadTags(p)
    ensures IA.Letters(tag)
  {
  }

  lemma PrefixedReads(tag: string, prefix: string, p: E.Payload)
    ensures Prefixed(tag, prefix, p) <==> StripPrefix(tag, prefix).Some? && E.PayloadFromTag(StripPrefix(tag, prefix).value) == Some(p)
  {
    hide PayloadTags, E.PayloadFromTag;
    if StripPrefix(tag, prefix).Some? {
      var t := StripPrefix(tag, prefix).value;
      PayloadReads(t, p);
      assert tag == prefix + t;
    }
    forall t | t in PayloadTags(p) && tag == prefix + t ensures StripPrefix(tag, prefix) == Some(t) && E.PayloadFromTag(t) == Some(p) {
      PayloadReads(t, p);
      StripPrefixOf(prefix, t);
    }
  }

  lemma SplitOnceIs(s: string, c: char)
    ensures SplitOnce(s, c).Some? ==> var (a, b) := SplitOnce(s, c).value; s == a + [c] + b && Lacks(a, c)
  {
  }

  /** Two payloads with a colon between them, as both readers take them apart. */
  lemma PairReads(tag: string, prefix: string, ok: E.Payload, err: E.Payload)
    ensures PrefixedPair(tag, prefix, ok, err) <==>
      && StripPrefix(tag, prefix).Some? && SplitOnce(StripPrefix(tag, prefix).value, ':').Some?
      && var (a, b) := SplitOnce(StripPrefix(tag, prefix).value, ':').value;
         E.PayloadFromTag(a) == Some(ok) && E.PayloadFromTag(b) == Some(err)
  {
    hide PayloadTags, E.PayloadFromTag, SplitOnce;
    if StripPrefix(tag, prefix).Some? && SplitOnce(StripPrefix(tag, prefix).value, ':').Some? {
      var rest := StripPrefix(tag, prefix).value;
      var (a, b) := SplitOnce(rest, ':').value;
      SplitOnceIs(rest, ':');
      PayloadReads(a, ok);
      PayloadReads(b, err);
      assert rest == a + ":" + b;
      assert tag == prefix + rest;
    }
    forall t, u | t in PayloadTags(ok) && u in PayloadTags(err) && tag == prefix + (t + ":" + u)
      ensures StripPrefix(tag, prefix) == Some(t + ":" + u) && SplitOnce(t + ":" + u, ':') == Some((t, u))
      ensures E.PayloadFromTag(t) == Some(ok) && E.PayloadFromTag(u) == Some(err)
    {
      StripPrefixOf(prefix, t + ":" + u);
      PayloadTagIsLetters(t, ok);
      SplitOnceOf(t, u, ':');
      PayloadReads(t, ok);
      PayloadReads(u, err);
    }
  }

  lemma ArgReads(tag: string, a: E.ExportArg)
    ensures E.ArgFromTag(tag) == Some(a) <==> ArgTag(tag, a)
    ensures ArgTag(tag, a) ==> tag != "" && IA.Plain(tag)
  {
    hide E.PayloadFromTag, PayloadTags;
    if a.OptArg? {
      PrefixedReads(tag, "opt:", a.payload);
      forall t | t in PayloadTags(a.payload) && tag == "opt:" + t ensures IA.Plain(tag) {
        PayloadTagIsLetters(t, a.payload);
      }
      assert Prefixed(tag, "opt:", a.payload) ==> tag[0] == 'o';
      assert "str"[0] == 's' && "bytes"[0] == 'b' && "handle"[0] == 'h' && "i32"[0] == 'i' && "u32"[0] == 'u' && "f64"[0] == 'f' && "bool"[0] == 'b';
    }
  }

  /** The tags without a colon. */
  lemma NoPrefix(tag: string)
    requires tag == "" || IA.Letters(tag)
    ensures StripPrefix(tag, "opt:") == StripPrefix(tag, "res:") == StripPrefix(tag, "resopt:") == StripPrefix(tag, "slice:") == None
  {
    assert "opt:"[3] == "res:"[3] == "resopt:"[6] == "slice:"[5] == ':';
  }

  lemma PrefixedIsPlain(tag: string, prefix: string, p: E.Payload)
    requires IA.Plain(prefix) && Prefixed(tag, prefix, p)
    ensures IA.Plain(tag) && |tag| > |prefix|
  {
    hide PayloadTags;
    var t :| t in PayloadTags(p) && tag == prefix + t;
    PayloadTagIsLetters(t, p);
  }

  lemma PairIsPlain(tag: string, prefix: string, ok: E.Payload, err: E.Payload)
    requires IA.Plain(prefix) && PrefixedPair(tag, prefix, ok, err)
    ensures IA.Plain(tag) && |tag| > |prefix|
  {
    hide PayloadTags;
    var t, u :| t in PayloadTags(ok) && u in PayloadTags(err) && tag == prefix + (t + ":" + u);
    PayloadTagIsLetters(t, ok);
    PayloadTagIsLetters(u, err);
  }

  lemma PrefixesDiffer(tag: string)
    ensures StripPrefix(tag, "opt:").Some? ==> StripPrefix(tag, "res:") == StripPrefix(tag, "resopt:") == None
    ensures StripPrefix(tag, "res:").Some? ==> StripPrefix(tag, "resopt:") == None
    ensures StripPrefix(tag, "res:").Some? || StripPrefix(tag, "resopt:").Some? ==> |tag| >= 4
  {
    assert "opt:"[0] == 'o' && "resopt:"[0] == "res:"[0] == 'r' && "resopt:"[3] == 'o' && "res:"[3] == ':';
  }

  lemma RetReads(tag: string, ret: E.ExportRet)
    ensures E.ParseRet(tag) == Ok(ret) <==> RetTag(tag, ret)
  {
    hide E.PayloadFromTag, PayloadTags, Prefixed, PrefixedPair, SplitOnce, IA.Letters;
    match ret
    case OptRet(p) => PrefixedReads(tag, "opt:", p);
    case ResRet(ok, err) =>
      PairReads(tag, "res:", ok, err);
      PrefixesDiffer(tag);
    case _ =>
      if RetTag(tag, ret) {
        assert tag == "" || IA.Letters(tag) by { FixedRetTagIsLetters(tag, ret); }
        NoPrefix(tag);
      }
  }

  lemma FixedRetTagIsLetters(tag: string, ret: E.ExportRet)
    requires RetTag(tag, ret) && !ret.OptRet? && !ret.ResRet?
    ensures tag == "" || IA.Letters(tag)
  {
  }

  lemma RetIsPlain(tag: string, ret: E.ExportRet)
    requires RetTag(tag, ret)
    ensures IA.Plain(tag)
  {
    hide PayloadTags, Prefixed, PrefixedPair;
    match ret
    case OptRet(p) => PrefixedIsPlain(tag, "opt:", p);
    case ResRet(ok, err) => PairIsPlain(tag, "res:", ok, err);
    case _ => FixedRetTagIsLetters(tag, ret);
  }

  lemma {:induction false} ArgsRead(tags: seq<string>, args: seq<E.ExportArg>)
    ensures E.ArgsFromTags(tags) == Ok(args) <==> ArgTags(tags, args)
  {
    hide ArgTag, E.ArgFromTag;
    if tags != [] {
      if args != [] {
        var before, tag, a := tags[..|tags| - 1], tags[|tags| - 1], args[|args| - 1];
        ArgsRead(before, args[..|args| - 1]);
        ArgReads(tag, a);
        assert args == args[..|args| - 1] + [a] && tags == before + [tag];
      }
    }
  }

  lemma ArgListReads(text: string, args: seq<E.ExportArg>) returns (tags: seq<string>)
    requires E.ParseArgs(text) == Ok(args)
    ensures ArgTags(tags, args) && text == Join(tags, ',')
  {
    tags := if text == "" then [] else Split(text, ',');
    JoinSplit(text, ',');
    ArgsRead(tags, args);
  }

  lemma ArgListIsRead(tags: seq<string>, args: seq<E.ExportArg>)
    requires ArgTags(tags, args)
    ensures E.ParseArgs(Join(tags, ',')) == Ok(args) && Lacks(Join(tags, ','), '|')
  {
    hide ArgTag, E.ArgFromTag;
    forall i | 0 <= i < |tags| ensures tags[i] != "" && IA.Plain(tags[i]) {
      ArgReads(tags[i], args[i]);
    }
    ArgsRead(tags, args);
    JoinLacks(tags, ',', '|');
    if tags != [] {
      JoinNonEmpty(tags, ',');
      SplitJoin(tags, ',');
    }
  }

  /** The reader takes a line for an export exactly if it is one of the ways to write it. */
  lemma ReadsExactly(line: string, e: E.Export)
    ensures E.ParseLine(line) == Ok(e) <==> exists tags, ret :: Writes(line, e, tags, ret)
  {
    hide E.ParseArgs, E.ParseRet, ArgTags, RetTag, Join, Split, E.ArgsFromTags;
    if E.ParseLine(line) == Ok(e) {
      var fields := Split(line, '|');
      JoinSplit(line, '|');
      var tags := ArgListReads(fields[1], e.args);
      RetReads(fields[2], e.ret);
      assert fields == [e.name, Join(tags, ','), fields[2]];
      assert Writes(line, e, tags, fields[2]);
    }
    forall tags, ret | Writes(line, e, tags, ret) ensures E.ParseLine(line) == Ok(e) {
      ArgListIsRead(tags, e.args);
      RetReads(ret, e.ret);
      RetIsPlain(ret, e.ret);
      SplitJoin([e.name, Join(tags, ','), ret], '|');
    }
  }
}

module ImportLanguage {
  import opened Wrappers
  import opened Text
  import opened ExportLanguage
  import E = ExportParser
  import P = ImportParser
  import IA = ImportAgreement

  function KindTag(kind: P.Kind): string {
    match kind
    case Function => "f"
    case Method => "m"
    case Getter => "g"
    case Setter => "s"
    case Constructor => "n"
    case IndexGet => "ig"
    case IndexSet => "is"
    case InstanceOf => "io"
    case StaticGetter => "sg"
    case IndexDelete => "id"
  }

  function ElemTag(elem: P.SliceElem): string {
    match elem
    case SI8 => "i8"
    case SI16 => "i16"
    case SU16 => "u16"
    case SI32 => "i32"
    case SU32 => "u32"
    case SI64 => "i64"
    case SU64 => "u64"
    case SF32 => "f32"
    case SF64 => "f64"
  }

  ghost predicate ImportArgTag(tag: string, a: P.AbiArg) {
    match a
    case Str => tag == "str"
    case Bytes => tag == "bytes"
    case Bool => tag == "bool"
    case Num => tag in {"i8", "i16", "i32", "isize", "u8", "u16", "f32", "f64"}
    case U32 => tag in {"u32", "usize"}
    case I64 => tag == "i64"
    case U64 => tag == "u64"
    case Handle => tag == "handle"
    case Handles => tag == "handles"
    case Slice(elem) => tag == "slice:" + ElemTag(elem)
    case Opt(p) => Prefixed(tag, "opt:", p)
  }

  ghost predicate ImportRetTag(tag: string, ret: P.Ret) {
    match ret
    case Void => tag == ""
    case HandleRet => tag == "handle"
    case StrRet => tag == "str"
    case BytesRet => tag == "bytes"
    case OptRet(p) => Prefixed(tag, "opt:", p)
    case ResRet(ok, err) => PrefixedPair(tag, "res:", ok, err)
    case ResOptRet(ok, err) => PrefixedPair(tag, "resopt:", ok, err)
    case Value(scalar) =>
      tag == scalar && tag in {"i8", "i16", "i32", "i64", "isize", "u8", "u16", "u32", "u64", "usize", "f32", "f64", "bool"}
  }

  /** What the glue can emit, kind by kind. */
  predicate Emittable(kind: P.Kind, args: seq<P.AbiArg>, ret: P.Ret) {
    match kind
    case Function => true
    case Method => args != [] && args[0] == P.Handle
    case Getter => args == [P.Handle] && ret != P.Void
    case Setter => |args| == 2 && args[0] == P.Handle && (ret == P.Void || (ret.ResRet? && ret.ok == E.Unit))
    case Constructor => ret == P.HandleRet || (ret.ResRet? && ret.ok == E.Handle) || ret == P.OptRet(E.Handle)
    case IndexGet => |args| == 2 && args[0] == P.Handle && ret != P.Void
    case IndexSet => |args| == 3 && args[0] == P.Handle && ret == P.Void
    case IndexDelete => |args| == 2 && args[0] == P.Handle && (ret == P.Void || ret == P.Value("bool"))
    case InstanceOf => args == [P.Handle] && ret == P.Value("bool")
    case StaticGetter => args == [] && ret != P.Void
  }

  ghost predicate ImportArgTags(tags: seq<string>, args: seq<P.AbiArg>) {
    |tags| == |args| && forall i :: 0 <= i < |tags| ==> ImportArgTag(tags[i], args[i])
  }

  ghost predicate IsField(s: string) {
    s != "" && Lacks(s, '|')
  }

  /** `kind|namespace|import_name|js_name|argtags|rettag`, and, if it is there, the flag. */
  ghost predicate ImportWrites(line: string, d: P.Descriptor, tags: seq<string>, ret: string, flag: seq<string>) {
    && line == Join([KindTag(d.kind), d.namespace, d.importName, d.jsName, Join(tags, ','), ret] + flag, '|')
    && IsField(d.namespace) && IsField(d.importName) && IsField(d.jsName)
    && ImportArgTags(tags, d.args) && ImportRetTag(ret, d.ret)
    && (if d.variadic then flag == ["1"] else flag == [] || flag == [""])
    && Emittable(d.kind, d.args, d.ret)
    && (d.variadic ==> d.kind == P.Function || d.kind == P.Method || d.kind == P.Constructor)
  }

  lemma ShapeIs(kind: P.Kind, args: seq<P.AbiArg>, ret: P.Ret, variadic: bool)
    ensures P.CheckShape(kind, args, ret, variadic) <==>
      Emittable(kind, args, ret) && (variadic ==> kind == P.Function || kind == P.Method || kind == P.Constructor)
  {
  }

  lemma KindReads(tag: string, kind: P.Kind)
    ensures P.KindFromTag(tag) == Some(kind) <==> tag == KindTag(kind)
    ensures Lacks(KindTag(kind), '|')
  {
  }

  lemma ElemReads(tag: string, elem: P.SliceElem)
    ensures P.SliceElemFromTag(tag) == Some(elem) <==> tag == ElemTag(elem)
    ensures IA.Plain(ElemTag(elem))
  {
  }

  lemma ImportArgReads(tag: string, a: P.AbiArg)
    ensures P.ArgFromTag(tag) == Some(a) <==> ImportArgTag(tag, a)
  {
    hide E.PayloadFromTag, PayloadTags, Prefixed, ElemTag, P.SliceElemFromTag, IA.Letters;
    match a
    case Opt(p) =>
      PrefixedReads(tag, "opt:", p);
      assert "slice:"[0] == 's' && "opt:"[0] == 'o' && ("opt:" <= tag ==> tag[0] == 'o' && |tag| >= 4);
    case Slice(elem) => SliceReads(tag, elem);
    case _ =>
      if ImportArgTag(tag, a) {
        assert IA.Letters(tag) by { FixedArgIsLetters(tag, a); }
        NoPrefix(tag);
      }
  }

  lemma SliceReads(tag: string, elem: P.SliceElem)
    ensures P.ArgFromTag(tag) == Some(P.Slice(elem)) <==> ImportArgTag(tag, P.Slice(elem))
  {
    hide E.PayloadFromTag, ElemTag, P.SliceElemFromTag;
    if StripPrefix(tag, "slice:").Some? {
      assert tag == "slice:" + tag[6..];
      ElemReads(tag[6..], elem);
    }
    ElemReads(ElemTag(elem), elem);
    StripPrefixOf("slice:", ElemTag(elem));
    assert "slice:" <= tag ==> tag[0] == 's' && tag[1] == 'l' && |tag| >= 6;
  }

  lemma FixedArgIsLetters(tag: string, a: P.AbiArg)
    requires ImportArgTag(tag, a) && !a.Opt? && !a.Slice?
    ensures IA.Letters(tag)
  {
  }

  lemma ImportArgIsPlain(tag: string, a: P.AbiArg)
    requires ImportArgTag(tag, a)
    ensures tag != "" && IA.Plain(tag)
  {
    hide Prefixed, ElemTag;
    match a
    case Opt(p) => PrefixedIsPlain(tag, "opt:", p);
    case Slice(elem) => ElemReads(ElemTag(elem), elem);
    case _ =>
  }

  lemma ImportRetReads(tag: string, ret: P.Ret)
    ensures P.ParseRet(tag) == Some(ret) <==> ImportRetTag(tag, ret)
  {
    hide E.PayloadFromTag, PayloadTags, Prefixed, PrefixedPair, SplitOnce, IA.Letters;
    match ret
    case OptRet(p) => PrefixedReads(tag, "opt:", p);
    case ResRet(ok, err) =>
      PairReads(tag, "res:", ok, err);
      PrefixesDiffer(tag);
    case ResOptRet(ok, err) =>
      PairReads(tag, "resopt:", ok, err);
      PrefixesDiffer(tag);
    case _ =>
      if ImportRetTag(tag, ret) {
        assert tag == "" || IA.Letters(tag) by { FixedRetIsLetters(tag, ret); }
        NoPrefix(tag);
      }
  }

  lemma FixedRetIsLetters(tag: string, ret: P.Ret)
    requires ImportRetTag(tag, ret) && !ret.OptRet? && !ret.ResRet? && !ret.ResOptRet?
    ensures tag == "" || IA.Letters(tag)
  {
  }

  lemma ImportRetIsPlain(tag: string, ret: P.Ret)
    requires ImportRetTag(tag, ret)
    ensures IA.Plain(tag)
  {
    hide PayloadTags, Prefixed, PrefixedPair;
    match ret
    case OptRet(p) => PrefixedIsPlain(tag, "opt:", p);
    case ResRet(ok, err) => PairIsPlain(tag, "res:", ok, err);
    case ResOptRet(ok, err) => PairIsPlain(tag, "resopt:", ok, err);
    case _ => FixedRetIsLetters(tag, ret);
  }

  lemma {:induction false} ImportArgsRead(tags: seq<string>, args: seq<P.AbiArg>)
    ensures P.ArgsFromTags(tags) == Some(args) <==> ImportArgTags(tags, args)
  {
    hide ImportArgTag, P.ArgFromTag;
    if tags != [] && args != [] {
      var before, tag, a := tags[..|tags| - 1], tags[|tags| - 1], args[|args| - 1];
      ImportArgsRead(before, args[..|args| - 1]);
      ImportArgReads(tag, a);
      assert args == args[..|args| - 1] + [a] && tags == before + [tag];
    }
  }

  lemma ImportArgListReads(text: string, args: seq<P.AbiArg>) returns (tags: seq<string>)
    requires P.ParseArgs(text) == Some(args)
    ensures ImportArgTags(tags, args) && text == Join(tags, ',')
  {
    tags := if text == "" then [] else Split(text, ',');
    JoinSplit(text, ',');
    ImportArgsRead(tags, args);
  }

  lemma ImportArgListIsRead(tags: seq<string>, args: seq<P.AbiArg>)
    requires ImportArgTags(tags, args)
    ensures P.ParseArgs(Join(tags, ',')) == Some(args) && Lacks(Join(tags, ','), '|')
  {
    hide ImportArgTag, P.ArgFromTag;
    forall i | 0 <= i < |tags| ensures tags[i] != "" && IA.Plain(tags[i]) {
      ImportArgIsPlain(tags[i], args[i]);
    }
    ImportArgsRead(tags, args);
    JoinLacks(tags, ',', '|');
    if tags != [] {
      JoinNonEmpty(tags, ',');
      SplitJoin(tags, ',');
    }
  }

  lemma LineIsWritten(line: string, d: P.Descriptor) returns (tags: seq<string>, ret: string, flag: seq<string>)
    requires P.ParseLine(line) == Ok(d)
    ensures ImportWrites(line, d, tags, ret, flag)
  {
    hide P.ParseArgs, P.ParseRet, P.KindFromTag, P.CheckShape, Emittable, ImportArgTags, ImportRetTag, Join, Split, KindTag, P.ArgsFromTags;
    var fields := Split(line, '|');
    JoinSplit(line, '|');
    tags := ImportArgListReads(fields[4], d.args);
    ret, flag := fields[5], fields[6..];
    ImportRetReads(ret, d.ret);
    KindReads(fields[0], d.kind);
    ShapeIs(d.kind, d.args, d.ret, d.variadic);
    assert fields == [KindTag(d.kind), d.namespace, d.importName, d.jsName, Join(tags, ','), ret] + flag;
  }

  lemma WrittenIsRead(line: string, d: P.Descriptor, tags: seq<string>, ret: string, flag: seq<string>)
    requires ImportWrites(line, d, tags, ret, flag)
    ensures P.ParseLine(line) == Ok(d)
  {
    hide P.ParseArgs, P.ParseRet, P.KindFromTag, P.CheckShape, Emittable, ImportArgTags, ImportRetTag, Join, Split, KindTag, P.ArgsFromTags;
    ImportArgListIsRead(tags, d.args);
    ImportRetReads(ret, d.ret);
    ImportRetIsPlain(ret, d.ret);
    KindReads(KindTag(d.kind), d.kind);
    ShapeIs(d.kind, d.args, d.ret, d.variadic);
    SplitJoin([KindTag(d.kind), d.namespace, d.importName, d.jsName, Join(tags, ','), ret] + flag, '|');
  }

  /** The reader takes a line for an import exactly if it is one of the ways to write it. */
  lemma ImportReadsExactly(line: string, d: P.Descriptor)
    ensures P.ParseLine(line) == Ok(d) <==> exists tags, ret, flag :: ImportWrites(line, d, tags, ret, flag)
  {
    hide P.ParseLine, ImportWrites;
    if P.ParseLine(line) == Ok(d) {
      var tags, ret, flag := LineIsWritten(line, d);
    }
    forall tags, ret, flag | ImportWrites(line, d, tags, ret, flag) ensures P.ParseLine(line) == Ok(d) {
      WrittenIsRead(line, d, tags, ret, flag);
    }
  }
}
