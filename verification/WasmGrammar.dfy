/** The part of the WebAssembly binary format the code generator reads: concrete syntax and
    the bytes it stands for, as the WebAssembly Core Specification 1.0 gives them. Where the
    reader does not look at what the specification demands, syntax has two predicates:
    `Standard` is the specification's, `Readable` leaves those bytes free. The ids of
    sections, their order, and what is in sections other than custom and import sections
    are free throughout. */
module WasmGrammar {
  import opened Wrappers
  import opened Text

  type Byte = x: int | 0 <= x < 256

  function Pow2(n: nat): nat {
    if n == 0 then 1 else 2 * Pow2(n - 1)
  }

  /** Section 5.2.2: the unsigned integer `b` spells in `N` bits, padded or not. */
  function U(N: nat, b: seq<Byte>): Option<nat> {
    if b == [] then None
    else if b[0] < 128 then (if |b| == 1 && b[0] < Pow2(N) then Some(b[0]) else None)
    else if N > 7 && U(N - 7, b[1..]).Some? then Some(128 * U(N - 7, b[1..]).value + (b[0] - 128))
    else None
  }

  predicate Spells(b: seq<Byte>, v: nat) {
    U(32, b) == Some(v)
  }

  predicate IsU32(b: seq<Byte>) {
    U(32, b).Some?
  }

  /** The shortest spelling. */
  function Leb(v: nat): seq<Byte> {
    if v < 128 then [v] else [v % 128 + 128] + Leb(v / 128)
  }

  /** Well-formed UTF-8 (table 3-7 of the Unicode Standard). */
  predicate Utf8(b: seq<Byte>) {
    if b == [] then true
    else if b[0] < 0x80 then Utf8(b[1..])
    else if 0xC2 <= b[0] <= 0xDF then |b| >= 2 && Tail(b[1]) && Utf8(b[2..])
    else if 0xE0 <= b[0] <= 0xEF then
      && |b| >= 3
      && Tail(b[1]) && (b[0] == 0xE0 ==> b[1] >= 0xA0) && (b[0] == 0xED ==> b[1] < 0xA0)
      && Tail(b[2]) && Utf8(b[3..])
    else if 0xF0 <= b[0] <= 0xF4 then
      && |b| >= 4
      && Tail(b[1]) && (b[0] == 0xF0 ==> b[1] >= 0x90) && (b[0] == 0xF4 ==> b[1] < 0x90)
      && Tail(b[2]) && Tail(b[3]) && Utf8(b[4..])
    else false
  }

  predicate Tail(b: Byte) {
    0x80 <= b <= 0xBF
  }

  /** Sections 5.5.2 and 5.5.3: a section is its id, the size of its body, the body. */
  datatype Section = Section(id: Byte, size: seq<Byte>, body: seq<Byte>) {
    predicate Valid() { Spells(size, |body|) }

    function Bytes(): seq<Byte> { [id] + size + body }
  }

  function Sections(ss: seq<Section>): seq<Byte> {
    if ss == [] then [] else ss[0].Bytes() + Sections(ss[1..])
  }

  const MAGIC: seq<Byte> := [0, 0x61, 0x73, 0x6d]
  const VERSION: seq<Byte> := [1, 0, 0, 0]

  function Module(ss: seq<Section>): seq<Byte> {
    MAGIC + VERSION + Sections(ss)
  }

  /** Section 5.5.3: the body of a custom section is a length, that many bytes of name,
      the payload. The name is UTF-8, which the reader does not look at. */
  datatype Custom = Custom(len: seq<Byte>, name: seq<Byte>, payload: seq<Byte>) {
    predicate Readable() { Spells(len, |name|) }

    predicate Standard() { Readable() && Utf8(name) }

    function Bytes(): seq<Byte> { len + name + payload }
  }

  /** Section 5.2.4. */
  datatype Name = Name(len: seq<Byte>, text: seq<Byte>) {
    predicate Valid() { Spells(len, |text|) && Utf8(text) }

    function Bytes(): seq<Byte> { len + text }
  }

  /** Section 5.3.4, with the flag bit 1 of the threads proposal; `max` only if bit 0. */
  datatype Limits = Limits(flags: Byte, min: seq<Byte>, max: seq<Byte>) {
    function Bytes(): seq<Byte> { [flags] + min + max }

    predicate Valid() { IsU32(min) && if flags % 2 == 1 then IsU32(max) else max == [] }

    predicate ValidForTable() { Valid() && flags <= 1 }

    predicate ValidForMemory() {
      && Valid() && (flags == 0 || flags == 1 || flags == 3)
      && (flags != 0 ==> U(32, min).value <= U(32, max).value)
    }
  }

  /** Section 5.3.6: a table holds function references. */
  const FUNCREF: Byte := 0x70

  /** Section 5.3.1: i32, i64, f32 and f64. */
  predicate IsValueType(b: Byte) {
    0x7C <= b <= 0x7F
  }

  /** Section 5.5.5. The types of tables and globals are not looked at by the reader. */
  datatype Desc =
    | Func(index: seq<Byte>)
    | Table(reftype: Byte, limits: Limits)
    | Memory(limits: Limits)
    | Global(valtype: Byte, mutability: Byte)
  {
    predicate Readable() {
      match this
      case Func(index) => IsU32(index)
      case Table(_, limits) => limits.ValidForTable()
      case Memory(limits) => limits.ValidForMemory()
      case Global(_, _) => true
    }

    predicate Standard() {
      && Readable()
      && (Table? ==> reftype == FUNCREF)
      && (Global? ==> IsValueType(valtype) && mutability <= 1)
    }

    function Bytes(): seq<Byte> {
      match this
      case Func(index) => [0] + index
      case Table(reftype, limits) => [1, reftype] + limits.Bytes()
      case Memory(limits) => [2] + limits.Bytes()
      case Global(valtype, mutability) => [3, valtype, mutability]
    }
  }

  datatype Import = Import(from: Name, name: Name, desc: Desc) {
    predicate Readable() { from.Valid() && name.Valid() && desc.Readable() }

    predicate Standard() { Readable() && desc.Standard() }

    function Bytes(): seq<Byte> { from.Bytes() + name.Bytes() + desc.Bytes() }
  }

  function Imports(is_: seq<Import>): seq<Byte> {
    if is_ == [] then [] else is_[0].Bytes() + Imports(is_[1..])
  }

  /** The body of an import section: how many, then each. */
  datatype ImportList = ImportList(count: seq<Byte>, entries: seq<Import>) {
    ghost predicate Readable() {
      Spells(count, |entries|) && forall i :: 0 <= i < |entries| ==> entries[i].Readable()
    }

    function Bytes(): seq<Byte> { count + Imports(entries) }
  }

  /** `bytes` are in `buf` from `pos`. */
  ghost predicate At(buf: seq<Byte>, pos: nat, bytes: seq<Byte>) {
    pos + |bytes| <= |buf| && buf[pos..pos + |bytes|] == bytes
  }

  lemma AtBoth(buf: seq<Byte>, pos: nat, a: seq<Byte>, b: seq<Byte>)
    ensures At(buf, pos, a + b) <==> At(buf, pos, a) && At(buf, pos + |a|, b)
  {
    if At(buf, pos, a + b) {
      assert buf[pos..pos + |a + b|][..|a|] == buf[pos..pos + |a|];
      assert buf[pos..pos + |a + b|][|a|..] == buf[pos + |a|..pos + |a| + |b|];
      assert (a + b)[..|a|] == a && (a + b)[|a|..] == b;
    }
  }

  lemma Pow2AtLeast(n: nat)
    requires n >= 7
    ensures Pow2(n) >= 128
  {
    if n == 7 {
      assert Pow2(4) == 16;
    } else {
      Pow2AtLeast(n - 1);
    }
  }

  lemma {:induction false} LebSpells(N: nat, v: nat)
    requires v < Pow2(N)
    ensures U(N, Leb(v)) == Some(v)
  {
    if v >= 128 {
      if N <= 7 {
        Pow2Small(N);
        assert false;
      } else {
        Pow2Of7(N);
        LebSpells(N - 7, v / 128);
        assert Leb(v)[1..] == Leb(v / 128);
      }
    }
  }

  lemma Pow2Small(n: nat)
    requires n <= 7
    ensures Pow2(n) <= 128
  {
    assert Pow2(3) == 8 && Pow2(4) == 16 && Pow2(5) == 32 && Pow2(6) == 64;
  }

  lemma Pow2Of7(n: nat)
    requires n >= 7
    ensures Pow2(n) == 128 * Pow2(n - 7)
  {
    assert Pow2(n) == 4 * Pow2(n - 2);
    assert Pow2(n - 2) == 4 * Pow2(n - 4);
    assert Pow2(n - 4) == 4 * Pow2(n - 6);
  }

  /** Every unsigned 32-bit number has a spelling. */
  lemma EveryU32IsSpelled(v: nat)
    requires v < 0x1_0000_0000
    ensures Spells(Leb(v), v)
  {
    Pow2Of7(32);
    Pow2Of7(25);
    Pow2Of7(18);
    Pow2Of7(11);
    assert Pow2(4) == 16;
    LebSpells(32, v);
  }

  lemma {:induction false} SpelledFits(N: nat, b: seq<Byte>)
    requires U(N, b).Some?
    ensures U(N, b).value < Pow2(N)
  {
    if b[0] >= 128 {
      SpelledFits(N - 7, b[1..]);
      Pow2Of7(N);
    }
  }

  /** And a spelling stands for nothing larger: reading one into 32 bits loses nothing. */
  lemma SpellingsFitInU32(b: seq<Byte>, v: nat)
    requires Spells(b, v)
    ensures v < 0x1_0000_0000
  {
    SpelledFits(32, b);
    Pow2Of7(32);
    Pow2Of7(25);
    Pow2Of7(18);
    Pow2Of7(11);
    assert Pow2(4) == 16;
  }
}
