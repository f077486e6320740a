/** `Reader` of `wasm.rs`: a position in a byte slice, moved by every read. Each read is
    specified by a function of the bytes and the position alone. */
module WasmReader {
  import opened Wrappers
  import opened Text
  import opened WasmGrammar
  import opened WasmWords

  datatype Error =
    | UnexpectedEnd | BadMagic | BadVersion | LebOverflow | LebTooLong | NotUtf8
    | MemoryFlags | SharedNeedsMaximum | MaximumBelowMinimum | TableFlags
    | UnknownImportKind | TrailingBytes | ManyImportSections | ManyMemories

  type Outcome<T> = Result<T, Error>

  /** A read, and where it leaves the reader. */
  datatype Read<T> = Got(value: T, next: nat) | Failed(error: Error)

  function ByteAt(buf: seq<Byte>, pos: nat): (r: Read<Byte>)
    ensures r.Got? ==> r.next <= |buf|
  {
    if pos < |buf| then Got(buf[pos], pos + 1) else Failed(UnexpectedEnd)
  }

  function TakeAt(buf: seq<Byte>, pos: nat, n: nat): (r: Read<seq<Byte>>)
    ensures r.Got? ==> r.next <= |buf| && |r.value| == n
  {
    if pos + n <= |buf| then Got(buf[pos..pos + n], pos + n) else Failed(UnexpectedEnd)
  }

  /** A LEB128 number of which `k` bytes have been read: its remaining bits. */
  function LebAt(buf: seq<Byte>, pos: nat, k: nat): (r: Read<nat>)
    requires k <= 4
    ensures r.Got? ==> pos < r.next <= |buf|
    decreases 4 - k
  {
    if pos >= |buf| then Failed(UnexpectedEnd)
    else
      var byte := buf[pos];
      if k == 4 && byte % 128 > 15 then Failed(LebOverflow)
      else if byte < 128 then Got(byte, pos + 1)
      else if k == 4 then Failed(LebTooLong)
      else
        var rest := LebAt(buf, pos + 1, k + 1);
        if rest.Got? then Got(128 * rest.value + byte % 128, rest.next) else rest
  }

  function NameAt(buf: seq<Byte>, pos: nat): (r: Read<seq<Byte>>)
    ensures r.Got? ==> r.next <= |buf|
  {
    var len := LebAt(buf, pos, 0);
    if len.Failed? then Failed(len.error)
    else
      var text := TakeAt(buf, len.next, len.value);
      if text.Failed? || Utf8(text.value) then text else Failed(NotUtf8)
  }

  /** A memory's limits. */
  datatype Range = Range(min: nat, max: Option<nat>, shared: bool)

  function LimitsAt(buf: seq<Byte>, pos: nat): (r: Read<Range>)
    ensures r.Got? ==> r.next <= |buf|
  {
    var flags := ByteAt(buf, pos);
    if flags.Failed? then Failed(flags.error)
    else if flags.value > 3 then Failed(MemoryFlags)
    else if flags.value == 2 then Failed(SharedNeedsMaximum)
    else
      var min := LebAt(buf, flags.next, 0);
      if min.Failed? then Failed(min.error)
      else if flags.value == 0 then Got(Range(min.value, None, false), min.next)
      else
        var max := LebAt(buf, min.next, 0);
        if max.Failed? then Failed(max.error)
        else if max.value < min.value then Failed(MaximumBelowMinimum)
        else Got(Range(min.value, Some(max.value), flags.value == 3), max.next)
  }

  function SkippedLimitsAt(buf: seq<Byte>, pos: nat): (r: Read<()>)
    ensures r.Got? ==> r.next <= |buf|
  {
    var flags := ByteAt(buf, pos);
    if flags.Failed? then Failed(flags.error)
    else if flags.value > 1 then Failed(TableFlags)
    else
      var min := LebAt(buf, flags.next, 0);
      if min.Failed? then Failed(min.error)
      else if flags.value == 0 then Got((), min.next)
      else
        var max := LebAt(buf, min.next, 0);
        if max.Failed? then Failed(max.error) else Got((), max.next)
  }

  function HeaderOf(buf: seq<Byte>): Read<()> {
    if |buf| < 4 then Failed(UnexpectedEnd)
    else if buf[..4] != MAGIC then Failed(BadMagic)
    else if |buf| < 8 then Failed(UnexpectedEnd)
    else if buf[4..8] != VERSION then Failed(BadVersion)
    else Got((), 8)
  }

  /** `result` with the bits still to come put in above its `7 * k`. */
  function Above(result: nat, k: nat, rest: Read<nat>): Read<nat> {
    if rest.Got? then Got(result + Weight(k) * rest.value, rest.next) else rest
  }

  lemma NoneYet(rest: Read<nat>)
    ensures Value(0) == 0 && Shift(0) == 0 && Above(0, 0, rest) == rest
  {
  }

  /** What a byte settles, unless it only adds bits. */
  lemma NextByte(buf: seq<Byte>, pos: nat, result: nat, k: nat)
    requires k <= 4
    ensures pos >= |buf| ==> Above(result, k, LebAt(buf, pos, k)) == Failed(UnexpectedEnd)
    ensures pos < |buf| && k == 4 && buf[pos] % 128 > 15 ==> Above(result, k, LebAt(buf, pos, k)) == Failed(LebOverflow)
    ensures pos < |buf| && !(k == 4 && buf[pos] % 128 > 15) && buf[pos] < 128 ==>
      Above(result, k, LebAt(buf, pos, k)) == Got(result + Weight(k) * (buf[pos] % 128), pos + 1)
    ensures pos < |buf| && k == 4 && buf[pos] % 128 <= 15 && buf[pos] >= 128 ==>
      Above(result, k, LebAt(buf, pos, k)) == Failed(LebTooLong)
  {
  }

  lemma OneByteMore(buf: seq<Byte>, start: nat, pos: nat, k: nat, result: nat)
    requires k < 4 && pos < |buf| && buf[pos] >= 128
    requires LebAt(buf, start, 0) == Above(result, k, LebAt(buf, pos, k))
    ensures LebAt(buf, start, 0) == Above(result + Weight(k) * (buf[pos] % 128), k + 1, LebAt(buf, pos + 1, k + 1))
  {
    var rest := LebAt(buf, pos + 1, k + 1);
    if rest.Got? {
      var whole := LebAt(buf, pos, k);
      assert whole == Got(128 * rest.value + buf[pos] % 128, rest.next);
      hide LebAt;
      Distribute(Weight(k), rest.value, buf[pos] % 128);
    }
  }

  lemma Distribute(weight: nat, rest: nat, bits: nat)
    ensures weight * (128 * rest + bits) == weight * bits + 128 * weight * rest
  {
  }

  /** `r` and the reader's new position are what `spec` says. */
  predicate Did<T(==)>(r: Outcome<T>, pos: nat, spec: Read<T>) {
    if spec.Got? then r == Ok(spec.value) && pos == spec.next else r == Err(spec.error)
  }

  class Reader {
    const buf: seq<Byte>
    var pos: nat

    constructor (buf: seq<Byte>)
      ensures this.buf == buf && pos == 0
    {
      this.buf := buf;
      pos := 0;
    }

    predicate Eof()
      reads this
    {
      pos >= |buf|
    }

    method ReadByte() returns (r: Outcome<Byte>)
      modifies this
      ensures Did(r, pos, ByteAt(buf, old(pos)))
    {
      if pos >= |buf| {
        return Err(UnexpectedEnd);
      }
      var b := buf[pos];
      pos := pos + 1;
      return Ok(b);
    }

    method Take(n: nat) returns (r: Outcome<seq<Byte>>)
      modifies this
      ensures Did(r, pos, TakeAt(buf, old(pos), n))
    {
      var end := pos + n;
      if end > |buf| {
        return Err(UnexpectedEnd);
      }
      var slice := buf[pos..end];
      pos := end;
      return Ok(slice);
    }

    method Header() returns (r: Outcome<()>)
      requires pos == 0
      modifies this
      ensures Did(r, pos, HeaderOf(buf))
    {
      var magic := Take(4);
      if magic.Err? {
        return Err(magic.error);
      }
      if magic.value != MAGIC {
        return Err(BadMagic);
      }
      var version := Take(4);
      if version.Err? {
        return Err(version.error);
      }
      if version.value != VERSION {
        return Err(BadVersion);
      }
      return Ok(());
    }

    /** The bits of each byte go in above those already read, in a 32-bit word. */
    method LebU32() returns (r: Outcome<nat>)
      modifies this
      ensures Did(r, pos, LebAt(buf, old(pos), 0))
    {
      hide LebAt, Above, Value, PutIn, Payload, HasMore, Shift;
      var result: bv32, shift: bv32 := 0, 0;
      ghost var start, k := pos, 0;
      NoneYet(LebAt(buf, pos, 0));
      while true
        invariant k <= 4 && shift == Shift(k)
        invariant Value(result) < Weight(k)
        invariant LebAt(buf, start, 0) == Above(Value(result), k, LebAt(buf, pos, k))
        decreases 4 - k
      {
        NextByte(buf, pos, Value(result), k);
        ShiftSteps(k);
        var byte := ReadByte();
        if byte.Err? {
          return Err(byte.error);
        }
        var bits := Payload(byte.value);
        PayloadIs(byte.value);
        Below(bits);
        if shift == 28 && bits > 0x0f {
          return Err(LebOverflow);
        }
        ghost var before := Value(result);
        OrIsPlus(result, bits, k);
        result := PutIn(result, bits, shift);
        if !HasMore(byte.value) {
          return Ok(Value(result));
        }
        shift := shift + 7;
        if shift >= 32 {
          return Err(LebTooLong);
        }
        OneByteMore(buf, start, pos - 1, k, before);
        k := k + 1;
      }
    }

    method ReadName() returns (r: Outcome<seq<Byte>>)
      modifies this
      ensures Did(r, pos, NameAt(buf, old(pos)))
    {
      var len := LebU32();
      if len.Err? {
        return Err(len.error);
      }
      var bytes := Take(len.value);
      if bytes.Err? {
        return Err(bytes.error);
      }
      if !Utf8(bytes.value) {
        return Err(NotUtf8);
      }
      return bytes;
    }

    method ReadLimits() returns (r: Outcome<Range>)
      modifies this
      ensures Did(r, pos, LimitsAt(buf, old(pos)))
    {
      hide LebAt;
      var flags := ReadByte();
      if flags.Err? {
        return Err(flags.error);
      }
      if flags.value / 4 != 0 {
        return Err(MemoryFlags);
      }
      var hasMax, shared := flags.value % 2 != 0, flags.value / 2 % 2 != 0;
      if shared && !hasMax {
        return Err(SharedNeedsMaximum);
      }
      var min := LebU32();
      if min.Err? {
        return Err(min.error);
      }
      var max: Option<nat> := None;
      if hasMax {
        var m := LebU32();
        if m.Err? {
          return Err(m.error);
        }
        max := Some(m.value);
      }
      if max.Some? && max.value < min.value {
        return Err(MaximumBelowMinimum);
      }
      return Ok(Range(min.value, max, shared));
    }

    method SkipLimits() returns (r: Outcome<()>)
      modifies this
      ensures Did(r, pos, SkippedLimitsAt(buf, old(pos)))
    {
      hide LebAt;
      var flags := ReadByte();
      if flags.Err? {
        return Err(flags.error);
      }
      if flags.value / 2 != 0 {
        return Err(TableFlags);
      }
      var min := LebU32();
      if min.Err? {
        return Err(min.error);
      }
      if flags.value % 2 != 0 {
        var max := LebU32();
        if max.Err? {
          return Err(max.error);
        }
      }
      return Ok(());
    }
  }

  /** Reading a number recognises the u32 grammar: whatever is accepted is a spelling of
      the value read. */
  lemma {:induction false} LebSound(buf: seq<Byte>, pos: nat, k: nat)
    requires k <= 4
    ensures var r := LebAt(buf, pos, k); r.Got? ==> U(32 - 7 * k, buf[pos..r.next]) == Some(r.value)
    decreases 4 - k
  {
    var r := LebAt(buf, pos, k);
    if r.Got? {
      assert Pow2(4) == 16;
      if k < 4 {
        Pow2AtLeast(32 - 7 * k);
      }
      var b := buf[pos..r.next];
      if buf[pos] >= 128 {
        LebSound(buf, pos + 1, k + 1);
        assert b[1..] == buf[pos + 1..r.next];
      }
    }
  }

  /** And every spelling is accepted, with its value, wherever it stands. */
  lemma {:induction false} LebComplete(buf: seq<Byte>, pos: nat, k: nat, b: seq<Byte>)
    requires k <= 4 && At(buf, pos, b) && U(32 - 7 * k, b).Some?
    ensures LebAt(buf, pos, k) == Got(U(32 - 7 * k, b).value, pos + |b|)
    decreases 4 - k
  {
    assert Pow2(4) == 16;
    assert b[0] == buf[pos];
    if b[0] >= 128 {
      assert b == [b[0]] + b[1..];
      AtBoth(buf, pos, [b[0]], b[1..]);
      LebComplete(buf, pos + 1, k + 1, b[1..]);
    }
  }

  /** `leb_u32` accepts exactly the u32 grammar, at any padding, and stops right after. */
  lemma LebIsTheGrammar(buf: seq<Byte>, pos: nat, v: nat, end: nat)
    ensures LebAt(buf, pos, 0) == Got(v, end) <==> pos <= end <= |buf| && Spells(buf[pos..end], v)
  {
    LebSound(buf, pos, 0);
    if pos <= end <= |buf| && Spells(buf[pos..end], v) {
      LebComplete(buf, pos, 0, buf[pos..end]);
    }
  }
}
