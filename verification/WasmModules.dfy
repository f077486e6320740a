/** The section walks of `wasm.rs`: custom sections by name, and the import section read
    twice over, once for its memory and once for its functions. */
module WasmModules {
  import opened Wrappers
  import opened Text
  import opened WasmGrammar
  import opened WasmReader

  datatype RawSection = RawSection(id: Byte, body: seq<Byte>)

  function SectionAt(buf: seq<Byte>, pos: nat): (r: Read<RawSection>)
    ensures r.Got? ==> pos < r.next <= |buf|
  {
    var id := ByteAt(buf, pos);
    if id.Failed? then Failed(id.error)
    else
      var size := LebAt(buf, id.next, 0);
      if size.Failed? then Failed(size.error)
      else
        var body := TakeAt(buf, size.next, size.value);
        if body.Failed? then Failed(body.error) else Got(RawSection(id.value, body.value), body.next)
  }

  /** The name and the payload of a custom section. */
  function CustomBody(body: seq<Byte>): Outcome<(seq<Byte>, seq<Byte>)> {
    var len := LebAt(body, 0, 0);
    if len.Failed? then Err(len.error)
    else
      var name := TakeAt(body, len.next, len.value);
      if name.Failed? then Err(name.error) else Ok((name.value, body[name.next..]))
  }

  /** The rest of the module, given the payloads found so far. */
  function CustomFrom(buf: seq<Byte>, pos: nat, name: seq<Byte>, matches: seq<seq<Byte>>): Outcome<seq<seq<Byte>>>
    decreases |buf| - pos
  {
    if pos >= |buf| then Ok(matches)
    else
      var s := SectionAt(buf, pos);
      if s.Failed? then Err(s.error)
      else if s.value.id != 0 then CustomFrom(buf, s.next, name, matches)
      else
        var c := CustomBody(s.value.body);
        if c.Err? then Err(c.error)
        else CustomFrom(buf, s.next, name, if c.value.0 == name then matches + [c.value.1] else matches)
  }

  function CustomSectionsOf(wasm: seq<Byte>, name: seq<Byte>): Outcome<seq<seq<Byte>>> {
    if HeaderOf(wasm).Failed? then Err(HeaderOf(wasm).error) else CustomFrom(wasm, 8, name, [])
  }

  datatype Kind = FuncImport(index: nat) | TableImport | MemoryImport(range: Range) | GlobalImport

  datatype Entry = Entry(from: seq<Byte>, name: seq<Byte>, kind: Kind)

  function KindAt(buf: seq<Byte>, pos: nat): (r: Read<Kind>)
    ensures r.Got? ==> r.next <= |buf|
  {
    var kind := ByteAt(buf, pos);
    if kind.Failed? then Failed(kind.error)
    else if kind.value == 0 then
      var index := LebAt(buf, kind.next, 0);
      if index.Failed? then Failed(index.error) else Got(FuncImport(index.value), index.next)
    else if kind.value == 1 then
      var reftype := ByteAt(buf, kind.next);
      if reftype.Failed? then Failed(reftype.error)
      else
        var limits := SkippedLimitsAt(buf, reftype.next);
        if limits.Failed? then Failed(limits.error) else Got(TableImport, limits.next)
    else if kind.value == 2 then
      var limits := LimitsAt(buf, kind.next);
      if limits.Failed? then Failed(limits.error) else Got(MemoryImport(limits.value), limits.next)
    else if kind.value == 3 then
      var valtype := ByteAt(buf, kind.next);
      if valtype.Failed? then Failed(valtype.error)
      else
        var mutability := ByteAt(buf, valtype.next);
        if mutability.Failed? then Failed(mutability.error) else Got(GlobalImport, mutability.next)
    else Failed(UnknownImportKind)
  }

  function EntryAt(buf: seq<Byte>, pos: nat): (r: Read<Entry>)
    ensures r.Got? ==> r.next <= |buf|
  {
    var from := NameAt(buf, pos);
    if from.Failed? then Failed(from.error)
    else
      var name := NameAt(buf, from.next);
      if name.Failed? then Failed(name.error)
      else
        var kind := KindAt(buf, name.next);
        if kind.Failed? then Failed(kind.error) else Got(Entry(from.value, name.value, kind.value), kind.next)
  }

  datatype ImportedMemory = ImportedMemory(from: seq<Byte>, name: seq<Byte>, range: Range)

  /** `n` more entries, keeping the memory; a second one is refused on the spot. */
  function MemoryAmong(buf: seq<Byte>, pos: nat, n: nat, memory: Option<ImportedMemory>): Read<Option<ImportedMemory>>
    decreases n
  {
    if n == 0 then Got(memory, pos)
    else
      var e := EntryAt(buf, pos);
      if e.Failed? then Failed(e.error)
      else if !e.value.kind.MemoryImport? then MemoryAmong(buf, e.next, n - 1, memory)
      else if memory.Some? then Failed(ManyMemories)
      else MemoryAmong(buf, e.next, n - 1, Some(ImportedMemory(e.value.from, e.value.name, e.value.kind.range)))
  }

  function MemoryIn(body: seq<Byte>): Outcome<Option<ImportedMemory>> {
    var count := LebAt(body, 0, 0);
    if count.Failed? then Err(count.error)
    else
      var memory := MemoryAmong(body, count.next, count.value, None);
      if memory.Failed? then Err(memory.error)
      else if memory.next < |body| then Err(TrailingBytes)
      else Ok(memory.value)
  }

  /** The rest of the module, given whether the import section was seen and its memory. */
  function MemoryFrom(buf: seq<Byte>, pos: nat, seen: bool, memory: Option<ImportedMemory>): Outcome<Option<ImportedMemory>>
    decreases |buf| - pos
  {
    if pos >= |buf| then Ok(memory)
    else
      var s := SectionAt(buf, pos);
      if s.Failed? then Err(s.error)
      else if s.value.id != 2 then MemoryFrom(buf, s.next, seen, memory)
      else if seen then Err(ManyImportSections)
      else
        var m := MemoryIn(s.value.body);
        if m.Err? then m else MemoryFrom(buf, s.next, true, m.value)
  }

  function ImportedMemoryOf(wasm: seq<Byte>): Outcome<Option<ImportedMemory>> {
    if HeaderOf(wasm).Failed? then Err(HeaderOf(wasm).error) else MemoryFrom(wasm, 8, false, None)
  }

  type Found = seq<(seq<Byte>, seq<Byte>)>

  /** `n` more entries, given the functions found so far. */
  function FunctionsAmong(buf: seq<Byte>, pos: nat, n: nat, found: Found): Read<Found>
    decreases n
  {
    if n == 0 then Got(found, pos)
    else
      var e := EntryAt(buf, pos);
      if e.Failed? then Failed(e.error)
      else FunctionsAmong(buf, e.next, n - 1, if e.value.kind.FuncImport? then found + [(e.value.from, e.value.name)] else found)
  }

  /** Unlike for the memory, bytes after the last entry are not looked at. */
  function FunctionsIn(body: seq<Byte>, found: Found): Outcome<Found> {
    var count := LebAt(body, 0, 0);
    if count.Failed? then Err(count.error)
    else
      var all := FunctionsAmong(body, count.next, count.value, found);
      if all.Failed? then Err(all.error) else Ok(all.value)
  }

  /** Nor are import sections counted: the functions of all of them are listed. */
  function FunctionsFrom(buf: seq<Byte>, pos: nat, found: Found): Outcome<Found>
    decreases |buf| - pos
  {
    if pos >= |buf| then Ok(found)
    else
      var s := SectionAt(buf, pos);
      if s.Failed? then Err(s.error)
      else if s.value.id != 2 then FunctionsFrom(buf, s.next, found)
      else
        var all := FunctionsIn(s.value.body, found);
        if all.Err? then all else FunctionsFrom(buf, s.next, all.value)
  }

  function ImportedFunctionsOf(wasm: seq<Byte>): Outcome<Found> {
    if HeaderOf(wasm).Failed? then Err(HeaderOf(wasm).error) else FunctionsFrom(wasm, 8, [])
  }

  method ReadSection(r: Reader) returns (s: Outcome<RawSection>)
    modifies r
    ensures Did(s, r.pos, SectionAt(r.buf, old(r.pos)))
  {
    hide LebAt;
    var id := r.ReadByte();
    if id.Err? {
      return Err(id.error);
    }
    var size := r.LebU32();
    if size.Err? {
      return Err(size.error);
    }
    var body := r.Take(size.value);
    if body.Err? {
      return Err(body.error);
    }
    return Ok(RawSection(id.value, body.value));
  }

  method CustomSections(wasm: seq<Byte>, name: seq<Byte>) returns (r: Outcome<seq<seq<Byte>>>)
    ensures r == CustomSectionsOf(wasm, name)
  {
    hide SectionAt, LebAt, HeaderOf;
    var reader := new Reader(wasm);
    var header := reader.Header();
    if header.Err? {
      return Err(header.error);
    }
    HeaderIsEight(wasm);
    var matches: seq<seq<Byte>> := [];
    while !reader.Eof()
      invariant reader.buf == wasm
      invariant CustomFrom(wasm, reader.pos, name, matches) == CustomFrom(wasm, 8, name, [])
      decreases |wasm| - reader.pos
    {
      var section := ReadSection(reader);
      if section.Err? {
        return Err(section.error);
      }
      if section.value.id == 0 {
        var body := section.value.body;
        var br := new Reader(body);
        var nameLen := br.LebU32();
        if nameLen.Err? {
          return Err(nameLen.error);
        }
        var sectionName := br.Take(nameLen.value);
        if sectionName.Err? {
          return Err(sectionName.error);
        }
        if sectionName.value == name {
          matches := matches + [body[br.pos..]];
        }
      }
    }
    return Ok(matches);
  }

  lemma HeaderIsEight(wasm: seq<Byte>)
    ensures HeaderOf(wasm).Got? ==> HeaderOf(wasm).next == 8
  {
  }

  method ParseImportsForMemory(body: seq<Byte>) returns (r: Outcome<Option<ImportedMemory>>)
    ensures r == MemoryIn(body)
  {
    hide NameAt, LebAt, LimitsAt, SkippedLimitsAt;
    var reader := new Reader(body);
    var count := reader.LebU32();
    if count.Err? {
      return Err(count.error);
    }
    var memory: Option<ImportedMemory> := None;
    ghost var start := reader.pos;
    for i := 0 to count.value
      invariant reader.buf == body
      invariant MemoryAmong(body, reader.pos, count.value - i, memory) == MemoryAmong(body, start, count.value, None)
    {
      ghost var at := reader.pos;
      var from := reader.ReadName();
      if from.Err? {
        return Err(from.error);
      }
      var name := reader.ReadName();
      if name.Err? {
        return Err(name.error);
      }
      var kind := reader.ReadByte();
      if kind.Err? {
        return Err(kind.error);
      }
      if kind.value == 0 {
        var index := reader.LebU32();
        if index.Err? {
          return Err(index.error);
        }
      } else if kind.value == 1 {
        var reftype := reader.ReadByte();
        if reftype.Err? {
          return Err(reftype.error);
        }
        var limits := reader.SkipLimits();
        if limits.Err? {
          return Err(limits.error);
        }
      } else if kind.value == 2 {
        var limits := reader.ReadLimits();
        if limits.Err? {
          return Err(limits.error);
        }
        if memory.Some? {
          return Err(ManyMemories);
        }
        memory := Some(ImportedMemory(from.value, name.value, limits.value));
      } else if kind.value == 3 {
        var valtype := reader.ReadByte();
        if valtype.Err? {
          return Err(valtype.error);
        }
        var mutability := reader.ReadByte();
        if mutability.Err? {
          return Err(mutability.error);
        }
      } else {
        return Err(UnknownImportKind);
      }
      assert EntryAt(body, at).Got? && EntryAt(body, at).next == reader.pos;
    }
    if !reader.Eof() {
      return Err(TrailingBytes);
    }
    return Ok(memory);
  }

  method ImportedMemoryIn(wasm: seq<Byte>) returns (r: Outcome<Option<ImportedMemory>>)
    ensures r == ImportedMemoryOf(wasm)
  {
    hide SectionAt, HeaderOf, MemoryIn;
    var reader := new Reader(wasm);
    var header := reader.Header();
    if header.Err? {
      return Err(header.error);
    }
    HeaderIsEight(wasm);
    var memory: Option<ImportedMemory>, sawImportSection := None, false;
    while !reader.Eof()
      invariant reader.buf == wasm
      invariant MemoryFrom(wasm, reader.pos, sawImportSection, memory) == MemoryFrom(wasm, 8, false, None)
      decreases |wasm| - reader.pos
    {
      var section := ReadSection(reader);
      if section.Err? {
        return Err(section.error);
      }
      if section.value.id == 2 {
        if sawImportSection {
          return Err(ManyImportSections);
        }
        sawImportSection := true;
        var found := ParseImportsForMemory(section.value.body);
        if found.Err? {
          return Err(found.error);
        }
        memory := found.value;
      }
    }
    return Ok(memory);
  }

  method ImportedFunctionsIn(wasm: seq<Byte>) returns (r: Outcome<Found>)
    ensures r == ImportedFunctionsOf(wasm)
  {
    hide SectionAt, HeaderOf, NameAt, LebAt, LimitsAt, SkippedLimitsAt;
    var reader := new Reader(wasm);
    var header := reader.Header();
    if header.Err? {
      return Err(header.error);
    }
    HeaderIsEight(wasm);
    var found: Found := [];
    while !reader.Eof()
      invariant reader.buf == wasm
      invariant FunctionsFrom(wasm, reader.pos, found) == FunctionsFrom(wasm, 8, [])
      decreases |wasm| - reader.pos
    {
      var section := ReadSection(reader);
      if section.Err? {
        return Err(section.error);
      }
      if section.value.id == 2 {
        var body := section.value.body;
        var br := new Reader(body);
        var count := br.LebU32();
        if count.Err? {
          return Err(count.error);
        }
        ghost var start, before := br.pos, found;
        label Entries:
        for i := 0 to count.value
          invariant br.buf == body && reader.pos == old@Entries(reader.pos)
          invariant FunctionsAmong(body, br.pos, count.value - i, found) == FunctionsAmong(body, start, count.value, before)
        {
          ghost var at := br.pos;
          var from := br.ReadName();
          if from.Err? {
            return Err(from.error);
          }
          var name := br.ReadName();
          if name.Err? {
            return Err(name.error);
          }
          var kind := br.ReadByte();
          if kind.Err? {
            return Err(kind.error);
          }
          if kind.value == 0 {
            var index := br.LebU32();
            if index.Err? {
              return Err(index.error);
            }
            found := found + [(from.value, name.value)];
          } else if kind.value == 1 {
            var reftype := br.ReadByte();
            if reftype.Err? {
              return Err(reftype.error);
            }
            var limits := br.SkipLimits();
            if limits.Err? {
              return Err(limits.error);
            }
          } else if kind.value == 2 {
            var limits := br.ReadLimits();
            if limits.Err? {
              return Err(limits.error);
            }
          } else if kind.value == 3 {
            var valtype := br.ReadByte();
            if valtype.Err? {
              return Err(valtype.error);
            }
            var mutability := br.ReadByte();
            if mutability.Err? {
              return Err(mutability.error);
            }
          } else {
            return Err(UnknownImportKind);
          }
          assert EntryAt(body, at).Got? && EntryAt(body, at).next == br.pos;
        }
      }
    }
    return Ok(found);
  }
}
