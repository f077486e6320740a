/** The readers of `wasm.rs` against the binary format: they accept exactly what the
    grammar can write, and read back what was written. */
module WasmTheorems {
  import opened Wrappers
  import opened Text
  import opened WasmGrammar
  import opened WasmReader
  import opened WasmModules

  /** Each `…Complete` lemma says a piece of syntax is read back wherever it stands; each
      `…Sound` lemma finds the syntax behind a successful read. */
  lemma NumberComplete(buf: seq<Byte>, pos: nat, b: seq<Byte>)
    requires IsU32(b) && At(buf, pos, b)
    ensures LebAt(buf, pos, 0) == Got(U(32, b).value, pos + |b|)
  {
    LebComplete(buf, pos, 0, b);
  }

  lemma NumberSound(buf: seq<Byte>, pos: nat) returns (b: seq<Byte>)
    requires LebAt(buf, pos, 0).Got?
    ensures IsU32(b) && At(buf, pos, b) && LebAt(buf, pos, 0) == Got(U(32, b).value, pos + |b|)
  {
    LebSound(buf, pos, 0);
    b := buf[pos..LebAt(buf, pos, 0).next];
  }

  lemma NameComplete(buf: seq<Byte>, pos: nat, n: Name)
    requires n.Valid() && At(buf, pos, n.Bytes())
    ensures NameAt(buf, pos) == Got(n.text, pos + |n.Bytes()|)
  {
    hide LebAt, U, Utf8;
    AtBoth(buf, pos, n.len, n.text);
    NumberComplete(buf, pos, n.len);
  }

  lemma NameSound(buf: seq<Byte>, pos: nat) returns (n: Name)
    requires NameAt(buf, pos).Got?
    ensures n.Valid() && At(buf, pos, n.Bytes()) && NameAt(buf, pos) == Got(n.text, pos + |n.Bytes()|)
  {
    hide LebAt, U, Utf8;
    var len := NumberSound(buf, pos);
    n := Name(len, NameAt(buf, pos).value);
    AtBoth(buf, pos, n.len, n.text);
  }

  function RangeOf(l: Limits): Range
    requires l.ValidForMemory()
  {
    Range(U(32, l.min).value, if l.flags == 0 then None else Some(U(32, l.max).value), l.flags == 3)
  }

  lemma LimitsComplete(buf: seq<Byte>, pos: nat, l: Limits)
    requires At(buf, pos, l.Bytes()) && l.Valid()
    ensures l.ValidForMemory() ==> LimitsAt(buf, pos) == Got(RangeOf(l), pos + |l.Bytes()|)
    ensures l.ValidForTable() ==> SkippedLimitsAt(buf, pos) == Got((), pos + |l.Bytes()|)
  {
    hide LebAt, U;
    AtBoth(buf, pos, [l.flags] + l.min, l.max);
    AtBoth(buf, pos, [l.flags], l.min);
    assert buf[pos] == buf[pos..pos + 1][0] == l.flags;
    NumberComplete(buf, pos + 1, l.min);
    if l.flags % 2 == 1 {
      NumberComplete(buf, pos + 1 + |l.min|, l.max);
    }
  }

  /** The bytes of limits whose flags and numbers have been found one after the other. */
  lemma LimitsThere(buf: seq<Byte>, pos: nat, l: Limits)
    requires pos < |buf| && buf[pos] == l.flags
    requires At(buf, pos + 1, l.min) && At(buf, pos + 1 + |l.min|, l.max)
    ensures At(buf, pos, l.Bytes())
  {
    assert buf[pos..pos + 1] == [l.flags];
    AtBoth(buf, pos, [l.flags], l.min);
    AtBoth(buf, pos, [l.flags] + l.min, l.max);
  }

  lemma LimitsSound(buf: seq<Byte>, pos: nat) returns (l: Limits)
    requires LimitsAt(buf, pos).Got?
    ensures l.ValidForMemory() && At(buf, pos, l.Bytes()) && LimitsAt(buf, pos) == Got(RangeOf(l), pos + |l.Bytes()|)
  {
    hide LebAt, U, At;
    var flags := buf[pos];
    var min := NumberSound(buf, pos + 1);
    var max: seq<Byte> := [];
    if flags % 2 == 1 {
      max := NumberSound(buf, pos + 1 + |min|);
    } else {
      NothingThere(buf, pos + 1 + |min|);
    }
    l := Limits(flags, min, max);
    LimitsThere(buf, pos, l);
  }

  lemma SkippedLimitsSound(buf: seq<Byte>, pos: nat) returns (l: Limits)
    requires SkippedLimitsAt(buf, pos).Got?
    ensures l.ValidForTable() && At(buf, pos, l.Bytes()) && SkippedLimitsAt(buf, pos) == Got((), pos + |l.Bytes()|)
  {
    hide LebAt, U, At;
    var flags := buf[pos];
    var min := NumberSound(buf, pos + 1);
    var max: seq<Byte> := [];
    if flags % 2 == 1 {
      max := NumberSound(buf, pos + 1 + |min|);
    } else {
      NothingThere(buf, pos + 1 + |min|);
    }
    l := Limits(flags, min, max);
    LimitsThere(buf, pos, l);
  }

  lemma NothingThere(buf: seq<Byte>, pos: nat)
    requires pos <= |buf|
    ensures At(buf, pos, [])
  {
  }

  function KindOf(d: Desc): Kind
    requires d.Readable()
  {
    match d
    case Func(index) => FuncImport(U(32, index).value)
    case Table(_, _) => TableImport
    case Memory(limits) => MemoryImport(RangeOf(limits))
    case Global(_, _) => GlobalImport
  }

  lemma KindComplete(buf: seq<Byte>, pos: nat, d: Desc)
    requires d.Readable() && At(buf, pos, d.Bytes())
    ensures KindAt(buf, pos) == Got(KindOf(d), pos + |d.Bytes()|)
  {
    hide LebAt, U, LimitsAt, SkippedLimitsAt, Limits.ValidForMemory, Limits.ValidForTable, RangeOf, Limits.Bytes;
    assert buf[pos] == buf[pos..pos + |d.Bytes()|][0];
    match d
    case Func(index) =>
      AtBoth(buf, pos, [0], index);
      NumberComplete(buf, pos + 1, index);
    case Table(reftype, limits) =>
      AtBoth(buf, pos, [1, reftype], limits.Bytes());
      ValidLimits(limits);
      LimitsComplete(buf, pos + 2, limits);
    case Memory(limits) =>
      AtBoth(buf, pos, [2], limits.Bytes());
      ValidLimits(limits);
      LimitsComplete(buf, pos + 1, limits);
    case Global(_, _) =>
  }

  lemma ValidLimits(l: Limits)
    ensures l.ValidForTable() || l.ValidForMemory() ==> l.Valid()
  {
  }

  lemma KindSound(buf: seq<Byte>, pos: nat) returns (d: Desc)
    requires KindAt(buf, pos).Got?
    ensures d.Readable() && At(buf, pos, d.Bytes()) && KindAt(buf, pos) == Got(KindOf(d), pos + |d.Bytes()|)
  {
    hide LebAt, U, LimitsAt, SkippedLimitsAt, Limits.ValidForMemory, Limits.ValidForTable, RangeOf, Limits.Bytes;
    var kind := buf[pos];
    hide At;
    BytesThere(buf, pos);
    if kind == 0 {
      var index := NumberSound(buf, pos + 1);
      d := Func(index);
      AtBoth(buf, pos, [0], index);
    } else if kind == 1 {
      var limits := SkippedLimitsSound(buf, pos + 2);
      d := Table(buf[pos + 1], limits);
      AtBoth(buf, pos, [1, buf[pos + 1]], limits.Bytes());
    } else if kind == 2 {
      var limits := LimitsSound(buf, pos + 1);
      d := Memory(limits);
      AtBoth(buf, pos, [2], limits.Bytes());
    } else {
      d := Global(buf[pos + 1], buf[pos + 2]);
    }
  }

  lemma BytesThere(buf: seq<Byte>, pos: nat)
    requires pos < |buf|
    ensures At(buf, pos, [buf[pos]])
    ensures pos + 1 < |buf| ==> At(buf, pos, [buf[pos], buf[pos + 1]])
    ensures pos + 2 < |buf| ==> At(buf, pos, [buf[pos], buf[pos + 1], buf[pos + 2]])
  {
  }

  function EntryOf(i: Import): Entry
    requires i.Readable()
  {
    Entry(i.from.text, i.name.text, KindOf(i.desc))
  }

  lemma EntryComplete(buf: seq<Byte>, pos: nat, i: Import)
    requires i.Readable() && At(buf, pos, i.Bytes())
    ensures EntryAt(buf, pos) == Got(EntryOf(i), pos + |i.Bytes()|)
  {
    hide NameAt, KindAt, KindOf, Desc.Readable, Desc.Bytes, Name.Valid, Name.Bytes;
    AtBoth(buf, pos, i.from.Bytes() + i.name.Bytes(), i.desc.Bytes());
    AtBoth(buf, pos, i.from.Bytes(), i.name.Bytes());
    NameComplete(buf, pos, i.from);
    NameComplete(buf, pos + |i.from.Bytes()|, i.name);
    KindComplete(buf, pos + |i.from.Bytes()| + |i.name.Bytes()|, i.desc);
  }

  lemma EntrySound(buf: seq<Byte>, pos: nat) returns (i: Import)
    requires EntryAt(buf, pos).Got?
    ensures i.Readable() && At(buf, pos, i.Bytes()) && EntryAt(buf, pos) == Got(EntryOf(i), pos + |i.Bytes()|)
  {
    hide NameAt, KindAt, KindOf, Desc.Readable, Desc.Bytes, Name.Valid, Name.Bytes;
    var from := NameSound(buf, pos);
    var name := NameSound(buf, pos + |from.Bytes()|);
    var desc := KindSound(buf, pos + |from.Bytes()| + |name.Bytes()|);
    i := Import(from, name, desc);
    AtBoth(buf, pos, from.Bytes(), name.Bytes());
    AtBoth(buf, pos, from.Bytes() + name.Bytes(), desc.Bytes());
  }

  /** Where the kind byte of an entry is. */
  function KindPos(buf: seq<Byte>, pos: nat): nat
    requires EntryAt(buf, pos).Got?
  {
    NameAt(buf, NameAt(buf, pos).next).next
  }

  /** The bytes the reader passes over without looking: a table's type, a global's two. */
  predicate TypesInRange(buf: seq<Byte>, pos: nat)
    requires KindAt(buf, pos).Got?
  {
    && (buf[pos] == 1 ==> buf[pos + 1] == FUNCREF)
    && (buf[pos] == 3 ==> IsValueType(buf[pos + 1]) && buf[pos + 2] <= 1)
  }

  ghost predicate IsStandardEntry(buf: seq<Byte>, pos: nat, i: Import) {
    i.Standard() && At(buf, pos, i.Bytes())
  }

  lemma DescTypes(buf: seq<Byte>, pos: nat, d: Desc)
    requires d.Readable() && At(buf, pos, d.Bytes())
    ensures KindAt(buf, pos).Got? && (d.Standard() <==> TypesInRange(buf, pos))
  {
    KindComplete(buf, pos, d);
    hide LebAt, U, LimitsAt, SkippedLimitsAt, Limits.ValidForMemory, Limits.ValidForTable, Limits.Bytes;
    var bytes := buf[pos..pos + |d.Bytes()|];
    assert buf[pos] == bytes[0];
    assert d.Table? || d.Global? ==> buf[pos + 1] == bytes[1];
    assert d.Global? ==> buf[pos + 2] == bytes[2];
  }

  /** Read entries start with two names; the rest is the kind. */
  lemma EntryParts(buf: seq<Byte>, pos: nat, i: Import)
    requires i.Readable() && At(buf, pos, i.Bytes())
    ensures EntryAt(buf, pos).Got? && At(buf, KindPos(buf, pos), i.desc.Bytes())
  {
    hide NameAt, KindAt, EntryAt, Desc.Readable, Desc.Bytes, Name.Valid, Name.Bytes, At;
    EntryComplete(buf, pos, i);
    AtBoth(buf, pos, i.from.Bytes() + i.name.Bytes(), i.desc.Bytes());
    AtBoth(buf, pos, i.from.Bytes(), i.name.Bytes());
    NameComplete(buf, pos, i.from);
    NameComplete(buf, pos + |i.from.Bytes()|, i.name);
    assert KindPos(buf, pos) == pos + |i.from.Bytes()| + |i.name.Bytes()|;
  }

  lemma EntryHasKind(buf: seq<Byte>, pos: nat)
    requires EntryAt(buf, pos).Got?
    ensures KindAt(buf, KindPos(buf, pos)).Got?
  {
    hide NameAt, KindAt;
  }

  /** An entry that is read is an import of section 5.5.5 exactly if the bytes passed over
      are ones the specification allows. */
  lemma EntryIsStandardExactly(buf: seq<Byte>, pos: nat)
    requires EntryAt(buf, pos).Got?
    ensures KindAt(buf, KindPos(buf, pos)).Got?
    ensures (exists i :: IsStandardEntry(buf, pos, i)) <==> TypesInRange(buf, KindPos(buf, pos))
  {
    EntryHasKind(buf, pos);
    var at := KindPos(buf, pos);
    hide EntryAt, KindAt, KindPos, Desc.Readable, Desc.Standard, TypesInRange;
    forall i | IsStandardEntry(buf, pos, i) ensures TypesInRange(buf, at) {
      EntryParts(buf, pos, i);
      DescTypes(buf, at, i.desc);
    }
    if TypesInRange(buf, at) {
      var i := EntrySound(buf, pos);
      EntryParts(buf, pos, i);
      DescTypes(buf, at, i.desc);
      assert IsStandardEntry(buf, pos, i);
    }
  }

  /** Five bytes that are read as a global import and are none. */
  lemma ALooseEntryIsRead(buf: seq<Byte>)
    requires buf == [0, 0, 3, 0, 9]
    ensures EntryAt(buf, 0).Got? && !exists i :: IsStandardEntry(buf, 0, i)
  {
    assert LebAt(buf, 0, 0) == Got(0, 1) && LebAt(buf, 1, 0) == Got(0, 2);
    assert buf[1..1] == [] && buf[2..2] == [];
    assert NameAt(buf, 0) == Got([], 1) && NameAt(buf, 1) == Got([], 2);
    assert KindAt(buf, 2) == Got(GlobalImport, 5);
    EntryIsStandardExactly(buf, 0);
  }

  function MemoriesOf(is_: seq<Import>): seq<ImportedMemory>
    requires forall i :: 0 <= i < |is_| ==> is_[i].Readable()
  {
    if is_ == [] then []
    else
      var e := EntryOf(is_[0]);
      (if e.kind.MemoryImport? then [ImportedMemory(e.from, e.name, e.kind.range)] else []) + MemoriesOf(is_[1..])
  }

  function FunctionsOf(is_: seq<Import>): Found
    requires forall i :: 0 <= i < |is_| ==> is_[i].Readable()
  {
    if is_ == [] then []
    else
      var e := EntryOf(is_[0]);
      (if e.kind.FuncImport? then [(e.from, e.name)] else []) + FunctionsOf(is_[1..])
  }

  function AsSeq<T>(o: Option<T>): seq<T> {
    if o.Some? then [o.value] else []
  }

  function AtMostOne<T>(s: seq<T>): Option<T>
    requires |s| <= 1
  {
    if s == [] then None else Some(s[0])
  }

  /** The memory scan: fine until a second memory, and then refused. */
  lemma {:induction false} MemoryAmongComplete(buf: seq<Byte>, pos: nat, is_: seq<Import>, memory: Option<ImportedMemory>)
    requires (forall i :: 0 <= i < |is_| ==> is_[i].Readable()) && At(buf, pos, Imports(is_))
    ensures var ms := AsSeq(memory) + MemoriesOf(is_);
      MemoryAmong(buf, pos, |is_|, memory) ==
        if |ms| <= 1 then Got(AtMostOne(ms), pos + |Imports(is_)|) else Failed(ManyMemories)
    decreases |is_|
  {
    hide EntryAt, EntryOf, Import.Readable, Import.Bytes, At;
    if is_ != [] {
      AtBoth(buf, pos, is_[0].Bytes(), Imports(is_[1..]));
      EntryComplete(buf, pos, is_[0]);
      var e := EntryOf(is_[0]);
      if !e.kind.MemoryImport? {
        MemoryAmongComplete(buf, pos + |is_[0].Bytes()|, is_[1..], memory);
      } else if memory == None {
        MemoryAmongComplete(buf, pos + |is_[0].Bytes()|, is_[1..], Some(ImportedMemory(e.from, e.name, e.kind.range)));
      }
    }
  }

  lemma {:induction false} MemoryAmongSound(buf: seq<Byte>, pos: nat, n: nat, memory: Option<ImportedMemory>)
    returns (is_: seq<Import>)
    requires pos <= |buf| && MemoryAmong(buf, pos, n, memory).Got?
    ensures |is_| == n && (forall i :: 0 <= i < n ==> is_[i].Readable()) && At(buf, pos, Imports(is_))
    decreases n
  {
    hide EntryAt, EntryOf, Import.Readable, Import.Bytes, At;
    if n == 0 {
      is_ := [];
      NothingThere(buf, pos);
    } else {
      var first := EntrySound(buf, pos);
      var e := EntryOf(first);
      var next := pos + |first.Bytes()|;
      Within(buf, pos, first.Bytes());
      var rest := MemoryAmongSound(buf, next, n - 1,
        if e.kind.MemoryImport? then Some(ImportedMemory(e.from, e.name, e.kind.range)) else memory);
      is_ := [first] + rest;
      assert is_[1..] == rest;
      AtBoth(buf, pos, first.Bytes(), Imports(rest));
    }
  }

  lemma Within(buf: seq<Byte>, pos: nat, bytes: seq<Byte>)
    requires At(buf, pos, bytes)
    ensures pos + |bytes| <= |buf|
  {
  }

  lemma FunctionsOfAll(is_: seq<Import>)
    requires forall i :: 0 <= i < |is_| ==> is_[i].Readable()
    ensures FunctionsOf(is_) ==
      if is_ == [] then [] else
        (if EntryOf(is_[0]).kind.FuncImport? then [(EntryOf(is_[0]).from, EntryOf(is_[0]).name)] else []) + FunctionsOf(is_[1..])
  {
  }

  lemma {:induction false} FunctionsAmongComplete(buf: seq<Byte>, pos: nat, is_: seq<Import>, found: Found)
    requires (forall i :: 0 <= i < |is_| ==> is_[i].Readable()) && At(buf, pos, Imports(is_))
    ensures FunctionsAmong(buf, pos, |is_|, found) == Got(found + FunctionsOf(is_), pos + |Imports(is_)|)
    decreases |is_|
  {
    hide EntryAt, EntryOf, Import.Readable, Import.Bytes, At, FunctionsOf;
    FunctionsOfAll(is_);
    if is_ == [] {
      assert found + [] == found;
    } else {
      var first, rest := is_[0], is_[1..];
      AtBoth(buf, pos, first.Bytes(), Imports(rest));
      EntryComplete(buf, pos, first);
      var e := EntryOf(first);
      var now := if e.kind.FuncImport? then [(e.from, e.name)] else [];
      assert found + [] == found;
      FunctionsAmongComplete(buf, pos + |first.Bytes()|, rest, found + now);
      assert found + now + FunctionsOf(rest) == found + (now + FunctionsOf(rest));
    }
  }

  lemma {:induction false} FunctionsAmongSound(buf: seq<Byte>, pos: nat, n: nat, found: Found) returns (is_: seq<Import>)
    requires pos <= |buf| && FunctionsAmong(buf, pos, n, found).Got?
    ensures |is_| == n && (forall i :: 0 <= i < n ==> is_[i].Readable()) && At(buf, pos, Imports(is_))
    decreases n
  {
    hide EntryAt, EntryOf, Import.Readable, Import.Bytes, At;
    if n == 0 {
      is_ := [];
      NothingThere(buf, pos);
    } else {
      var first := EntrySound(buf, pos);
      var e := EntryOf(first);
      Within(buf, pos, first.Bytes());
      var rest := FunctionsAmongSound(buf, pos + |first.Bytes()|, n - 1,
        if e.kind.FuncImport? then found + [(e.from, e.name)] else found);
      is_ := [first] + rest;
      assert is_[1..] == rest;
      AtBoth(buf, pos, first.Bytes(), Imports(rest));
    }
  }

  lemma WholeList(list: ImportList, trailing: seq<Byte>)
    requires list.Readable()
    ensures var body := list.Bytes() + trailing;
      && At(body, 0, list.count) && At(body, |list.count|, Imports(list.entries))
      && |body| == |list.count| + |Imports(list.entries)| + |trailing|
      && LebAt(body, 0, 0) == Got(|list.entries|, |list.count|)
  {
    var body := list.Bytes() + trailing;
    assert body[0..|body|] == body;
    AtBoth(body, 0, list.Bytes(), trailing);
    AtBoth(body, 0, list.count, Imports(list.entries));
    NumberComplete(body, 0, list.count);
  }

  lemma MemoryInComplete(list: ImportList, trailing: seq<Byte>)
    requires list.Readable()
    ensures MemoryIn(list.Bytes() + trailing) ==
      if |MemoriesOf(list.entries)| > 1 then Err(ManyMemories)
      else if trailing != [] then Err(TrailingBytes)
      else Ok(AtMostOne(MemoriesOf(list.entries)))
  {
    hide LebAt, At, MemoryAmong, MemoriesOf, Imports;
    WholeList(list, trailing);
    MemoryAmongComplete(list.Bytes() + trailing, |list.count|, list.entries, None);
    assert [] + MemoriesOf(list.entries) == MemoriesOf(list.entries);
  }

  lemma FunctionsInComplete(list: ImportList, trailing: seq<Byte>, found: Found)
    requires list.Readable()
    ensures FunctionsIn(list.Bytes() + trailing, found) == Ok(found + FunctionsOf(list.entries))
  {
    hide LebAt, At, FunctionsAmong, FunctionsOf, Imports;
    WholeList(list, trailing);
    FunctionsAmongComplete(list.Bytes() + trailing, |list.count|, list.entries, found);
  }

  lemma MemoryInSound(body: seq<Byte>) returns (list: ImportList)
    requires MemoryIn(body).Ok?
    ensures list.Readable() && list.Bytes() == body
  {
    hide LebAt, MemoryAmong, Imports, Import.Readable;
    var count := NumberSound(body, 0);
    var entries := MemoryAmongSound(body, |count|, U(32, count).value, None);
    list := ImportList(count, entries);
    assert MemoryAmong(body, |count|, |entries|, None).next == |count| + |Imports(entries)| by {
      MemoryAmongComplete(body, |count|, entries, None);
    }
    AtBoth(body, 0, count, Imports(entries));
    assert body[0..|body|] == body;
  }

  lemma FunctionsInSound(body: seq<Byte>, found: Found) returns (list: ImportList, trailing: seq<Byte>)
    requires FunctionsIn(body, found).Ok?
    ensures list.Readable() && body == list.Bytes() + trailing
  {
    hide LebAt, FunctionsAmong, Imports, Import.Readable;
    var count := NumberSound(body, 0);
    var entries := FunctionsAmongSound(body, |count|, U(32, count).value, found);
    list := ImportList(count, entries);
    AtBoth(body, 0, count, Imports(entries));
    trailing := body[|list.Bytes()|..];
  }

  lemma SectionComplete(buf: seq<Byte>, pos: nat, s: Section)
    requires s.Valid() && At(buf, pos, s.Bytes())
    ensures SectionAt(buf, pos) == Got(RawSection(s.id, s.body), pos + |s.Bytes()|)
  {
    hide LebAt, U;
    AtBoth(buf, pos, [s.id] + s.size, s.body);
    AtBoth(buf, pos, [s.id], s.size);
    assert buf[pos] == buf[pos..pos + 1][0] == s.id;
    NumberComplete(buf, pos + 1, s.size);
  }

  lemma SectionSound(buf: seq<Byte>, pos: nat) returns (s: Section)
    requires SectionAt(buf, pos).Got?
    ensures s.Valid() && At(buf, pos, s.Bytes())
    ensures SectionAt(buf, pos) == Got(RawSection(s.id, s.body), pos + |s.Bytes()|)
  {
    hide LebAt, U;
    var size := NumberSound(buf, pos + 1);
    s := Section(buf[pos], size, SectionAt(buf, pos).value.body);
    assert buf[pos..pos + 1] == [s.id];
    AtBoth(buf, pos, [s.id], size);
    AtBoth(buf, pos, [s.id] + size, s.body);
  }

  lemma HeaderComplete(wasm: seq<Byte>, ss: seq<Section>)
    requires wasm == Module(ss)
    ensures HeaderOf(wasm) == Got((), 8) && At(wasm, 8, Sections(ss)) && |wasm| == 8 + |Sections(ss)|
  {
    assert wasm[..4] == MAGIC && wasm[4..8] == VERSION;
  }

  lemma HeaderSound(wasm: seq<Byte>, ss: seq<Section>)
    requires HeaderOf(wasm).Got? && wasm[8..] == Sections(ss)
    ensures wasm == Module(ss)
  {
    assert wasm == wasm[..4] + wasm[4..8] + wasm[8..];
  }

  // Custom sections.

  /** A section, and what is in it if it is a custom one. */
  datatype CustomItem = CustomItem(section: Section, custom: Custom) {
    predicate Valid() { section.Valid() && (section.id == 0 ==> custom.Readable() && section.body == custom.Bytes()) }
  }

  function CustomSyntax(items: seq<CustomItem>): seq<Section> {
    if items == [] then [] else [items[0].section] + CustomSyntax(items[1..])
  }

  /** The payloads under `name`, in module order. */
  function PayloadsOf(items: seq<CustomItem>, name: seq<Byte>): seq<seq<Byte>> {
    if items == [] then []
    else
      var i := items[0];
      (if i.section.id == 0 && i.custom.name == name then [i.custom.payload] else []) + PayloadsOf(items[1..], name)
  }

  lemma CustomBodyComplete(c: Custom)
    requires c.Readable()
    ensures CustomBody(c.Bytes()) == Ok((c.name, c.payload))
  {
    hide LebAt, U;
    var body := c.Bytes();
    assert body[0..|body|] == body;
    AtBoth(body, 0, c.len + c.name, c.payload);
    AtBoth(body, 0, c.len, c.name);
    NumberComplete(body, 0, c.len);
    assert body[|c.len| + |c.name|..] == c.payload;
  }

  lemma CustomBodySound(body: seq<Byte>) returns (c: Custom)
    requires CustomBody(body).Ok?
    ensures c.Readable() && c.Bytes() == body
  {
    hide LebAt, U;
    var len := NumberSound(body, 0);
    c := Custom(len, CustomBody(body).value.0, CustomBody(body).value.1);
    assert body == body[..|len|] + body[|len|..|len| + |c.name|] + body[|len| + |c.name|..];
  }

  ghost predicate IsStandardCustom(body: seq<Byte>, c: Custom) {
    c.Standard() && c.Bytes() == body
  }

  /** A custom section that is read is one of section 5.5.3 exactly if its name is UTF-8. */
  lemma CustomIsStandardExactly(body: seq<Byte>)
    requires CustomBody(body).Ok?
    ensures (exists c :: IsStandardCustom(body, c)) <==> Utf8(CustomBody(body).value.0)
  {
    hide CustomBody, Utf8, U;
    forall c | IsStandardCustom(body, c) ensures Utf8(CustomBody(body).value.0) {
      CustomBodyComplete(c);
    }
    if Utf8(CustomBody(body).value.0) {
      var c := CustomBodySound(body);
      CustomBodyComplete(c);
      assert IsStandardCustom(body, c);
    }
  }

  lemma ALooseCustomIsRead(body: seq<Byte>)
    requires body == [1, 0xFF]
    ensures CustomBody(body).Ok? && !exists c :: IsStandardCustom(body, c)
  {
    assert LebAt(body, 0, 0) == Got(1, 1);
    assert body[1..2] == [0xFF];
    assert !Utf8([0xFF]);
    CustomIsStandardExactly(body);
  }

  lemma {:induction false} CustomFromComplete(buf: seq<Byte>, pos: nat, items: seq<CustomItem>, name: seq<Byte>,
                                              matches: seq<seq<Byte>>)
    requires forall i :: 0 <= i < |items| ==> items[i].Valid()
    requires At(buf, pos, Sections(CustomSyntax(items))) && |buf| == pos + |Sections(CustomSyntax(items))|
    ensures CustomFrom(buf, pos, name, matches) == Ok(matches + PayloadsOf(items, name))
    decreases |items|
  {
    hide At, SectionAt, CustomBody, Section.Bytes;
    if items != [] {
      var i := items[0];
      assert items[1..] == items[1..] && i.Valid();
      assert CustomSyntax(items)[1..] == CustomSyntax(items[1..]);
      AtBoth(buf, pos, i.section.Bytes(), Sections(CustomSyntax(items[1..])));
      SectionComplete(buf, pos, i.section);
      if i.section.id == 0 {
        CustomBodyComplete(i.custom);
      }
      var now := if i.section.id == 0 && i.custom.name == name then [i.custom.payload] else [];
      CustomFromComplete(buf, pos + |i.section.Bytes()|, items[1..], name, matches + now);
      assert matches + now + PayloadsOf(items[1..], name) == matches + PayloadsOf(items, name);
      assert matches + [] == matches;
    }
  }

  lemma {:induction false} CustomFromSound(buf: seq<Byte>, pos: nat, name: seq<Byte>, matches: seq<seq<Byte>>)
    returns (items: seq<CustomItem>)
    requires pos <= |buf| && CustomFrom(buf, pos, name, matches).Ok?
    ensures forall i :: 0 <= i < |items| ==> items[i].Valid()
    ensures buf[pos..] == Sections(CustomSyntax(items))
    decreases |buf| - pos
  {
    hide SectionAt, CustomBody, Section.Bytes, Custom.Bytes, Section.Valid, Custom.Readable;
    if pos >= |buf| {
      items := [];
    } else {
      var s := SectionSound(buf, pos);
      var next := pos + |s.Bytes()|;
      var custom := Custom([], [], []);
      var now := matches;
      if s.id == 0 {
        custom := CustomBodySound(s.body);
        var c := CustomBody(s.body).value;
        now := if c.0 == name then matches + [c.1] else matches;
      }
      var rest := CustomFromSound(buf, next, name, now);
      items := [CustomItem(s, custom)] + rest;
      assert items[1..] == rest;
      assert CustomSyntax(items)[1..] == CustomSyntax(rest);
      assert buf[pos..] == buf[pos..next] + buf[next..];
    }
  }

  ghost predicate IsCustomModule(wasm: seq<Byte>, items: seq<CustomItem>) {
    (forall i :: 0 <= i < |items| ==> items[i].Valid()) && wasm == Module(CustomSyntax(items))
  }

  /** On the encoding of any section list, padded in any way, `custom_sections` returns
      the payloads of that name, all of them, in module order. */
  lemma CustomSectionsReadBack(wasm: seq<Byte>, items: seq<CustomItem>, name: seq<Byte>)
    requires IsCustomModule(wasm, items)
    ensures CustomSectionsOf(wasm, name) == Ok(PayloadsOf(items, name))
  {
    hide CustomFrom, PayloadsOf, At;
    HeaderComplete(wasm, CustomSyntax(items));
    CustomFromComplete(wasm, 8, items, name, []);
    assert [] + PayloadsOf(items, name) == PayloadsOf(items, name);
  }

  /** And it accepts nothing else: an `Ok` means the whole input is such an encoding. */
  lemma CustomSectionsAcceptExactly(wasm: seq<Byte>, name: seq<Byte>)
    ensures CustomSectionsOf(wasm, name).Ok? <==> exists items :: IsCustomModule(wasm, items)
  {
    if CustomSectionsOf(wasm, name).Ok? {
      var items := CustomFromSound(wasm, 8, name, []);
      HeaderSound(wasm, CustomSyntax(items));
      assert IsCustomModule(wasm, items);
    }
    forall items | IsCustomModule(wasm, items) ensures CustomSectionsOf(wasm, name).Ok? {
      CustomSectionsReadBack(wasm, items, name);
    }
  }

  // Imports.

  /** A section, and what is in it if it is an import section: a list of imports, and
      whatever bytes come after it. */
  datatype ImportItem = ImportItem(section: Section, list: ImportList, trailing: seq<Byte>) {
    ghost predicate Valid() {
      section.Valid() && (section.id == 2 ==> list.Readable() && section.body == list.Bytes() + trailing)
    }
  }

  ghost predicate AllValid(items: seq<ImportItem>) {
    forall i :: 0 <= i < |items| ==> items[i].Valid()
  }

  predicate NoTrailing(items: seq<ImportItem>) {
    items == [] || ((items[0].section.id == 2 ==> items[0].trailing == []) && NoTrailing(items[1..]))
  }

  function ImportSyntax(items: seq<ImportItem>): seq<Section> {
    if items == [] then [] else [items[0].section] + ImportSyntax(items[1..])
  }

  function ImportSections(items: seq<ImportItem>): nat {
    if items == [] then 0 else (if items[0].section.id == 2 then 1 else 0) + ImportSections(items[1..])
  }

  ghost function AllMemories(items: seq<ImportItem>): seq<ImportedMemory>
    requires AllValid(items)
  {
    if items == [] then []
    else (if items[0].section.id == 2 then MemoriesOf(items[0].list.entries) else []) + AllMemories(items[1..])
  }

  ghost function AllFunctions(items: seq<ImportItem>): Found
    requires AllValid(items)
  {
    if items == [] then []
    else (if items[0].section.id == 2 then FunctionsOf(items[0].list.entries) else []) + AllFunctions(items[1..])
  }

  lemma {:induction false} NoImportsNoMemories(items: seq<ImportItem>)
    requires AllValid(items) && ImportSections(items) == 0
    ensures AllMemories(items) == []
  {
    if items != [] {
      NoImportsNoMemories(items[1..]);
    }
  }

  /** What the memory reader asks of the sections still to come. */
  ghost predicate MemoryReadable(items: seq<ImportItem>, seen: bool)
    requires AllValid(items)
  {
    ImportSections(items) <= (if seen then 0 else 1) && |AllMemories(items)| <= 1 && NoTrailing(items)
  }

  lemma {:induction false} MemoryFromComplete(buf: seq<Byte>, pos: nat, items: seq<ImportItem>, seen: bool, memory: Option<ImportedMemory>)
    requires AllValid(items)
    requires At(buf, pos, Sections(ImportSyntax(items))) && |buf| == pos + |Sections(ImportSyntax(items))|
    requires !seen ==> memory == None
    ensures MemoryFrom(buf, pos, seen, memory).Ok? <==> MemoryReadable(items, seen)
    ensures MemoryReadable(items, seen) ==> MemoryFrom(buf, pos, seen, memory).value == if seen then memory else AtMostOne(AllMemories(items))
    decreases |items|
  {
    hide At, SectionAt, MemoryIn, Section.Bytes, Section.Valid, MemoriesOf, ImportList.Bytes;
    if items != [] {
      var i := items[0];
      assert i.Valid();
      assert ImportSyntax(items)[1..] == ImportSyntax(items[1..]);
      AtBoth(buf, pos, i.section.Bytes(), Sections(ImportSyntax(items[1..])));
      SectionComplete(buf, pos, i.section);
      var next := pos + |i.section.Bytes()|;
      if i.section.id == 2 {
        if ImportSections(items[1..]) == 0 {
          NoImportsNoMemories(items[1..]);
        }
        MemoryInComplete(i.list, i.trailing);
        if MemoryIn(i.section.body).Ok? {
          MemoryFromComplete(buf, next, items[1..], true, AtMostOne(MemoriesOf(i.list.entries)));
        }
      } else {
        MemoryFromComplete(buf, next, items[1..], seen, memory);
      }
    }
  }

  lemma {:induction false} MemoryFromSound(buf: seq<Byte>, pos: nat, seen: bool, memory: Option<ImportedMemory>)
    returns (items: seq<ImportItem>)
    requires pos <= |buf| && MemoryFrom(buf, pos, seen, memory).Ok?
    ensures AllValid(items) && buf[pos..] == Sections(ImportSyntax(items)) && MemoryReadable(items, seen)
    decreases |buf| - pos
  {
    hide SectionAt, MemoryIn, Section.Bytes, Section.Valid, MemoriesOf, ImportList.Readable, ImportList.Bytes;
    if pos >= |buf| {
      items := [];
    } else {
      var s := SectionSound(buf, pos);
      var next := pos + |s.Bytes()|;
      var list := ImportList([], []);
      var rest;
      if s.id == 2 {
        list := MemoryInSound(s.body);
        assert list.Bytes() + [] == list.Bytes();
        MemoryInComplete(list, []);
        rest := MemoryFromSound(buf, next, true, MemoryIn(s.body).value);
        NoImportsNoMemories(rest);
      } else {
        rest := MemoryFromSound(buf, next, seen, memory);
      }
      items := [ImportItem(s, list, [])] + rest;
      assert items[1..] == rest;
      assert ImportSyntax(items)[1..] == ImportSyntax(rest);
      assert buf[pos..] == buf[pos..next] + buf[next..];
    }
  }

  lemma {:induction false} FunctionsFromComplete(buf: seq<Byte>, pos: nat, items: seq<ImportItem>, found: Found)
    requires AllValid(items)
    requires At(buf, pos, Sections(ImportSyntax(items))) && |buf| == pos + |Sections(ImportSyntax(items))|
    ensures FunctionsFrom(buf, pos, found) == Ok(found + AllFunctions(items))
    decreases |items|
  {
    hide At, SectionAt, FunctionsIn, Section.Bytes, Section.Valid, FunctionsOf, ImportList.Bytes;
    assert found + [] == found;
    if items != [] {
      var i := items[0];
      assert i.Valid();
      assert ImportSyntax(items)[1..] == ImportSyntax(items[1..]);
      AtBoth(buf, pos, i.section.Bytes(), Sections(ImportSyntax(items[1..])));
      SectionComplete(buf, pos, i.section);
      var now: Found := [];
      if i.section.id == 2 {
        FunctionsInComplete(i.list, i.trailing, found);
        now := FunctionsOf(i.list.entries);
      }
      FunctionsFromComplete(buf, pos + |i.section.Bytes()|, items[1..], found + now);
      assert AllFunctions(items) == now + AllFunctions(items[1..]);
      assert found + now + AllFunctions(items[1..]) == found + AllFunctions(items);
    }
  }

  lemma {:induction false} FunctionsFromSound(buf: seq<Byte>, pos: nat, found: Found) returns (items: seq<ImportItem>)
    requires pos <= |buf| && FunctionsFrom(buf, pos, found).Ok?
    ensures AllValid(items) && buf[pos..] == Sections(ImportSyntax(items))
    decreases |buf| - pos
  {
    hide SectionAt, FunctionsIn, Section.Bytes, Section.Valid, ImportList.Readable, ImportList.Bytes;
    if pos >= |buf| {
      items := [];
    } else {
      var s := SectionSound(buf, pos);
      var next := pos + |s.Bytes()|;
      var list, trailing := ImportList([], []), [];
      var now := found;
      if s.id == 2 {
        list, trailing := FunctionsInSound(s.body, found);
        now := FunctionsIn(s.body, found).value;
      }
      var rest := FunctionsFromSound(buf, next, now);
      items := [ImportItem(s, list, trailing)] + rest;
      assert items[1..] == rest;
      assert ImportSyntax(items)[1..] == ImportSyntax(rest);
      assert buf[pos..] == buf[pos..next] + buf[next..];
    }
  }

  /** A module whose import sections each begin with a list of imports. */
  ghost predicate IsImportModule(wasm: seq<Byte>, items: seq<ImportItem>) {
    AllValid(items) && wasm == Module(ImportSyntax(items))
  }

  /** One import section at most, one memory at most in it, and nothing after its list. */
  ghost predicate OneMemory(items: seq<ImportItem>)
    requires AllValid(items)
  {
    MemoryReadable(items, false)
  }

  /** Both readers on any such module: its functions in order, of all its import
      sections; and its memory exactly if there is one memory at most to find. */
  lemma ImportsReadBack(wasm: seq<Byte>, items: seq<ImportItem>)
    requires IsImportModule(wasm, items)
    ensures ImportedFunctionsOf(wasm) == Ok(AllFunctions(items))
    ensures ImportedMemoryOf(wasm).Ok? <==> OneMemory(items)
    ensures OneMemory(items) ==> ImportedMemoryOf(wasm) == Ok(AtMostOne(AllMemories(items)))
  {
    hide MemoryFrom, FunctionsFrom, AllMemories, AllFunctions, At, HeaderOf, NoTrailing, ImportSections;
    HeaderComplete(wasm, ImportSyntax(items));
    FunctionsFromComplete(wasm, 8, items, []);
    assert [] + AllFunctions(items) == AllFunctions(items);
    MemoryFromComplete(wasm, 8, items, false, None);
  }

  /** `imported_functions` accepts exactly the encodings of such modules. */
  lemma FunctionsReaderAcceptsExactly(wasm: seq<Byte>)
    ensures ImportedFunctionsOf(wasm).Ok? <==> exists items :: IsImportModule(wasm, items)
  {
    if ImportedFunctionsOf(wasm).Ok? {
      var items := FunctionsFromSound(wasm, 8, []);
      HeaderSound(wasm, ImportSyntax(items));
      assert IsImportModule(wasm, items);
    }
    forall items | IsImportModule(wasm, items) ensures ImportedFunctionsOf(wasm).Ok? {
      ImportsReadBack(wasm, items);
    }
  }

  /** `imported_memory` accepts exactly those with one memory at most to find. */
  lemma MemoryReaderAcceptsExactly(wasm: seq<Byte>)
    ensures ImportedMemoryOf(wasm).Ok? <==> exists items :: IsImportModule(wasm, items) && OneMemory(items)
  {
    hide AllMemories, NoTrailing, ImportSections;
    if ImportedMemoryOf(wasm).Ok? {
      var items := MemoryFromSound(wasm, 8, false, None);
      HeaderSound(wasm, ImportSyntax(items));
      assert IsImportModule(wasm, items) && OneMemory(items);
    }
    forall items | IsImportModule(wasm, items) && OneMemory(items) ensures ImportedMemoryOf(wasm).Ok? {
      ImportsReadBack(wasm, items);
    }
  }

  /** So on any bytes at all, what the memory reader accepts the other accepts too. */
  lemma FunctionsFollowMemory(wasm: seq<Byte>)
    requires ImportedMemoryOf(wasm).Ok?
    ensures ImportedFunctionsOf(wasm).Ok?
  {
    MemoryReaderAcceptsExactly(wasm);
    var items :| IsImportModule(wasm, items) && OneMemory(items);
    ImportsReadBack(wasm, items);
  }

  /** And where the functions are read, the memory is read exactly if, in the module they
      were read from, there is one import section at most, nothing after its list, and one
      memory at most. */
  lemma MemoryFollowsFunctionsExactly(wasm: seq<Byte>) returns (items: seq<ImportItem>)
    requires ImportedFunctionsOf(wasm).Ok?
    ensures IsImportModule(wasm, items) && ImportedFunctionsOf(wasm).value == AllFunctions(items)
    ensures ImportedMemoryOf(wasm).Ok? <==>
      ImportSections(items) <= 1 && NoTrailing(items) && |AllMemories(items)| <= 1
  {
    FunctionsReaderAcceptsExactly(wasm);
    items :| IsImportModule(wasm, items);
    ImportsReadBack(wasm, items);
  }

  /** Twelve bytes only the functions reader accepts: one byte after the last import. */
  lemma MemoryNeedNotFollowFunctions(wasm: seq<Byte>)
    requires wasm == MAGIC + VERSION + [2, 2, 0, 7]
    ensures ImportedFunctionsOf(wasm) == Ok([]) && ImportedMemoryOf(wasm) == Err(TrailingBytes)
  {
    assert wasm[..4] == MAGIC && wasm[4..8] == VERSION;
    assert wasm[10..12] == [0, 7];
    assert LebAt(wasm, 9, 0) == Got(2, 10);
    assert SectionAt(wasm, 8) == Got(RawSection(2, [0, 7]), 12);
    var body: seq<Byte> := [0, 7];
    assert LebAt(body, 0, 0) == Got(0, 1);
    assert MemoryIn(body) == Err(TrailingBytes) && FunctionsIn(body, []) == Ok([]);
    assert MemoryFrom(wasm, 8, false, None) == Err(TrailingBytes);
    assert FunctionsFrom(wasm, 12, []) == Ok([]);
  }
}
