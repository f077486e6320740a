/** The harness sections: `#[wasm_lite_test]` and `#[wasm_lite_bench]` write one record a
    case (`lib.rs` of the macros), `decls` reads them (`lib.rs` of the code generator). */
module HarnessRecords {
  import opened Wrappers
  import opened Text

  datatype ShouldPanic = Any | Expected(message: string)

  datatype Decl = Decl(path: string, ignored: bool, shouldPanic: Option<ShouldPanic>)

  datatype Error = UnrecordableMessage | NoName | UnknownField

  type Result<T> = Wrappers.Result<T, Error>

  // The writer.

  /** The attributes of a case, as far as the macro looks at them. */
  datatype Attr = Ignore | ShouldPanicAttr(expected: Option<string>) | OtherAttr

  datatype Verdict = Verdict(ignored: bool, shouldPanic: Option<ShouldPanic>)

  /** `expected_message`: a message that would be read back as another record is refused. */
  predicate Recordable(message: string) {
    !('\t' in message) && !('\n' in message)
  }

  function Accept(expected: Option<string>): Result<ShouldPanic> {
    if expected == None then Ok(Any) else if Recordable(expected.value) then Ok(Expected(expected.value)) else Err(UnrecordableMessage)
  }

  /** The last `should_panic` counts; any that is refused refuses the case. */
  function VerdictOf(attrs: seq<Attr>): Result<Verdict> {
    if attrs == [] then Ok(Verdict(false, None))
    else
      var before, last := VerdictOf(attrs[..|attrs| - 1]), attrs[|attrs| - 1];
      if before.Err? then before
      else match last
        case Ignore => Ok(before.value.(ignored := true))
        case ShouldPanicAttr(expected) =>
          if Accept(expected).Err? then Err(Accept(expected).error) else Ok(before.value.(shouldPanic := Some(Accept(expected).value)))
        case OtherAttr => before
  }

  /** Where the last `should_panic` is; the length if there is none. */
  function LastPanic(attrs: seq<Attr>): (i: nat)
    ensures i <= |attrs|
    ensures i < |attrs| ==> attrs[i].ShouldPanicAttr?
    ensures forall j :: (if i < |attrs| then i < j else 0 <= j) && j < |attrs| ==> !attrs[j].ShouldPanicAttr?
  {
    if attrs == [] then 0
    else if attrs[|attrs| - 1].ShouldPanicAttr? then |attrs| - 1
    else
      var i := LastPanic(attrs[..|attrs| - 1]);
      if i == |attrs| - 1 then |attrs| else i
  }

  /** No attribute expects a message with a tab or a newline in it. */
  ghost predicate NoneUnrecordable(attrs: seq<Attr>) {
    forall i :: 0 <= i < |attrs| && attrs[i].ShouldPanicAttr? && attrs[i].expected.Some? ==>
      Lacks(attrs[i].expected.value, '\t') && Lacks(attrs[i].expected.value, '\n')
  }

  lemma AcceptIs(expected: Option<string>)
    ensures Accept(expected) ==
      if expected == None then Ok(Any)
      else if Lacks(expected.value, '\t') && Lacks(expected.value, '\n') then Ok(Expected(expected.value))
      else Err(UnrecordableMessage)
  {
  }

  /** The verdict without the loop: refused exactly for a message with a tab or a newline
      in it, ignored exactly if told so, and the last expectation. */
  lemma {:induction false} VerdictIs(attrs: seq<Attr>)
    ensures VerdictOf(attrs).Ok? <==> NoneUnrecordable(attrs)
    ensures VerdictOf(attrs).Ok? ==>
      && (VerdictOf(attrs).value.ignored <==> Ignore in attrs)
      && var i := LastPanic(attrs);
         VerdictOf(attrs).value.shouldPanic ==
           if i == |attrs| then None
           else if attrs[i].expected == None then Some(Any)
           else Some(Expected(attrs[i].expected.value))
  {
    hide Accept;
    if attrs != [] {
      var last := attrs[|attrs| - 1];
      if last.ShouldPanicAttr? {
        AcceptIs(last.expected);
      }
      var init := attrs[..|attrs| - 1];
      VerdictIs(init);
      assert attrs == init + [attrs[|attrs| - 1]];
      assert forall i :: 0 <= i < |init| ==> attrs[i] == init[i];
    }
  }

  method ReadVerdict(attrs: seq<Attr>) returns (r: Result<Verdict>)
    ensures r == VerdictOf(attrs)
  {
    var verdict := Verdict(false, None);
    for i := 0 to |attrs|
      invariant VerdictOf(attrs[..i]) == Ok(verdict)
    {
      assert attrs[..i + 1][..i] == attrs[..i];
      match attrs[i] {
        case Ignore => verdict := verdict.(ignored := true);
        case ShouldPanicAttr(expected) =>
          var panic := Accept(expected);
          if panic.Err? {
            RefusedForGood(attrs, i + 1);
            return Err(panic.error);
          }
          verdict := verdict.(shouldPanic := Some(panic.value));
        case OtherAttr =>
      }
    }
    assert attrs[..|attrs|] == attrs;
    return Ok(verdict);
  }

  lemma {:induction false} RefusedForGood(attrs: seq<Attr>, i: nat)
    requires i <= |attrs| && VerdictOf(attrs[..i]).Err?
    ensures VerdictOf(attrs) == VerdictOf(attrs[..i])
  {
    if i < |attrs| {
      assert attrs[..|attrs| - 1][..i] == attrs[..i];
      RefusedForGood(attrs[..|attrs| - 1], i);
    } else {
      assert attrs[..i] == attrs;
    }
  }

  /** The fields after the path, each with its tab. */
  function Fields(v: Verdict): string {
    (if v.ignored then "\tignore" else "") +
    match v.shouldPanic
    case None => ""
    case Some(Any) => "\tshould_panic"
    case Some(Expected(message)) => "\tshould_panic=" + message
  }

  /** A record without its newline. */
  function RecordLine(d: Decl): string {
    d.path + Fields(Verdict(d.ignored, d.shouldPanic))
  }

  function RecordLines(ds: seq<Decl>): seq<string> {
    if ds == [] then [] else [RecordLine(ds[0])] + RecordLines(ds[1..])
  }

  /** What ends up in the section: each record with its newline. */
  function Section(ds: seq<Decl>): string {
    Terminated(RecordLines(ds))
  }

  // The reader.

  /** One field, into the record read so far. */
  function WithField(d: Decl, field: string): Result<Decl> {
    if field == "ignore" then Ok(d.(ignored := true))
    else if field == "should_panic" then Ok(d.(shouldPanic := Some(Any)))
    else
      var expected := StripPrefix(field, "should_panic=");
      if expected.Some? then Ok(d.(shouldPanic := Some(Expected(expected.value)))) else Err(UnknownField)
  }

  function WithFields(d: Decl, fields: seq<string>): Result<Decl>
    decreases |fields|
  {
    if fields == [] then Ok(d)
    else
      var first := WithField(d, fields[0]);
      if first.Err? then first else WithFields(first.value, fields[1..])
  }

  function DeclOf(line: string): Result<Decl> {
    var fields := Split(line, '\t');
    if fields[0] == "" then Err(NoName) else WithFields(Decl(fields[0], false, None), fields[1..])
  }

  /** The rest of a section's lines, given what was read before. */
  function DeclsFrom(lines: seq<string>, out: seq<Decl>): Result<seq<Decl>> {
    if lines == [] then Ok(out)
    else if lines[0] == "" then DeclsFrom(lines[1..], out)
    else
      var d := DeclOf(lines[0]);
      if d.Err? then Err(d.error) else DeclsFrom(lines[1..], out + [d.value])
  }

  /** The rest of the sections: a linker may leave several. */
  function DeclsOf(texts: seq<string>, out: seq<Decl>): Result<seq<Decl>> {
    if texts == [] then Ok(out)
    else
      var here := DeclsFrom(Lines(texts[0]), out);
      if here.Err? then here else DeclsOf(texts[1..], here.value)
  }

  method Decls(texts: seq<string>) returns (r: Result<seq<Decl>>)
    ensures r == DeclsOf(texts, [])
  {
    hide Split, Lines;
    var out: seq<Decl> := [];
    for t := 0 to |texts|
      invariant DeclsOf(texts[t..], out) == DeclsOf(texts, [])
    {
      var lines := Lines(texts[t]);
      assert texts[t..][0] == texts[t] && texts[t..][1..] == texts[t + 1..];
      ghost var before := out;
      for i := 0 to |lines|
        invariant DeclsFrom(lines[i..], out) == DeclsFrom(lines, before)
      {
        var line := lines[i];
        assert lines[i..][0] == line && lines[i..][1..] == lines[i + 1..];
        if line != "" {
          var fields := Split(line, '\t');
          if fields[0] == "" {
            return Err(NoName);
          }
          var decl := Decl(fields[0], false, None);
          ghost var blank := decl;
          for f := 1 to |fields|
            invariant WithFields(decl, fields[f..]) == WithFields(blank, fields[1..])
          {
            var field := fields[f];
            assert fields[f..][0] == field && fields[f..][1..] == fields[f + 1..];
            var expected := StripPrefix(field, "should_panic=");
            if field == "ignore" {
              decl := decl.(ignored := true);
            } else if field == "should_panic" {
              decl := decl.(shouldPanic := Some(Any));
            } else if expected.Some? {
              decl := decl.(shouldPanic := Some(Expected(expected.value)));
            } else {
              return Err(UnknownField);
            }
          }
          out := out + [decl];
        }
      }
    }
    return Ok(out);
  }

  /** What a field says of a panic. */
  ghost predicate Says(field: string, p: ShouldPanic) {
    match p
    case Any => field == "should_panic"
    case Expected(message) => field == "should_panic=" + message
  }

  ghost predicate IsField(field: string) {
    field == "ignore" || exists p :: Says(field, p)
  }

  /** The expectation after the fields, the last one counting. */
  ghost predicate SaysLast(fields: seq<string>, before: Option<ShouldPanic>, after: Option<ShouldPanic>) {
    if forall i :: 0 <= i < |fields| ==> fields[i] == "ignore" then after == before
    else
      after.Some? && exists i :: 0 <= i < |fields| && Says(fields[i], after.value) && forall j :: i < j < |fields| ==> fields[j] == "ignore"
  }

  lemma OneField(d: Decl, field: string)
    ensures WithField(d, field).Ok? <==> IsField(field)
    ensures field == "ignore" ==> WithField(d, field) == Ok(d.(ignored := true))
    ensures forall p :: Says(field, p) ==> WithField(d, field) == Ok(d.(shouldPanic := Some(p))) && field != "ignore"
  {
    assert "ignore"[0] == 'i' && "should_panic"[0] == 's' && "should_panic="[0] == 's';
    if field == "should_panic" {
      assert Says(field, Any);
    } else if StripPrefix(field, "should_panic=").Some? {
      assert field == "should_panic=" + field[13..];
      assert Says(field, Expected(field[13..]));
    }
    forall p | Says(field, p) && p.Expected? ensures StripPrefix(field, "should_panic=") == Some(p.message) && |field| >= 13 {
      StripPrefixOf("should_panic=", p.message);
    }
  }

  lemma {:induction false} FieldsRead(d: Decl, fields: seq<string>)
    ensures WithFields(d, fields).Ok? <==> forall i :: 0 <= i < |fields| ==> IsField(fields[i])
    ensures WithFields(d, fields).Ok? ==>
      var r := WithFields(d, fields).value;
      && r.path == d.path && (r.ignored <==> d.ignored || "ignore" in fields) && SaysLast(fields, d.shouldPanic, r.shouldPanic)
    decreases |fields|
  {
    hide WithField, IsField, Says;
    if fields != [] {
      var first, rest := fields[0], fields[1..];
      OneField(d, first);
      assert fields == [first] + rest;
      if WithField(d, first).Ok? {
        var d' := WithField(d, first).value;
        FieldsRead(d', rest);
        if WithFields(d', rest).Ok? {
          FirstThenRest(d, d', first, rest, WithFields(d', rest).value.shouldPanic);
          if first != "ignore" {
            OneFieldChanges(d, first);
          }
        }
      }
    }
  }

  lemma OneFieldChanges(d: Decl, field: string)
    requires WithField(d, field).Ok? && field != "ignore"
    ensures var d' := WithField(d, field).value;
      d'.path == d.path && d'.ignored == d.ignored && d'.shouldPanic.Some? && Says(field, d'.shouldPanic.value)
  {
    if field != "should_panic" {
      assert field == "should_panic=" + field[13..];
    }
  }

  lemma FirstThenRest(d: Decl, d': Decl, first: string, rest: seq<string>, after: Option<ShouldPanic>)
    requires WithField(d, first) == Ok(d') && SaysLast(rest, d'.shouldPanic, after)
    ensures SaysLast([first] + rest, d.shouldPanic, after)
  {
    var fields := [first] + rest;
    if first == "ignore" {
      OneField(d, first);
    } else {
      OneFieldChanges(d, first);
    }
    hide WithField, Says;
    if forall i :: 0 <= i < |rest| ==> rest[i] == "ignore" {
      assert first == "ignore" ==> forall i :: 0 <= i < |fields| ==> fields[i] == "ignore";
      assert first != "ignore" ==> Says(fields[0], after.value) && forall j :: 0 < j < |fields| ==> fields[j] == "ignore";
    } else {
      var k :| 0 <= k < |rest| && rest[k] != "ignore";
      assert fields[k + 1] != "ignore";
      var i :| 0 <= i < |rest| && Says(rest[i], after.value) && forall j :: i < j < |rest| ==> rest[j] == "ignore";
      assert Says(fields[i + 1], after.value) && forall j :: i + 1 < j < |fields| ==> fields[j] == "ignore";
    }
  }

  /** The ways to write a record: fields in any order and number, the last expectation
      counting. */
  ghost predicate Writes(line: string, d: Decl, fields: seq<string>) {
    && line == Join([d.path] + fields, '\t')
    && d.path != "" && Lacks(d.path, '\t')
    && (forall i :: 0 <= i < |fields| ==> IsField(fields[i]) && Lacks(fields[i], '\t'))
    && (d.ignored <==> "ignore" in fields)
    && SaysLast(fields, None, d.shouldPanic)
  }

  /** The reader takes a line for a record exactly if it is one of them, whole: a field that
      says nothing, or no name, refuses it. */
  lemma ReadsExactly(line: string, d: Decl)
    ensures DeclOf(line) == Ok(d) <==> exists fields :: Writes(line, d, fields)
  {
    hide WithFields, IsField, Says, SaysLast, Split, Join;
    if DeclOf(line) == Ok(d) {
      var all := Split(line, '\t');
      JoinSplit(line, '\t');
      FieldsRead(Decl(all[0], false, None), all[1..]);
      assert all == [d.path] + all[1..];
      assert Writes(line, d, all[1..]);
    }
    forall fields | Writes(line, d, fields) ensures DeclOf(line) == Ok(d) {
      var all := [d.path] + fields;
      assert all[1..] == fields;
      SplitJoin(all, '\t');
      FieldsRead(Decl(d.path, false, None), fields);
      SaysOnce(fields, d.shouldPanic, WithFields(Decl(d.path, false, None), fields).value.shouldPanic);
    }
  }

  lemma SaysOnce(fields: seq<string>, a: Option<ShouldPanic>, b: Option<ShouldPanic>)
    requires SaysLast(fields, None, a) && SaysLast(fields, None, b)
    ensures a == b
  {
    if !(forall i :: 0 <= i < |fields| ==> fields[i] == "ignore") {
      var i :| 0 <= i < |fields| && Says(fields[i], a.value) && forall j :: i < j < |fields| ==> fields[j] == "ignore";
      var k :| 0 <= k < |fields| && Says(fields[k], b.value) && forall j :: k < j < |fields| ==> fields[j] == "ignore";
      assert "ignore"[0] == 'i' && "should_panic"[0] == 's' && "should_panic="[0] == 's';
      assert fields[i] != "ignore" && fields[k] != "ignore";
      SaysOne(fields[i], a.value, b.value);
    }
  }

  lemma SaysOne(field: string, p: ShouldPanic, q: ShouldPanic)
    requires Says(field, p) && Says(field, q)
    ensures p == q
  {
    if p.Expected? && q.Expected? {
      assert p.message == field[13..] == q.message;
    }
  }

  // The two together.

  /** A path as `module_path!()` and an identifier spell it. */
  ghost predicate IsPath(path: string) {
    path != "" && Lacks(path, '\t') && Lacks(path, '\n') && Lacks(path, '\r')
  }

  ghost predicate Written(d: Decl) {
    && IsPath(d.path)
    && (d.shouldPanic.Some? && d.shouldPanic.value.Expected? ==> Recordable(d.shouldPanic.value.message))
  }

  /** What the attributes of any accepted case make the macro write is `Written`. */
  lemma {:induction false} AcceptedIsWritten(path: string, attrs: seq<Attr>)
    requires IsPath(path) && VerdictOf(attrs).Ok?
    ensures var v := VerdictOf(attrs).value; Written(Decl(path, v.ignored, v.shouldPanic))
  {
    if attrs != [] {
      AcceptedIsWritten(path, attrs[..|attrs| - 1]);
    }
  }

  /** What reading makes of a record: `lines` takes a carriage return off a message's end. */
  function AsRead(d: Decl): Decl {
    if d.shouldPanic.Some? && d.shouldPanic.value.Expected?
    then d.(shouldPanic := Some(Expected(StripCr(d.shouldPanic.value.message)))) else d
  }

  function AllAsRead(ds: seq<Decl>): (r: seq<Decl>)
    ensures |r| == |ds| && forall i :: 0 <= i < |ds| ==> r[i] == AsRead(ds[i])
  {
    seq(|ds|, i requires 0 <= i < |ds| => AsRead(ds[i]))
  }

  ghost predicate EndsInCr(d: Decl) {
    && d.shouldPanic.Some? && d.shouldPanic.value.Expected?
    && var m := d.shouldPanic.value.message; m != "" && m[|m| - 1] == '\r'
  }

  function FieldTexts(d: Decl): seq<string> {
    (if d.ignored then ["ignore"] else []) +
    match d.shouldPanic
    case None => []
    case Some(Any) => ["should_panic"]
    case Some(Expected(message)) => ["should_panic=" + message]
  }

  function Tabbed(fields: seq<string>): string {
    if fields == [] then "" else "\t" + fields[0] + Tabbed(fields[1..])
  }

  lemma {:induction false} JoinIsTabbed(first: string, rest: seq<string>)
    ensures Join([first] + rest, '\t') == first + Tabbed(rest)
    decreases |rest|
  {
    var all := [first] + rest;
    assert all[1..] == rest;
    if rest == [] {
      assert first + "" == first;
    } else {
      JoinIsTabbed(rest[0], rest[1..]);
      assert [rest[0]] + rest[1..] == rest;
    }
  }

  lemma OneFieldTabbed(d: Decl)
    requires !d.ignored
    ensures Fields(Verdict(false, d.shouldPanic)) == Tabbed(FieldTexts(d))
  {
    var texts := FieldTexts(d);
    if texts != [] {
      assert texts[1..] == [];
      assert "\t" + texts[0] + "" == "\t" + texts[0];
    }
  }

  lemma FieldsAreTabbed(d: Decl)
    ensures Fields(Verdict(d.ignored, d.shouldPanic)) == Tabbed(FieldTexts(d))
  {
    var panic := FieldTexts(d.(ignored := false));
    OneFieldTabbed(d.(ignored := false));
    if d.ignored {
      assert FieldTexts(d)[1..] == panic;
      hide FieldTexts;
    }
  }

  lemma PanicReadsBack(d: Decl, panic: Option<ShouldPanic>)
    requires d.shouldPanic == None
    ensures WithFields(d, FieldTexts(d.(ignored := false, shouldPanic := panic))) == Ok(d.(shouldPanic := panic))
  {
    assert "should_panic"[0] == 's';
    if panic.Some? && panic.value.Expected? {
      var field := "should_panic=" + panic.value.message;
      StripPrefixOf("should_panic=", panic.value.message);
      assert field[0] == 's' && |field| >= 13;
      assert FieldTexts(d.(ignored := false, shouldPanic := panic)) == [field];
    }
  }

  lemma FieldsReadBack(d: Decl)
    ensures WithFields(Decl(d.path, false, None), FieldTexts(d)) == Ok(d)
  {
    PanicReadsBack(Decl(d.path, d.ignored, None), d.shouldPanic);
    if d.ignored {
      assert FieldTexts(d)[1..] == FieldTexts(d.(ignored := false));
    }
  }

  lemma FieldsHold(d: Decl)
    requires Written(d)
    ensures forall i :: 0 <= i < |FieldTexts(d)| ==> Lacks(FieldTexts(d)[i], '\t')
  {
  }

  lemma LineReadsBack(d: Decl)
    requires Written(d)
    ensures DeclOf(RecordLine(d)) == Ok(d)
  {
    var fields := [d.path] + FieldTexts(d);
    assert fields[1..] == FieldTexts(d);
    FieldsHold(d);
    FieldsReadBack(d);
    hide WithFields, FieldTexts, Split, Fields;
    FieldsAreTabbed(d);
    JoinIsTabbed(d.path, FieldTexts(d));
    SplitJoin(fields, '\t');
  }

  lemma StripCrOfTail(front: string, tail: string)
    requires front != "" && front[|front| - 1] != '\r'
    ensures StripCr(front + tail) == front + StripCr(tail)
  {
  }

  lemma StrippedLine(d: Decl)
    requires Written(d)
    ensures Written(AsRead(d)) && StripCr(RecordLine(d)) == RecordLine(AsRead(d)) != ""
    ensures Lacks(RecordLine(d), '\n')
  {
    var line := RecordLine(d);
    if d.shouldPanic.Some? && d.shouldPanic.value.Expected? {
      var message := d.shouldPanic.value.message;
      var front := d.path + (if d.ignored then "\tignore" else "") + "\tshould_panic=";
      assert front[|front| - 1] == '=';
      assert forall m :: RecordLine(d.(shouldPanic := Some(Expected(m)))) == front + m;
      StripCrOfTail(front, message);
    } else {
      assert line[|line| - 1] != '\r';
    }
  }

  lemma {:induction false} LinesReadBack(ds: seq<Decl>, out: seq<Decl>)
    requires forall i :: 0 <= i < |ds| ==> Written(ds[i])
    ensures DeclsFrom(StripCrs(RecordLines(ds)), out) == Ok(out + AllAsRead(ds))
    ensures forall i :: 0 <= i < |RecordLines(ds)| ==> Lacks(RecordLines(ds)[i], '\n')
    decreases |ds|
  {
    hide DeclOf, RecordLine, AsRead, Written, StripCr;
    if ds == [] {
      assert out + AllAsRead(ds) == out;
    } else {
      StrippedLine(ds[0]);
      LineReadsBack(AsRead(ds[0]));
      LinesReadBack(ds[1..], out + [AsRead(ds[0])]);
      assert out + [AsRead(ds[0])] + AllAsRead(ds[1..]) == out + AllAsRead(ds);
    }
  }

  function Sections(groups: seq<seq<Decl>>): seq<string> {
    if groups == [] then [] else [Section(groups[0])] + Sections(groups[1..])
  }

  function Flat(groups: seq<seq<Decl>>): seq<Decl> {
    if groups == [] then [] else groups[0] + Flat(groups[1..])
  }

  /** One section, then the rest. */
  lemma OneSection(groups: seq<seq<Decl>>, out: seq<Decl>)
    requires groups != []
    ensures Flat(groups) == groups[0] + Flat(groups[1..])
    ensures DeclsOf(Sections(groups), out) ==
      var here := DeclsFrom(Lines(Section(groups[0])), out);
      if here.Err? then here else DeclsOf(Sections(groups[1..]), here.value)
  {
    hide DeclsFrom, Lines, Section;
    assert Sections(groups)[1..] == Sections(groups[1..]);
  }

  lemma NoSection(out: seq<Decl>)
    ensures DeclsOf(Sections([]), out) == Ok(out + AllAsRead(Flat([])))
  {
    assert AllAsRead(Flat([])) == [];
    assert out + [] == out;
  }

  lemma {:induction false} SectionsReadBack(groups: seq<seq<Decl>>, out: seq<Decl>)
    requires forall g :: g in groups ==> AllWritten(g)
    ensures DeclsOf(Sections(groups), out) == Ok(out + AllAsRead(Flat(groups)))
    decreases |groups|
  {
    hide DeclsFrom, AllWritten, Section, AllAsRead, Lines, DeclsOf, Sections, Flat;
    if groups == [] {
      NoSection(out);
    } else {
      var first, rest := groups[0], groups[1..];
      OneSection(groups, out);
      SectionReadsBack(first, out);
      SectionsReadBack(rest, out + AllAsRead(first));
      AllAsReadOfBoth(first, Flat(rest));
      assert out + AllAsRead(first) + AllAsRead(Flat(rest)) == out + (AllAsRead(first) + AllAsRead(Flat(rest)));
    }
  }

  ghost predicate AllWritten(ds: seq<Decl>) {
    forall i :: 0 <= i < |ds| ==> Written(ds[i])
  }

  lemma {:induction false} FlatHasAll(groups: seq<seq<Decl>>, g: seq<Decl>)
    requires g in groups
    ensures forall d :: d in g ==> d in Flat(groups)
  {
    if g != groups[0] {
      FlatHasAll(groups[1..], g);
    }
  }

  lemma AllAsReadOfBoth(a: seq<Decl>, b: seq<Decl>)
    ensures AllAsRead(a + b) == AllAsRead(a) + AllAsRead(b)
  {
  }

  lemma SectionReadsBack(ds: seq<Decl>, out: seq<Decl>)
    requires AllWritten(ds)
    ensures DeclsFrom(Lines(Section(ds)), out) == Ok(out + AllAsRead(ds))
  {
    LinesReadBack(ds, out);
    LinesOfTerminated(RecordLines(ds));
  }

  /** However the records are spread over sections, they are read back in order, whole
      but for a carriage return at the end of a message. */
  lemma RecordsReadBack(groups: seq<seq<Decl>>)
    requires forall d :: d in Flat(groups) ==> Written(d)
    ensures DeclsOf(Sections(groups), []) == Ok(AllAsRead(Flat(groups)))
  {
    forall g | g in groups ensures AllWritten(g) {
      FlatHasAll(groups, g);
    }
    SectionsReadBack(groups, []);
    assert [] + AllAsRead(Flat(groups)) == AllAsRead(Flat(groups));
  }

  /** So the round trip holds exactly when no expected message ends in one. */
  lemma RoundTripExactlyWithoutCr(groups: seq<seq<Decl>>)
    requires forall d :: d in Flat(groups) ==> Written(d)
    ensures DeclsOf(Sections(groups), []) == Ok(Flat(groups)) <==> forall d :: d in Flat(groups) ==> !EndsInCr(d)
  {
    RecordsReadBack(groups);
    var ds := Flat(groups);
    if forall d :: d in ds ==> !EndsInCr(d) {
      assert forall i :: 0 <= i < |ds| ==> !EndsInCr(ds[i]);
      assert AllAsRead(ds) == ds;
    } else {
      var d :| d in ds && EndsInCr(d);
      var i :| 0 <= i < |ds| && ds[i] == d;
      assert AllAsRead(ds)[i] != d;
    }
  }

  /** A message that is accepted and comes back shorter. */
  lemma ACarriageReturnIsLost() returns (d: Decl)
    ensures VerdictOf([ShouldPanicAttr(Some("no\r"))]) == Ok(Verdict(d.ignored, d.shouldPanic)) && Written(d)
    ensures DeclsOf([Section([d])], []) == Ok([d.(shouldPanic := Some(Expected("no")))])
  {
    d := Decl("m::t", false, Some(Expected("no\r")));
    var attrs := [ShouldPanicAttr(Some("no\r"))];
    assert attrs[..0] == [];
    assert VerdictOf(attrs) == Ok(Verdict(false, Some(Expected("no\r"))));
    SectionReadsBack([d], []);
    assert StripCr("no\r") == "no";
    assert [] + AllAsRead([d]) == [AsRead(d)];
    hide Section, Lines, DeclsFrom;
    assert [Section([d])][1..] == [];
  }
}
