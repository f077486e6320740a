/** The few string operations the descriptor formats are read with. */
module Text {
  import opened Wrappers

  ghost predicate Lacks(s: string, c: char) {
    forall i :: 0 <= i < |s| ==> s[i] != c
  }

  /** `str::split` on one character: always at least one piece. */
  function Split(s: string, sep: char): (pieces: seq<string>)
    ensures pieces != []
  {
    if s == "" then [""]
    else
      var rest := Split(s[1..], sep);
      if s[0] == sep then [""] + rest else [[s[0]] + rest[0]] + rest[1..]
  }

  /** `join` with a one-character separator. */
  function Join(parts: seq<string>, sep: char): string {
    if parts == [] then ""
    else if |parts| == 1 then parts[0]
    else parts[0] + [sep] + Join(parts[1..], sep)
  }

  lemma {:induction false} SplitWhole(s: string, sep: char)
    requires Lacks(s, sep)
    ensures Split(s, sep) == [s]
  {
    if s != "" {
      SplitWhole(s[1..], sep);
      assert [s[0]] + s[1..] == s;
    }
  }

  lemma {:induction false} SplitFirst(s: string, rest: string, sep: char)
    requires Lacks(s, sep)
    ensures Split(s + [sep] + rest, sep) == [s] + Split(rest, sep)
  {
    var whole := s + [sep] + rest;
    if s == "" {
      assert whole[1..] == rest;
    } else {
      SplitFirst(s[1..], rest, sep);
      assert whole[1..] == s[1..] + [sep] + rest;
      assert [s[0]] + s[1..] == s;
    }
  }

  /** Splitting undoes joining, when no part holds the separator. */
  lemma {:induction false} SplitJoin(parts: seq<string>, sep: char)
    requires parts != [] && forall i :: 0 <= i < |parts| ==> Lacks(parts[i], sep)
    ensures Split(Join(parts, sep), sep) == parts
  {
    if |parts| == 1 {
      SplitWhole(parts[0], sep);
    } else {
      SplitJoin(parts[1..], sep);
      SplitFirst(parts[0], Join(parts[1..], sep), sep);
    }
  }

  /** And joining undoes splitting. */
  lemma {:induction false} JoinSplit(s: string, sep: char)
    ensures Join(Split(s, sep), sep) == s
    ensures forall i :: 0 <= i < |Split(s, sep)| ==> Lacks(Split(s, sep)[i], sep)
  {
    if s != "" {
      JoinSplit(s[1..], sep);
      var rest := Split(s[1..], sep);
      if s[0] == sep {
        assert ([""] + rest)[1..] == rest;
      } else {
        var first := [s[0]] + rest[0];
        assert ([first] + rest[1..])[1..] == rest[1..];
        assert |rest| > 1 ==> Join(rest, sep) == rest[0] + [sep] + Join(rest[1..], sep);
      }
      assert [s[0]] + s[1..] == s;
    }
  }

  lemma {:induction false} JoinLacks(parts: seq<string>, sep: char, c: char)
    requires c != sep && forall i :: 0 <= i < |parts| ==> Lacks(parts[i], c)
    ensures Lacks(Join(parts, sep), c)
  {
    if |parts| > 1 {
      JoinLacks(parts[1..], sep, c);
    }
  }

  lemma {:induction false} JoinNonEmpty(parts: seq<string>, sep: char)
    requires parts != [] && forall i :: 0 <= i < |parts| ==> parts[i] != ""
    ensures Join(parts, sep) != ""
  {
  }

  /** Where the first `c` is; the length if there is none. */
  function Find(s: string, c: char): (i: nat)
    ensures i <= |s| && (i < |s| ==> s[i] == c) && forall j :: 0 <= j < i ==> s[j] != c
  {
    if s == "" || s[0] == c then 0 else 1 + Find(s[1..], c)
  }

  function StripCr(line: string): string {
    if line != "" && line[|line| - 1] == '\r' then line[..|line| - 1] else line
  }

  lemma StripsOneCr(line: string)
    ensures line == StripCr(line) + if line != "" && line[|line| - 1] == '\r' then "\r" else ""
  {
  }

  /** `str::lines`: pieces ended by a newline, less one carriage return before it; a
      last piece without a newline is kept whole. */
  function Lines(s: string): seq<string>
    decreases |s|
  {
    if s == "" then []
    else
      var i := Find(s, '\n');
      if i == |s| then [s] else [StripCr(s[..i])] + Lines(s[i + 1..])
  }

  lemma LinesFirst(line: string, rest: string)
    requires Lacks(line, '\n')
    ensures Lines(line + "\n" + rest) == [StripCr(line)] + Lines(rest)
  {
    var s := line + "\n" + rest;
    assert s[|line|] == '\n';
    var i := Find(s, '\n');
    assert forall j :: 0 <= j < |line| ==> s[j] == line[j];
    assert s[..i] == line && s[i + 1..] == rest;
  }

  /** Each line with its newline. */
  function Terminated(lines: seq<string>): string {
    if lines == [] then "" else lines[0] + "\n" + Terminated(lines[1..])
  }

  function StripCrs(lines: seq<string>): seq<string> {
    if lines == [] then [] else [StripCr(lines[0])] + StripCrs(lines[1..])
  }

  /** Reading lines back: all that can be lost is a carriage return at a line's end. */
  lemma {:induction false} LinesOfTerminated(lines: seq<string>)
    requires forall i :: 0 <= i < |lines| ==> Lacks(lines[i], '\n')
    ensures Lines(Terminated(lines)) == StripCrs(lines)
  {
    if lines != [] {
      LinesOfTerminated(lines[1..]);
      LinesFirst(lines[0], Terminated(lines[1..]));
    }
  }

  lemma {:induction false} StripCrsAt(lines: seq<string>, i: nat)
    requires i < |lines|
    ensures |StripCrs(lines)| == |lines| && StripCrs(lines)[i] == StripCr(lines[i])
  {
    if i > 0 {
      StripCrsAt(lines[1..], i - 1);
    } else if |lines| > 1 {
      StripCrsAt(lines[1..], 0);
    }
  }

  lemma NoCrToStrip(lines: seq<string>)
    requires forall i :: 0 <= i < |lines| ==> StripCr(lines[i]) == lines[i]
    ensures StripCrs(lines) == lines
  {
    if lines != [] {
      StripCrsAt(lines, 0);
    }
    forall i | 0 <= i < |lines| ensures StripCrs(lines)[i] == lines[i] {
      StripCrsAt(lines, i);
    }
  }

  function StripPrefix(s: string, prefix: string): Option<string> {
    if prefix <= s then Some(s[|prefix|..]) else None
  }

  lemma StripPrefixOf(prefix: string, rest: string)
    ensures StripPrefix(prefix + rest, prefix) == Some(rest)
  {
  }

  /** `split_once` on one character. */
  function SplitOnce(s: string, c: char): Option<(string, string)> {
    var i := Find(s, c);
    if i == |s| then None else Some((s[..i], s[i + 1..]))
  }

  lemma SplitOnceOf(a: string, b: string, c: char)
    requires Lacks(a, c)
    ensures SplitOnce(a + [c] + b, c) == Some((a, b))
  {
    var s := a + [c] + b;
    assert s[|a|] == c;
    var i := Find(s, c);
    assert forall j :: 0 <= j < |a| ==> s[j] == a[j];
    assert s[..i] == a && s[i + 1..] == b;
  }

  /** `char::is_control`: the Unicode category Cc. */
  predicate IsControl(c: char) {
    c < ' ' || '\U{7f}' <= c <= '\U{9f}'
  }
}
