/** UTF-8 from the other end: the bytes of a code point, by arithmetic (table 3-6 of the
    Unicode Standard), and that the names the reader accepts are exactly such encodings. */
module Utf8Encoding {
  import opened WasmGrammar

  /** A Unicode scalar value: any code point but a surrogate. */
  type Scalar = c: int | 0 <= c < 0xD800 || 0xE000 <= c < 0x110000

  function Encode(c: Scalar): (b: seq<Byte>)
    ensures 1 <= |b| <= 4
  {
    if c < 0x80 then [c]
    else if c < 0x800 then [0xC0 + c / 64, 0x80 + c % 64]
    else if c < 0x10000 then [0xE0 + c / 4096, 0x80 + c / 64 % 64, 0x80 + c % 64]
    else [0xF0 + c / 262144, 0x80 + c / 4096 % 64, 0x80 + c / 64 % 64, 0x80 + c % 64]
  }

  function EncodeAll(cs: seq<Scalar>): seq<Byte> {
    if cs == [] then [] else Encode(cs[0]) + EncodeAll(cs[1..])
  }

  lemma OneEncoded(c: Scalar, rest: seq<Byte>)
    ensures Utf8(Encode(c) + rest) <==> Utf8(rest)
  {
    var e := Encode(c);
    LeadAndTails(c);
    hide Encode;
    Beyond(e, rest);
  }

  /** What `Utf8` asks of the bytes of one code point. */
  predicate OneForm(e: seq<Byte>) {
    match |e|
    case 1 => e[0] < 0x80
    case 2 => 0xC2 <= e[0] <= 0xDF && Tail(e[1])
    case 3 =>
      && 0xE0 <= e[0] <= 0xEF && Tail(e[1]) && Tail(e[2])
      && (e[0] == 0xE0 ==> e[1] >= 0xA0) && (e[0] == 0xED ==> e[1] < 0xA0)
    case 4 =>
      && 0xF0 <= e[0] <= 0xF4 && Tail(e[1]) && Tail(e[2]) && Tail(e[3])
      && (e[0] == 0xF0 ==> e[1] >= 0x90) && (e[0] == 0xF4 ==> e[1] < 0x90)
    case _ => false
  }

  lemma LeadAndTails(c: Scalar)
    ensures OneForm(Encode(c))
  {
  }

  lemma Beyond(e: seq<Byte>, rest: seq<Byte>)
    requires OneForm(e)
    ensures Utf8(e + rest) <==> Utf8(rest)
  {
    var b := e + rest;
    assert b[|e|..] == rest;
    assert forall i :: 0 <= i < |e| ==> b[i] == e[i];
  }

  /** The first form is split off. */
  lemma SplitsOff(b: seq<Byte>) returns (n: nat)
    requires b != [] && Utf8(b)
    ensures 1 <= n <= |b| && OneForm(b[..n]) && Utf8(b[n..])
  {
    n := if b[0] < 0x80 then 1 else if b[0] <= 0xDF then 2 else if b[0] <= 0xEF then 3 else 4;
  }

  function Digits2(x: int, y: int): int { x * 64 + y }

  function Digits3(x: int, y: int, z: int): int { x * 4096 + y * 64 + z }

  function Digits4(w: int, x: int, y: int, z: int): int { w * 262144 + x * 4096 + y * 64 + z }

  lemma Base64Digits(w: int, x: int, y: int, z: int)
    requires 0 <= w && 0 <= x < 64 && 0 <= y < 64 && 0 <= z < 64
    ensures Digits4(w, x, y, z) % 64 == z && Digits4(w, x, y, z) / 64 == Digits3(w, x, y)
    ensures Digits3(w, x, y) % 64 == y && Digits3(w, x, y) / 64 == Digits2(w, x)
    ensures Digits2(w, x) % 64 == x && Digits2(w, x) / 64 == w
  {
    assert Digits4(w, x, y, z) == 64 * Digits3(w, x, y) + z;
    assert Digits3(w, x, y) == 64 * Digits2(w, x) + y;
    assert Digits2(w, x) == 64 * w + x;
    hide Digits2, Digits3, Digits4;
    LastDigit(Digits3(w, x, y), z);
    LastDigit(Digits2(w, x), y);
    LastDigit(w, x);
  }

  lemma LastDigit(q: int, r: int)
    requires 0 <= r < 64
    ensures (64 * q + r) % 64 == r && (64 * q + r) / 64 == q
  {
  }

  lemma Shifts(c: nat)
    ensures c / 64 / 64 == c / 4096 && c / 4096 / 64 == c / 262144
  {
  }

  /** Every form is that of one code point. */
  lemma FormIsEncoded(e: seq<Byte>) returns (c: Scalar)
    requires OneForm(e)
    ensures Encode(c) == e
  {
    match |e|
    case 1 => c := e[0];
    case 2 =>
      Base64Digits(0, 0, e[0] as int - 0xC0, e[1] as int - 0x80);
      c := Digits2(e[0] as int - 0xC0, e[1] as int - 0x80);
    case 3 =>
      Base64Digits(0, e[0] as int - 0xE0, e[1] as int - 0x80, e[2] as int - 0x80);
      c := Digits3(e[0] as int - 0xE0, e[1] as int - 0x80, e[2] as int - 0x80);
      Shifts(c);
    case _ =>
      Base64Digits(e[0] as int - 0xF0, e[1] as int - 0x80, e[2] as int - 0x80, e[3] as int - 0x80);
      c := Digits4(e[0] as int - 0xF0, e[1] as int - 0x80, e[2] as int - 0x80, e[3] as int - 0x80);
      Shifts(c);
  }

  lemma {:induction false} EncodedIsUtf8(cs: seq<Scalar>)
    ensures Utf8(EncodeAll(cs))
  {
    if cs != [] {
      EncodedIsUtf8(cs[1..]);
      OneEncoded(cs[0], EncodeAll(cs[1..]));
    }
  }

  lemma {:induction false} Utf8IsEncoded(b: seq<Byte>) returns (cs: seq<Scalar>)
    requires Utf8(b)
    ensures EncodeAll(cs) == b
    decreases |b|
  {
    hide Encode, OneForm;
    if b == [] {
      cs := [];
    } else {
      hide Utf8;
      var n := SplitsOff(b);
      var c := FormIsEncoded(b[..n]);
      var rest := Utf8IsEncoded(b[n..]);
      cs := [c] + rest;
      assert b == b[..n] + b[n..];
      assert cs[1..] == rest;
    }
  }

  /** Bytes are taken for UTF-8 exactly if they encode some text. */
  lemma Utf8Exactly(b: seq<Byte>)
    ensures Utf8(b) <==> exists cs :: EncodeAll(cs) == b
  {
    if Utf8(b) {
      var cs := Utf8IsEncoded(b);
    }
    forall cs | EncodeAll(cs) == b ensures Utf8(b) {
      EncodedIsUtf8(cs);
    }
  }
}
