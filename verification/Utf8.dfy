/** Texts as code points, and UTF-8 (RFC 3629). */
module Utf8 {
  import opened Wrappers

  type Byte = n: nat | n < 0x100

  /** Any Python character: surrogates included. */
  type CodePoint = n: nat | n < 0x11_0000

  type Text = seq<CodePoint>

  type Bytes = seq<Byte>

  predicate IsSurrogate(c: CodePoint) {
    0xD800 <= c < 0xE000
  }

  /** The text can be encoded. */
  predicate Encodable(t: Text) {
    forall c :: c in t ==> !IsSurrogate(c)
  }

  function EncodeChar(c: CodePoint): Bytes {
    if c < 0x80 then [c]
    else if c < 0x800 then [0xC0 + c / 0x40, 0x80 + c % 0x40]
    else if c < 0x1_0000 then [0xE0 + c / 0x1000, 0x80 + c / 0x40 % 0x40, 0x80 + c % 0x40]
    else [0xF0 + c / 0x4_0000, 0x80 + c / 0x1000 % 0x40, 0x80 + c / 0x40 % 0x40, 0x80 + c % 0x40]
  }

  function EncodeChars(t: Text): Bytes {
    if t == [] then [] else EncodeChar(t[0]) + EncodeChars(t[1..])
  }

  /** `t.encode("utf-8")`: no surrogate has an encoding. */
  function Encode(t: Text): Option<Bytes> {
    if Encodable(t) then Some(EncodeChars(t)) else None
  }

  predicate Continues(b: Byte) {
    0x80 <= b < 0xC0
  }

  function Lead(b: Byte, base: int, weight: int): int {
    (b as int - base) * weight
  }

  /** The length of the first character and the character, if the bytes begin with one. */
  function DecodeChar(b: Bytes): Option<(nat, CodePoint)>
    requires b != []
  {
    if b[0] < 0x80 then Some((1, b[0]))
    else if 0xC2 <= b[0] < 0xE0 && |b| >= 2 && Continues(b[1]) then
      Some((2, Lead(b[0], 0xC0, 0x40) + Lead(b[1], 0x80, 1)))
    else if 0xE0 <= b[0] < 0xF0 && |b| >= 3 && Continues(b[1]) && Continues(b[2]) then
      var c := Lead(b[0], 0xE0, 0x1000) + Lead(b[1], 0x80, 0x40) + Lead(b[2], 0x80, 1);
      if c >= 0x800 then Some((3, c)) else None
    else if 0xF0 <= b[0] < 0xF5 && |b| >= 4 && Continues(b[1]) && Continues(b[2]) && Continues(b[3]) then
      var c := Lead(b[0], 0xF0, 0x4_0000) + Lead(b[1], 0x80, 0x1000) + Lead(b[2], 0x80, 0x40) + Lead(b[3], 0x80, 1);
      if 0x1_0000 <= c < 0x11_0000 then Some((4, c)) else None
    else None
  }

  /** `b.decode("utf-8", "surrogatepass")`. */
  function Decode(b: Bytes): Option<Text>
    decreases |b|
  {
    if b == [] then Some([])
    else
      var first := DecodeChar(b);
      if first.None? || first.value.0 == 0 || first.value.0 > |b| then None
      else
        var rest := Decode(b[first.value.0..]);
        if rest.None? then None else Some([first.value.1] + rest.value)
  }

  /** Six bits at a time. */
  lemma Sextets(c: nat)
    ensures c == c / 0x40 * 0x40 + c % 0x40
    ensures c / 0x40 == c / 0x1000 * 0x40 + c / 0x40 % 0x40
    ensures c / 0x1000 == c / 0x4_0000 * 0x40 + c / 0x1000 % 0x40
  {
  }

  lemma ThreeReadBack(c: CodePoint, more: Bytes)
    requires 0x800 <= c < 0x1_0000
    ensures DecodeChar(EncodeChar(c) + more) == Some((3, c))
  {
    var b := EncodeChar(c) + more;
    assert b[0] == 0xE0 + c / 0x1000 && b[1] == 0x80 + c / 0x40 % 0x40 && b[2] == 0x80 + c % 0x40;
    Sextets(c);
  }

  lemma FourReadBack(c: CodePoint, more: Bytes)
    requires 0x1_0000 <= c
    ensures DecodeChar(EncodeChar(c) + more) == Some((4, c))
  {
    var b := EncodeChar(c) + more;
    assert b[0] == 0xF0 + c / 0x4_0000 && b[1] == 0x80 + c / 0x1000 % 0x40;
    assert b[2] == 0x80 + c / 0x40 % 0x40 && b[3] == 0x80 + c % 0x40;
    Sextets(c);
  }

  lemma CharReadsBack(c: CodePoint, more: Bytes)
    ensures EncodeChar(c) + more != []
    ensures DecodeChar(EncodeChar(c) + more) == Some((|EncodeChar(c)|, c))
  {
    if c < 0x80 {
      assert (EncodeChar(c) + more)[0] == c;
    } else if c < 0x800 {
      var b := EncodeChar(c) + more;
      assert b[0] == 0xC0 + c / 0x40 && b[1] == 0x80 + c % 0x40;
    } else if c < 0x1_0000 {
      hide DecodeChar;
      ThreeReadBack(c, more);
    } else {
      hide DecodeChar;
      FourReadBack(c, more);
    }
  }

  lemma DecodeUnfolds(b: Bytes, n: nat, c: CodePoint)
    requires b != [] && DecodeChar(b) == Some((n, c)) && 0 < n <= |b|
    ensures Decode(b) == if Decode(b[n..]).None? then None else Some([c] + Decode(b[n..]).value)
  {
    hide DecodeChar;
  }

  lemma EncodeUnfolds(t: Text)
    requires t != []
    ensures EncodeChars(t) == EncodeChar(t[0]) + EncodeChars(t[1..]) && EncodeChar(t[0]) != []
  {
  }

  /** Decoding undoes encoding. */
  lemma {:induction false} DecodeEncodes(t: Text)
    ensures Decode(EncodeChars(t)) == Some(t)
  {
    hide EncodeChar, DecodeChar;
    if t != [] {
      DecodeEncodes(t[1..]);
      CharReadsBack(t[0], EncodeChars(t[1..]));
      EncodeUnfolds(t);
      var head, rest := EncodeChar(t[0]), EncodeChars(t[1..]);
      DecodeUnfolds(head + rest, |head|, t[0]);
      assert (head + rest)[|head|..] == rest;
      assert t == [t[0]] + t[1..];
    }
  }

  lemma {:induction false} EncodeJoins(a: Text, b: Text)
    ensures EncodeChars(a + b) == EncodeChars(a) + EncodeChars(b)
  {
    hide EncodeChar;
    if a == [] {
      assert a + b == b;
    } else {
      EncodeJoins(a[1..], b);
      EncodeUnfolds(a);
      EncodeUnfolds(a + b);
      assert (a + b)[1..] == a[1..] + b && (a + b)[0] == a[0];
    }
  }
}
