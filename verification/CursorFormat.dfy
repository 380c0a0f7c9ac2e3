/**
  The characters of a token: the JSON it spells, the UTF-8 of that, and the base64url
  digits of those bytes.
 */
module CursorFormat {
  import opened Wrappers
  import opened Arithmetic
  import opened Utf8
  import opened Base64
  import opened Json
  import opened Cursor

  // --------------------------------------------------------------------- JSON

  lemma NameQuoted(name: Text)
    requires name == S || name == K || name == I
    ensures Quoted(name) == [QUOTE] + name + [QUOTE]
  {
    assert name[1..] == [];
    assert Escaped([]) == [];
    assert EscapeChar(name[0]) == name;
  }

  lemma PiecesSpelled()
    ensures Ascii("{\"s\":") == OPEN + Quoted(S) + COLON && Ascii(",\"k\":") == COMMA + Quoted(K) + COLON
    ensures Ascii(",\"i\":") == COMMA + Quoted(I) + COLON && Ascii("}") == CLOSE
  {
    NameQuoted(S);
    NameQuoted(K);
    NameQuoted(I);
    hide Quoted;
  }

  lemma ConcatFour(a: Text, b: Text, c: Text, d: Text)
    ensures a + (b + (c + d)) == a + b + c + d
  {
  }

  /** The payload, between and around its three strings. */
  lemma PayloadSpelled(p: Position)
    ensures Payload(p)
            == Ascii("{\"s\":") + Quoted(p.sort) + (Ascii(",\"k\":") + Quoted(p.key))
               + (Ascii(",\"i\":") + Quoted(p.id) + Ascii("}"))
  {
    hide Quoted, Ascii, OPEN, CLOSE, COMMA, COLON, S, K, I;
    PiecesSpelled();
    var s, k, i := Quoted(p.sort), Quoted(p.key), Quoted(p.id);
    var first, second, third := Quoted(S) + (COLON + s), Quoted(K) + (COLON + k), Quoted(I) + (COLON + i);
    assert Payload(p) == OPEN + (first + (COMMA + (second + (COMMA + (third + CLOSE)))));
    assert OPEN + first == OPEN + Quoted(S) + COLON + s;
    assert COMMA + second == COMMA + Quoted(K) + COLON + k;
    assert COMMA + third + CLOSE == COMMA + Quoted(I) + COLON + i + CLOSE;
    ConcatFour(OPEN, first, COMMA + second, COMMA + third + CLOSE);
    assert COMMA + (second + (COMMA + (third + CLOSE))) == COMMA + second + (COMMA + third + CLOSE);
    assert OPEN + (first + (COMMA + second + (COMMA + third + CLOSE)))
           == OPEN + first + (COMMA + second) + (COMMA + third + CLOSE);
  }

  /** The two-character escapes. */
  function ShortEscape(c: CodePoint): Option<string> {
    if c == 0x22 then Some("\\\"")
    else if c == 0x5C then Some("\\\\")
    else if c == 0x08 then Some("\\b")
    else if c == 0x09 then Some("\\t")
    else if c == 0x0A then Some("\\n")
    else if c == 0x0C then Some("\\f")
    else if c == 0x0D then Some("\\r")
    else None
  }

  const HEX := "0123456789abcdef"

  /** A character with a short escape takes it, another control character `\u00` and two hex digits; the rest stay. */
  lemma EscapesExactly(c: CodePoint)
    ensures EscapeChar(c)
            == if ShortEscape(c).Some? then Ascii(ShortEscape(c).value)
               else if c < 0x20 then Ascii("\\u00") + [HEX[c / 16] as int, HEX[c % 16] as int]
               else [c]
  {
    if ShortEscape(c).None? && c < 0x20 {
      HexDigitsExactly(c / 16);
      HexDigitsExactly(c % 16);
      hide HexDigit;
      assert Ascii("\\u00") == ['\\' as int, 'u' as int, '0' as int, '0' as int];
    }
  }

  lemma HexDigitsExactly(v: nat)
    requires v < 16
    ensures HexDigit(v) == HEX[v] as int
  {
  }

  // -------------------------------------------------------------------- UTF-8

  predicate Trailing(b: Byte) {
    0x80 <= b <= 0xBF
  }

  /** One to four bytes, the shortest that do, whose free bits are the character. */
  lemma Utf8Exactly(c: CodePoint)
    ensures var b := EncodeChar(c);
            && |b| == (if c <= 0x7F then 1 else if c <= 0x7FF then 2 else if c <= 0xFFFF then 3 else 4)
            && (|b| == 1 ==> b[0] == c)
            && (|b| == 2 ==> 0xC2 <= b[0] <= 0xDF && Trailing(b[1]) && c == Free(b[0], 0xC0) * 64 + Free(b[1], 0x80))
            && (|b| == 3 ==> 0xE0 <= b[0] <= 0xEF && Trailing(b[1]) && Trailing(b[2])
                             && c == (Free(b[0], 0xE0) * 64 + Free(b[1], 0x80)) * 64 + Free(b[2], 0x80))
            && (|b| == 4 ==> 0xF0 <= b[0] <= 0xF4 && Trailing(b[1]) && Trailing(b[2]) && Trailing(b[3])
                             && c == ((Free(b[0], 0xF0) * 64 + Free(b[1], 0x80)) * 64 + Free(b[2], 0x80)) * 64
                                     + Free(b[3], 0x80))
  {
    Sextets(c);
  }

  /** What a byte says beside its mark. */
  function Free(b: Byte, mark: int): int {
    (b as int) - mark
  }

  // ------------------------------------------------------------------- base64

  const UPPER := "ABCDEFGHIJKLMNOPQRSTUVWXYZ"
  const LOWER := "abcdefghijklmnopqrstuvwxyz"
  const NUMERALS := "0123456789"
  const ALPHABET := UPPER + LOWER + NUMERALS + "-_"

  lemma SymbolsExactly(v: nat)
    requires v < 64
    ensures |ALPHABET| == 64 && Symbol(v) == ALPHABET[v] as int
  {
    if v < 26 {
      assert UPPER[v] == 'A' + v as char;
    } else if v < 52 {
      assert LOWER[v - 26] == 'a' + (v - 26) as char;
    } else if v < 62 {
      assert NUMERALS[v - 52] == '0' + (v - 52) as char;
    }
  }

  /** The base-64 digit of weight `w`. */
  function Digit64(n: nat, w: nat): nat
    requires w > 0
  {
    n / w % 64
  }

  /** Three bytes as one number. */
  function Joined(a: Byte, b: Byte, c: Byte): nat {
    ((a as int) * 256 + (b as int)) * 256 + (c as int)
  }

  lemma FirstDigit(x: nat, y: nat, z: nat)
    requires x < 256 && y < 256 && z < 256
    ensures Digit64(x * 0x1_0000 + y * 0x100 + z, 0x4_0000) == x / 4
  {
    var n := x * 0x1_0000 + y * 0x100 + z;
    assert x / 4 * 0x4_0000 + (x % 4 * 0x1_0000 + y * 0x100 + z) == n;
    QuotientUnique(n, 0x4_0000, x / 4);
  }

  lemma SecondDigit(x: nat, y: nat, z: nat)
    requires x < 256 && y < 256 && z < 256
    ensures Digit64(x * 0x1_0000 + y * 0x100 + z, 0x1000) == x % 4 * 16 + y / 16
  {
    var n := x * 0x1_0000 + y * 0x100 + z;
    assert (x * 16 + y / 16) * 0x1000 + (y % 16 * 0x100 + z) == n;
    QuotientUnique(n, 0x1000, x * 16 + y / 16);
    LastOf64(x / 4, x % 4 * 16 + y / 16);
  }

  lemma ThirdDigit(x: nat, y: nat, z: nat)
    requires x < 256 && y < 256 && z < 256
    ensures Digit64(x * 0x1_0000 + y * 0x100 + z, 0x40) == y % 16 * 4 + z / 64
  {
    var n := x * 0x1_0000 + y * 0x100 + z;
    assert (x * 0x400 + y * 4 + z / 64) * 0x40 + z % 64 == n;
    QuotientUnique(n, 0x40, x * 0x400 + y * 4 + z / 64);
    LastOf64(x * 16 + y / 16, y % 16 * 4 + z / 64);
  }

  lemma LastDigit(x: nat, y: nat, z: nat)
    requires x < 256 && y < 256 && z < 256
    ensures Digit64(x * 0x1_0000 + y * 0x100 + z, 1) == z % 64
  {
    LastOf64(x * 0x400 + y * 4 + z / 64, z % 64);
  }

  lemma LastOf64(high: nat, low: nat)
    requires low < 64
    ensures (high * 64 + low) % 64 == low
  {
  }

  lemma GroupDigits(a: Byte, b: Byte, c: Byte)
    ensures var n := Joined(a, b, c);
            && Digit64(n, 0x4_0000) == a / 4 && Digit64(n, 0x1000) == a % 4 * 16 + b / 16
            && Digit64(n, 0x40) == b % 16 * 4 + c / 64 && Digit64(n, 1) == c % 64
  {
    hide Digit64;
    FirstDigit(a, b, c);
    SecondDigit(a, b, c);
    ThirdDigit(a, b, c);
    LastDigit(a, b, c);
  }

  /** The symbol of a base-64 digit. */
  function SymbolAt(n: nat, w: nat): CodePoint
    requires w > 0
  {
    SymbolsExactly(n / w % 64);
    ALPHABET[n / w % 64] as int
  }

  lemma SymbolIs(n: nat, w: nat)
    requires w > 0
    ensures Digit64(n, w) < 64 && SymbolAt(n, w) == Symbol(Digit64(n, w))
  {
    SymbolsExactly(n / w % 64);
  }

  /** The four symbols of three bytes. */
  function Symbols(a: Byte, b: Byte, c: Byte): Text {
    var n := Joined(a, b, c);
    [SymbolAt(n, 0x4_0000), SymbolAt(n, 0x1000), SymbolAt(n, 0x40), SymbolAt(n, 1)]
  }

  lemma SymbolsAre(a: Byte, b: Byte, c: Byte)
    ensures Symbols(a, b, c) == Quad(a, b, c)
  {
    hide Symbol, SymbolAt, Digit64, Joined;
    GroupDigits(a, b, c);
    var n := Joined(a, b, c);
    SymbolIs(n, 0x4_0000);
    SymbolIs(n, 0x1000);
    SymbolIs(n, 0x40);
    SymbolIs(n, 1);
  }

  lemma ShortGroups(a: Byte, b: Byte)
    ensures Encode64([a]) == Quad(a, 0, 0)[..2] + ['=' as int, '=' as int]
    ensures Encode64([a, b]) == Quad(a, b, 0)[..3] + ['=' as int]
  {
    hide Symbol;
  }

  /** Three bytes are four base64url digits of one number; one or two leave the last two or one as padding. */
  lemma Base64Exactly(b: Bytes)
    requires b != []
    ensures |b| == 1 ==> Encode64(b) == Symbols(b[0], 0, 0)[..2] + ['=' as int, '=' as int]
    ensures |b| == 2 ==> Encode64(b) == Symbols(b[0], b[1], 0)[..3] + ['=' as int]
    ensures |b| > 2 ==> Encode64(b) == Symbols(b[0], b[1], b[2]) + Encode64(b[3..])
  {
    hide Symbols, Quad, Encode64;
    if |b| == 1 {
      assert b == [b[0]];
      ShortGroups(b[0], 0);
      SymbolsAre(b[0], 0, 0);
    } else if |b| == 2 {
      assert b == [b[0], b[1]];
      ShortGroups(b[0], b[1]);
      SymbolsAre(b[0], b[1], 0);
    } else {
      FirstGroup(b);
      SymbolsAre(b[0], b[1], b[2]);
    }
  }

  /** A position has a token exactly when none of its texts holds a surrogate. */
  lemma TokenExists(p: Position)
    ensures EncodeCursor(p).Some? <==> forall c :: c in p.sort || c in p.key || c in p.id ==> !(0xD800 <= c <= 0xDFFF)
  {
    EncodesExactly(p);
    hide EncodeCursor;
  }

  /** The token: the digits of the encoded payload, without the padding. */
  lemma TokenSpelled(p: Position)
    ensures EncodeCursor(p).Some? ==>
              EncodeCursor(p).value + seq((3 - |EncodeChars(Payload(p))| % 3) % 3, _ => '=' as int)
              == Encode64(EncodeChars(Payload(p)))
  {
    hide Payload, EncodeChars, Encode64;
    PadIsTail(EncodeChars(Payload(p)));
    PadTailSplits(Encode64(EncodeChars(Payload(p))), Short(EncodeChars(Payload(p))));
  }

  /** Every token of the four orders, for a path of up to 1024 characters and an id of up to 245, fits 10240. */
  lemma TokensFit(p: Position)
    requires p.sort in {Ascii("path"), Ascii("updated"), Ascii("created"), Ascii("title")}
    requires |p.key| <= 1024 && |p.id| <= 245 && EncodeCursor(p).Some?
    ensures |EncodeCursor(p).value| <= 10240 == MAX_CURSOR_CHARS
  {
    IssuedTokensFit(p);
  }
}
