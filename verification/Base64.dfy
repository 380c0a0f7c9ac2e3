/** Base64url (section 5 of RFC 4648), as Python encodes and decodes it. */
module Base64 {
  import opened Wrappers
  import opened Utf8

  const PAD: CodePoint := '=' as int

  function Symbol(v: nat): CodePoint
    requires v < 64
  {
    if v < 26 then v + 'A' as int
    else if v < 52 then v - 26 + 'a' as int
    else if v < 62 then v - 52 + '0' as int
    else if v == 62 then '-' as int
    else '_' as int
  }

  /** With `altchars` the standard `+` and `/` still decode. */
  function Value(c: CodePoint): Option<nat> {
    if 'A' as int <= c <= 'Z' as int then Some(c - 'A' as int)
    else if 'a' as int <= c <= 'z' as int then Some(c - 'a' as int + 26)
    else if '0' as int <= c <= '9' as int then Some(c - '0' as int + 52)
    else if c == '-' as int || c == '+' as int then Some(62)
    else if c == '_' as int || c == '/' as int then Some(63)
    else None
  }

  lemma SymbolReadsBack(v: nat)
    requires v < 64
    ensures Value(Symbol(v)) == Some(v) && Symbol(v) != PAD
  {
  }

  function Quad(a: Byte, b: Byte, c: Byte): Text {
    [Symbol(a / 4), Symbol(a % 4 * 16 + b / 16), Symbol(b % 16 * 4 + c / 64), Symbol(c % 64)]
  }

  /** `base64.urlsafe_b64encode`. */
  function Encode64(b: Bytes): Text {
    if b == [] then []
    else if |b| == 1 then [Symbol(b[0] / 4), Symbol(b[0] % 4 * 16), PAD, PAD]
    else if |b| == 2 then [Symbol(b[0] / 4), Symbol(b[0] % 4 * 16 + b[1] / 16), Symbol(b[1] % 16 * 4), PAD]
    else Quad(b[0], b[1], b[2]) + Encode64(b[3..])
  }

  /** `s.rstrip("=")`. */
  function StripPad(s: Text): Text {
    if s != [] && s[|s| - 1] == PAD then StripPad(s[..|s| - 1]) else s
  }

  /** `s + "=" * (-len(s) % 4)`. */
  function AddPad(s: Text): Text {
    s + seq((4 - |s| % 4) % 4, _ => PAD)
  }

  /** `base64.b64decode(s, altchars=b"-_", validate=True)`: unused trailing bits are ignored. */
  function Decode64(s: Text): Option<Bytes> {
    if s == [] then Some([])
    else if |s| < 4 then None
    else
      var v0, v1, v2, v3 := Value(s[0]), Value(s[1]), Value(s[2]), Value(s[3]);
      if v0.None? || v1.None? then None
      else if |s| == 4 && s[2] == PAD && s[3] == PAD then Some([v0.value * 4 + v1.value / 16])
      else if v2.None? then None
      else if |s| == 4 && s[3] == PAD then
        Some([v0.value * 4 + v1.value / 16, v1.value % 16 * 16 + v2.value / 4])
      else if v3.None? then None
      else
        var rest := Decode64(s[4..]);
        if rest.None? then None
        else
          Some([v0.value * 4 + v1.value / 16, v1.value % 16 * 16 + v2.value / 4, v2.value % 4 * 64 + v3.value]
               + rest.value)
  }

  /** The arithmetic of one group. */
  lemma GroupReadsBack(a: Byte, b: Byte, c: Byte)
    ensures a / 4 * 4 + (a % 4 * 16 + b / 16) / 16 == a
    ensures (a % 4 * 16 + b / 16) % 16 * 16 + (b % 16 * 4 + c / 64) / 4 == b
    ensures (b % 16 * 4 + c / 64) % 4 * 64 + c % 64 == c
  {
  }

  lemma QuadReadsBack(a: Byte, b: Byte, c: Byte, rest: Text)
    ensures Decode64(Quad(a, b, c) + rest)
            == if Decode64(rest).None? then None else Some([a, b, c] + Decode64(rest).value)
  {
    SymbolReadsBack(a / 4);
    SymbolReadsBack(a % 4 * 16 + b / 16);
    SymbolReadsBack(b % 16 * 4 + c / 64);
    SymbolReadsBack(c % 64);
    GroupReadsBack(a, b, c);
    var s := Quad(a, b, c) + rest;
    assert s[0] == Symbol(a / 4) && s[1] == Symbol(a % 4 * 16 + b / 16);
    assert s[2] == Symbol(b % 16 * 4 + c / 64) && s[3] == Symbol(c % 64);
    assert s[4..] == rest;
    hide Symbol, Value;
  }

  /** Decoding undoes encoding. */
  lemma {:induction false} Decode64Encodes(b: Bytes)
    ensures Decode64(Encode64(b)) == Some(b)
  {
    hide Symbol, Value, Quad;
    if |b| == 1 {
      SymbolReadsBack(b[0] / 4);
      SymbolReadsBack(b[0] % 4 * 16);
      GroupReadsBack(b[0], 0, 0);
      assert b == [b[0]];
    } else if |b| == 2 {
      SymbolReadsBack(b[0] / 4);
      SymbolReadsBack(b[0] % 4 * 16 + b[1] / 16);
      SymbolReadsBack(b[1] % 16 * 4);
      GroupReadsBack(b[0], b[1], 0);
      assert b == [b[0], b[1]];
    } else if |b| > 2 {
      Decode64Encodes(b[3..]);
      QuadReadsBack(b[0], b[1], b[2], Encode64(b[3..]));
      assert b == [b[0], b[1], b[2]] + b[3..];
    }
  }

  /** How many bytes are left over after whole groups of three. */
  function Short(b: Bytes): nat {
    (3 - |b| % 3) % 3
  }

  lemma QuadHasNoPad(a: Byte, b: Byte, c: Byte)
    ensures |Quad(a, b, c)| == 4 && PAD !in Quad(a, b, c)
  {
    SymbolReadsBack(a / 4);
    SymbolReadsBack(a % 4 * 16 + b / 16);
    SymbolReadsBack(b % 16 * 4 + c / 64);
    SymbolReadsBack(c % 64);
    hide Symbol;
  }

  /** The last `n` characters are padding, and no others. */
  predicate PadTail(s: Text, n: nat) {
    n <= |s| && forall i :: 0 <= i < |s| ==> (s[i] == PAD <==> i >= |s| - n)
  }

  lemma PadTailAfter(quad: Text, rest: Text, n: nat)
    requires PAD !in quad && PadTail(rest, n)
    ensures PadTail(quad + rest, n)
  {
    var s := quad + rest;
    forall i | 0 <= i < |s| ensures s[i] == PAD <==> i >= |s| - n {
      if i < |quad| { assert s[i] in quad; } else { assert s[i] == rest[i - |quad|]; }
    }
  }

  lemma ShortPads(b: Bytes)
    requires |b| <= 2
    ensures |Encode64(b)| == (|b| + 2) / 3 * 4 && PadTail(Encode64(b), Short(b))
  {
    if b != [] {
      SymbolReadsBack(b[0] / 4);
      SymbolReadsBack(b[0] % 4 * 16);
      if |b| == 2 {
        SymbolReadsBack(b[0] % 4 * 16 + b[1] / 16);
        SymbolReadsBack(b[1] % 16 * 4);
      }
    }
    hide Symbol, Value;
  }

  lemma GroupArithmetic(n: nat)
    requires n > 2
    ensures (n - 3 + 2) / 3 + 1 == (n + 2) / 3 && (n - 3) % 3 == n % 3
  {
  }

  lemma FirstGroup(b: Bytes)
    requires |b| > 2
    ensures Encode64(b) == Quad(b[0], b[1], b[2]) + Encode64(b[3..])
  {
    hide Quad, Symbol;
  }

  lemma ShortKept(b: Bytes)
    requires |b| > 2
    ensures Short(b[3..]) == Short(b)
  {
    GroupArithmetic(|b|);
    assert |b[3..]| == |b| - 3;
  }

  lemma {:induction false} PadIsTail(b: Bytes)
    ensures |Encode64(b)| == (|b| + 2) / 3 * 4 && PadTail(Encode64(b), Short(b))
  {
    hide *;
    if |b| <= 2 {
      ShortPads(b);
    } else {
      PadIsTail(b[3..]);
      FirstGroup(b);
      ShortKept(b);
      GroupArithmetic(|b|);
      QuadHasNoPad(b[0], b[1], b[2]);
      PadTailAfter(Quad(b[0], b[1], b[2]), Encode64(b[3..]), Short(b[3..]));
    }
  }

  lemma {:induction false} StripPadTail(s: Text, n: nat)
    requires n <= |s| && (forall i :: n <= i < |s| ==> s[i] == PAD) && (n > 0 ==> s[n - 1] != PAD)
    ensures StripPad(s) == s[..n]
    decreases |s|
  {
    if n < |s| {
      StripPadTail(s[..|s| - 1], n);
      assert s[..|s| - 1][..n] == s[..n];
    }
  }

  lemma PadArithmetic(b: Bytes)
    ensures var padded, short := (|b| + 2) / 3 * 4, Short(b);
            && short <= padded && (4 - (padded - short) % 4) % 4 == short && padded - short == (|b| * 4 + 2) / 3
  {
    var q, r := |b| / 3, |b| % 3;
    assert |b| == q * 3 + r && Short(b) == if r == 0 then 0 else 3 - r;
    assert (|b| + 2) / 3 == if r == 0 then q else q + 1;
  }

  lemma PadTailSplits(s: Text, n: nat)
    requires PadTail(s, n)
    ensures StripPad(s) == s[..|s| - n]
    ensures s[..|s| - n] + seq(n, _ => PAD) == s
  {
    StripPadTail(s, |s| - n);
  }

  lemma AddPadIs(s: Text, n: nat)
    requires (4 - |s| % 4) % 4 == n
    ensures AddPad(s) == s + seq(n, _ => PAD)
  {
  }

  /** The stripped padding can be put back, and nothing else is lost. */
  lemma PaddingReturns(b: Bytes)
    ensures AddPad(StripPad(Encode64(b))) == Encode64(b)
    ensures |StripPad(Encode64(b))| == (|b| * 4 + 2) / 3
  {
    hide *;
    PadIsTail(b);
    PadArithmetic(b);
    PadTailSplits(Encode64(b), Short(b));
    AddPadIs(StripPad(Encode64(b)), Short(b));
  }
}
