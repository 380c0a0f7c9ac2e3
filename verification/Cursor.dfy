/** The listing cursor (app/vault/cursors.py): a sort, a key and an id, sealed in one token. */
module Cursor {
  import opened Wrappers
  import opened Utf8
  import opened Base64
  import opened Json

  const MAX_CURSOR_CHARS := 10240

  datatype CursorError = NotAToken | OtherOrder(carried: Text)

  /** What a cursor carries. */
  datatype Position = Position(sort: Text, key: Text, id: Text)

  const OPEN: Text := ['{' as int]
  const CLOSE: Text := ['}' as int]
  const COMMA: Text := [',' as int]
  const S: Text := ['s' as int]
  const K: Text := ['k' as int]
  const I: Text := ['i' as int]

  function Pair(name: Text, value: Text): Text {
    Quoted(name) + (COLON + Quoted(value))
  }

  /** `json.dumps({"s": sort, "k": key, "i": id}, separators=(",", ":"), ensure_ascii=False)`. */
  function Payload(p: Position): Text {
    OPEN + (Pair(S, p.sort) + (COMMA + (Pair(K, p.key) + (COMMA + (Pair(I, p.id) + CLOSE)))))
  }

  /** `encode_cursor`: a text with a surrogate has no token. */
  function EncodeCursor(p: Position): Option<Text> {
    var raw := Utf8.Encode(Payload(p));
    if raw.None? then None else Some(StripPad(Encode64(raw.value)))
  }

  function TextAt(members: seq<Member>, name: Text): Option<Text> {
    var value := Get(members, name);
    if value.Some? && value.value.Str? then Some(value.value.text) else None
  }

  /** What the token says before it is compared with its own re-encoding. */
  function ReadPayload(token: Text): Option<Position> {
    var raw := Decode64(AddPad(token));
    if raw.None? then None
    else
      var text := Utf8.Decode(raw.value);
      if text.None? then None
      else
        var payload := Loads(text.value);
        if payload.None? || !payload.value.Obj? then None
        else
          var members := payload.value.members;
          var sort, key, id := TextAt(members, S), TextAt(members, K), TextAt(members, I);
          if sort.None? || key.None? || id.None? then None
          else Some(Position(sort.value, key.value, id.value))
  }

  /** `decode_cursor`. */
  function DecodeCursor(token: Text, sort: Text): Result<(Text, Text), CursorError> {
    var p := ReadPayload(token);
    if p.None? then Err(NotAToken)
    else if 0 in p.value.key || 0 in p.value.id then Err(NotAToken)
    else if EncodeCursor(p.value) != Some(token) then Err(NotAToken)
    else if p.value.sort != sort then Err(OtherOrder(p.value.sort))
    else Ok((p.value.key, p.value.id))
  }

  // ---------------------------------------------------------- reading back

  lemma NoSpace(s: Text)
    requires s != [] && !IsWhitespace(s[0])
    ensures SkipSpace(s) == s
  {
  }

  lemma PairReads(name: Text, value: Text, next: Text)
    requires next != [] && !IsWhitespace(next[0])
    ensures ParseMembers(Pair(name, value) + next)
            == if next[0] == '}' as int then Parsed([Member(name, Str(value))], next[1..])
               else if next[0] != ',' as int then Failed
               else if ParseMembers(SkipSpace(next[1..])).Failed? then Failed
               else Parsed([Member(name, Str(value))] + ParseMembers(SkipSpace(next[1..])).value,
                           ParseMembers(SkipSpace(next[1..])).rest)
  {
    hide Quoted, ParseMembers, ParseValue;
    var text := Quoted(value) + next;
    ValueReadsBack(value, next);
    QuotedOpens(value, next);
    NoSpace(next);
    NoSpace(text);
    MemberReads(name, Str(value), text, next);
    assert Pair(name, value) + next == Quoted(name) + (COLON + text);
  }

  lemma PairOpens(name: Text, value: Text, next: Text)
    ensures Pair(name, value) + next != [] && (Pair(name, value) + next)[0] == QUOTE
    ensures SkipSpace(Pair(name, value) + next) == Pair(name, value) + next
  {
    QuotedOpens(name, COLON + Quoted(value) + next);
    assert Pair(name, value) + next == Quoted(name) + (COLON + Quoted(value) + next);
    hide Quoted;
    NoSpace(Pair(name, value) + next);
  }

  function Members(p: Position): seq<Member> {
    [Member(S, Str(p.sort)), Member(K, Str(p.key)), Member(I, Str(p.id))]
  }

  lemma MembersRead(p: Position)
    ensures ParseMembers(Pair(S, p.sort) + (COMMA + (Pair(K, p.key) + (COMMA + (Pair(I, p.id) + CLOSE)))))
            == Parsed(Members(p), [])
  {
    hide Pair, ParseMembers, SkipSpace;
    var third := Pair(I, p.id) + CLOSE;
    var second := Pair(K, p.key) + (COMMA + third);
    var s, k, i := Member(S, Str(p.sort)), Member(K, Str(p.key)), Member(I, Str(p.id));
    assert CLOSE[1..] == [];
    PairReads(I, p.id, CLOSE);
    assert ParseMembers(third) == Parsed([i], []);
    PairOpens(I, p.id, CLOSE);
    assert (COMMA + third)[1..] == third;
    PairReads(K, p.key, COMMA + third);
    assert ParseMembers(second) == Parsed([k] + [i], []);
    PairOpens(K, p.key, COMMA + third);
    assert (COMMA + second)[1..] == second;
    PairReads(S, p.sort, COMMA + second);
    assert [s] + ([k] + [i]) == Members(p);
  }

  lemma ObjectReads(inside: Text, members: seq<Member>)
    requires inside != [] && inside[0] == QUOTE && ParseMembers(inside) == Parsed(members, [])
    ensures Loads(OPEN + inside) == Some(Obj(members))
  {
    NoSpace(inside);
    NoSpace(OPEN + inside);
    assert (OPEN + inside)[1..] == inside;
    hide ParseMembers, ParseString, ParseWord, ParseNumber, ParseItems;
  }

  /** The payload is one JSON object with the three members in order. */
  lemma PayloadReads(p: Position)
    ensures Loads(Payload(p)) == Some(Obj(Members(p)))
  {
    MembersRead(p);
    PairOpens(S, p.sort, COMMA + (Pair(K, p.key) + (COMMA + (Pair(I, p.id) + CLOSE))));
    hide Pair, ParseMembers, Loads, Members;
    ObjectReads(Pair(S, p.sort) + (COMMA + (Pair(K, p.key) + (COMMA + (Pair(I, p.id) + CLOSE)))), Members(p));
  }

  lemma MembersGet(p: Position)
    ensures TextAt(Members(p), S) == Some(p.sort)
    ensures TextAt(Members(p), K) == Some(p.key)
    ensures TextAt(Members(p), I) == Some(p.id)
  {
    var members := Members(p);
    assert members[..2][..1] == members[..1];
    assert S[0] != K[0] && S[0] != I[0] && K[0] != I[0];
    assert Get(members, I) == Some(members[2].value);
    assert Get(members, K) == Get(members[..2], K) == Some(members[1].value);
    assert Get(members, S) == Get(members[..2], S) == Get(members[..1], S) == Some(members[0].value);
  }

  /** Every token that was issued says what went into it. */
  lemma TokenReadsBack(p: Position)
    requires EncodeCursor(p).Some?
    ensures ReadPayload(EncodeCursor(p).value) == Some(p)
  {
    hide Payload, Encode64, StripPad, AddPad, Decode64, Utf8.Decode, Loads, TextAt, EncodeChars, Members;
    var raw := EncodeChars(Payload(p));
    PaddingReturns(raw);
    Decode64Encodes(raw);
    DecodeEncodes(Payload(p));
    PayloadReads(p);
    MembersGet(p);
  }

  /** Different positions have different tokens. */
  lemma TokensDistinct(a: Position, b: Position)
    requires EncodeCursor(a).Some? && EncodeCursor(a) == EncodeCursor(b)
    ensures a == b
  {
    TokenReadsBack(a);
    TokenReadsBack(b);
  }

  /**
    A token is honoured for a sort exactly when it is, character for character, the one
    issued for that sort, key and id, and neither key nor id holds a NUL.
   */
  lemma DecodesExactlyWhatWasIssued(token: Text, sort: Text, key: Text, id: Text)
    ensures DecodeCursor(token, sort) == Ok((key, id))
            <==> EncodeCursor(Position(sort, key, id)) == Some(token) && 0 !in key && 0 !in id
  {
    if EncodeCursor(Position(sort, key, id)) == Some(token) { TokenReadsBack(Position(sort, key, id)); }
    hide EncodeCursor, ReadPayload;
  }

  /** A token of another order, and only such a token, is answered by naming that order. */
  lemma NamesOtherOrder(token: Text, sort: Text, carried: Text)
    ensures DecodeCursor(token, sort) == Err(OtherOrder(carried))
            <==> carried != sort && IssuedFor(token, carried)
  {
    var p := ReadPayload(token);
    if IssuedFor(token, carried) {
      var key, id :| EncodeCursor(Position(carried, key, id)) == Some(token) && 0 !in key && 0 !in id;
      TokenReadsBack(Position(carried, key, id));
    } else if p.Some? {
      assert p.value == Position(p.value.sort, p.value.key, p.value.id);
    }
    hide EncodeCursor, ReadPayload;
  }

  /** The token was issued for this order. */
  ghost predicate IssuedFor(token: Text, sort: Text) {
    exists key, id :: EncodeCursor(Position(sort, key, id)) == Some(token) && 0 !in key && 0 !in id
  }

  // ------------------------------------------------------------- who has one

  lemma {:induction false} EscapingKeepsEncodable(t: Text)
    ensures Encodable(Escaped(t)) <==> Encodable(t)
  {
    if t != [] {
      EscapingKeepsEncodable(t[1..]);
      CharKeepsEncodable(t[0]);
      assert t == [t[0]] + t[1..];
      hide EscapeChar, IsSurrogate;
      assert Escaped(t) == EscapeChar(t[0]) + Escaped(t[1..]);
      EncodableJoins(EscapeChar(t[0]), Escaped(t[1..]));
      EncodableJoins([t[0]], t[1..]);
    }
  }

  lemma CharKeepsEncodable(c: CodePoint)
    ensures Encodable(EscapeChar(c)) <==> Encodable([c])
  {
    assert c in [c];
    assert |EscapeChar(c)| == 1 ==> EscapeChar(c) == [c];
  }

  lemma EncodableJoins(a: Text, b: Text)
    ensures Encodable(a + b) <==> Encodable(a) && Encodable(b)
  {
    hide IsSurrogate;
    if Encodable(a + b) {
      forall c | c in a ensures !IsSurrogate(c) { assert c in a + b; }
      forall c | c in b ensures !IsSurrogate(c) { assert c in a + b; }
    }
  }

  lemma QuotedEncodable(t: Text)
    ensures Encodable(Quoted(t)) <==> Encodable(t)
  {
    EscapingKeepsEncodable(t);
    EncodableJoins([QUOTE] + Escaped(t), [QUOTE]);
    EncodableJoins([QUOTE], Escaped(t));
    hide Escaped;
  }

  lemma PairEncodable(name: Text, value: Text, tail: Text)
    requires Encodable(name)
    ensures Encodable(Pair(name, value) + tail) <==> Encodable(value) && Encodable(tail)
  {
    QuotedEncodable(name);
    QuotedEncodable(value);
    assert Encodable(COLON);
    hide Quoted, Encodable;
    EncodableJoins(Pair(name, value), tail);
    EncodableJoins(Quoted(name), COLON + Quoted(value));
    EncodableJoins(COLON, Quoted(value));
  }

  /** A position has a token exactly when none of its texts holds a surrogate. */
  lemma EncodesExactly(p: Position)
    ensures EncodeCursor(p).Some? <==> Encodable(p.sort) && Encodable(p.key) && Encodable(p.id)
  {
    var third := Pair(I, p.id) + CLOSE;
    var second := Pair(K, p.key) + (COMMA + third);
    var first := Pair(S, p.sort) + (COMMA + second);
    assert Encodable(S) && Encodable(K) && Encodable(I) && Encodable(OPEN) && Encodable(CLOSE) && Encodable(COMMA);
    assert Payload(p) == OPEN + first;
    hide Pair, Payload, Encodable;
    PairEncodable(I, p.id, CLOSE);
    EncodableJoins(COMMA, third);
    PairEncodable(K, p.key, COMMA + third);
    EncodableJoins(COMMA, second);
    PairEncodable(S, p.sort, COMMA + second);
    EncodableJoins(OPEN, first);
  }

  // ---------------------------------------------------------------- the bound

  lemma {:induction false} EscapedBytes(t: Text)
    ensures |EncodeChars(Escaped(t))| <= 6 * |t|
  {
    if t != [] {
      EscapedBytes(t[1..]);
      CharBytes(t[0]);
      EncodeJoins(EscapeChar(t[0]), Escaped(t[1..]));
      hide EscapeChar, EncodeChars;
    }
  }

  lemma CharBytes(c: CodePoint)
    ensures |EncodeChars(EscapeChar(c))| <= 6
  {
    var e := EscapeChar(c);
    if |e| == 1 {
      assert e == [c] && e[1..] == [];
    } else {
      AsciiBytes(e);
    }
  }

  lemma {:induction false} AsciiBytes(t: Text)
    requires forall c :: c in t ==> c < 0x80
    ensures |EncodeChars(t)| == |t|
  {
    if t != [] {
      assert t[0] in t && forall c :: c in t[1..] ==> c in t;
      AsciiBytes(t[1..]);
    }
  }

  function PairHead(name: Text): Text {
    [QUOTE] + name + [QUOTE] + COLON + [QUOTE]
  }

  lemma PairShape(name: Text, value: Text, tail: Text)
    requires Escaped(name) == name
    ensures Pair(name, value) + tail == PairHead(name) + (Escaped(value) + ([QUOTE] + tail))
  {
    hide Escaped;
    var q: Text := [QUOTE];
    var value2 := Escaped(value);
    assert Pair(name, value) == (q + name + q) + (COLON + (q + value2 + q));
    assert Pair(name, value) + tail == q + name + q + COLON + q + value2 + q + tail;
  }

  lemma PairBytes(name: Text, value: Text, tail: Text)
    requires name == S || name == K || name == I
    ensures |EncodeChars(Pair(name, value) + tail)| <= 6 + 6 * |value| + |EncodeChars(tail)|
  {
    var head, q: Text := PairHead(name), [QUOTE];
    assert name[1..] == [];
    AsciiBytes(head);
    AsciiBytes(q);
    EscapedBytes(value);
    PairShape(name, value, tail);
    assert |head| == 5;
    hide *;
    EncodeJoins(head, Escaped(value) + (q + tail));
    EncodeJoins(Escaped(value), q + tail);
    EncodeJoins(q, tail);
  }

  lemma PayloadBytes(p: Position)
    ensures |EncodeChars(Payload(p))| <= 22 + 6 * (|p.sort| + |p.key| + |p.id|)
  {
    var third := Pair(I, p.id) + CLOSE;
    var second := Pair(K, p.key) + (COMMA + third);
    var first := Pair(S, p.sort) + (COMMA + second);
    assert Payload(p) == OPEN + first;
    AsciiBytes(OPEN);
    AsciiBytes(CLOSE);
    AsciiBytes(COMMA);
    hide Pair, EncodeChars, Payload;
    PairBytes(I, p.id, CLOSE);
    EncodeJoins(COMMA, third);
    PairBytes(K, p.key, COMMA + third);
    EncodeJoins(COMMA, second);
    PairBytes(S, p.sort, COMMA + second);
    EncodeJoins(OPEN, first);
  }

  /**
    Any path of up to 1024 characters and any id of up to 245, of whatever characters, fit
    the bound on cursors in each of the orders.
   */
  lemma IssuedTokensFit(p: Position)
    requires p.sort in {Ascii("path"), Ascii("updated"), Ascii("created"), Ascii("title")}
    requires |p.key| <= 1024 && |p.id| <= 245 && EncodeCursor(p).Some?
    ensures |EncodeCursor(p).value| <= MAX_CURSOR_CHARS
  {
    PayloadBytes(p);
    PaddingReturns(EncodeChars(Payload(p)));
    hide Payload, EncodeChars, Encode64, StripPad, AddPad;
  }
}
