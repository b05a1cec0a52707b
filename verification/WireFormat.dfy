/**
 The messages of the peer wire protocol (BEP 3, "peer protocol" and "peer messages"; BEP 10 for the
 extended ones) and their serialised form: a length header, a type header, and the type's own fields.
 */
module WireFormat {
  import opened Words
  import opened Lists

  type Byte = x: int | 0 <= x < 256
  type Bytes = seq<Byte>

  const LENGTH_HEADER := 4

  // ----- 32-bit integers in network byte order -----

  /** The number with the given base-256 digits. */
  function FromDigits(a: Byte, b: Byte, c: Byte, d: Byte): (v: nat)
    ensures v < U32
  {
    a * 0x100_0000 + b * 0x1_0000 + c * 0x100 + d
  }

  function DigitsOf(v: nat): (Byte, Byte, Byte, Byte)
    requires v < U32
  {
    (v / 0x100_0000, v / 0x1_0000 % 256, v / 0x100 % 256, v % 256)
  }

  lemma DigitsInverse(v: nat)
    requires v < U32
    ensures var (a, b, c, d) := DigitsOf(v); FromDigits(a, b, c, d) == v
  {
    assert v / 0x100 == (v / 0x1_0000) * 256 + v / 0x100 % 256;
    assert v / 0x1_0000 == (v / 0x100_0000) * 256 + v / 0x1_0000 % 256;
  }

  lemma LastDigit(q: nat, r: Byte)
    ensures (q * 0x100 + r) / 0x100 == q && (q * 0x100 + r) % 0x100 == r
  {
  }

  lemma DivideTwice(v: nat)
    ensures v / 0x1_0000 == v / 0x100 / 0x100 && v / 0x100_0000 == v / 0x100 / 0x100 / 0x100
  {
  }

  lemma DigitsUnique(a: Byte, b: Byte, c: Byte, d: Byte)
    ensures DigitsOf(FromDigits(a, b, c, d)) == (a, b, c, d)
  {
    DivideTwice(FromDigits(a, b, c, d));
    LastDigit(a * 0x1_0000 + b * 0x100 + c, d);
    LastDigit(a * 0x100 + b, c);
    LastDigit(a, b);
  }

  function WriteU32(v: nat): (s: Bytes)
    requires v < U32
    ensures |s| == 4
  {
    var (a, b, c, d) := DigitsOf(v);
    [a, b, c, d]
  }

  function ReadU32(s: Bytes): (v: nat)
    requires |s| >= 4
    ensures v < U32
  {
    FromDigits(s[0], s[1], s[2], s[3])
  }

  lemma ReadAfterWrite(v: nat, rest: Bytes)
    requires v < U32
    ensures ReadU32(WriteU32(v) + rest) == v
  {
    hide DigitsOf, FromDigits;
    DigitsInverse(v);
  }

  lemma WriteAfterRead(s: Bytes)
    requires |s| >= 4
    ensures WriteU32(ReadU32(s)) == s[..4]
  {
    hide DigitsOf, FromDigits;
    DigitsUnique(s[0], s[1], s[2], s[3]);
  }

  lemma ReadOfPrefix(s: Bytes, t: Bytes)
    requires |s| >= 4
    ensures ReadU32(s + t) == ReadU32(s) == ReadU32(s[..4])
  {
    hide FromDigits;
  }

  /** The most significant byte goes first; no other four bytes stand for the number. */
  lemma NetworkOrder(v: nat, s: Bytes)
    requires v < U32 && |s| == 4
    ensures var (a: int, b: int, c: int, d: int) := (s[0], s[1], s[2], s[3]);
      var sum := a * 0x100_0000 + b * 0x1_0000 + c * 0x100 + d;
      (s == WriteU32(v) <==> sum == v) && ReadU32(s) == sum
  {
    WriteAfterRead(s);
    ReadAfterWrite(v, []);
    assert WriteU32(v) + [] == WriteU32(v) && s[..4] == s;
    hide WriteU32;
  }

  // ----- Messages -----

  datatype Message =
    | KeepAlive
    | Choke
    | Unchoke
    | Interested
    | NotInterested
    | Have(piece: nat)
    | Bitfield(bits: Bytes)
    | Request(piece: nat, offset: nat, length: nat)
    | Piece(index: nat, begin: nat, block: Bytes)
    | Cancel(piece: nat, offset: nat, length: nat)
    | Extended(id: Byte, content: Bytes)
  {
    /** The type header; a keep-alive has none. */
    function Type(): Byte
      requires !KeepAlive?
    {
      match this
      case Choke => 0
      case Unchoke => 1
      case Interested => 2
      case NotInterested => 3
      case Have(_) => 4
      case Bitfield(_) => 5
      case Request(_, _, _) => 6
      case Piece(_, _, _) => 7
      case Cancel(_, _, _) => 8
      case Extended(_, _) => 20
    }

    /** Every number fits its field, and the length its header. */
    predicate Encodable() {
      match this
      case Have(p) => p < U32
      case Bitfield(bits) => 1 + |bits| < U32
      case Request(p, o, n) => p < U32 && o < U32 && n < U32
      case Piece(p, o, block) => p < U32 && o < U32 && 9 + |block| < U32
      case Cancel(p, o, n) => p < U32 && o < U32 && n < U32
      case Extended(_, content) => 2 + |content| < U32
      case _ => true
    }

    function Payload(): Bytes
      requires Encodable()
    {
      match this
      case Have(p) => WriteU32(p)
      case Bitfield(bits) => bits
      case Request(p, o, n) => WriteU32(p) + WriteU32(o) + WriteU32(n)
      case Piece(p, o, block) => WriteU32(p) + WriteU32(o) + block
      case Cancel(p, o, n) => WriteU32(p) + WriteU32(o) + WriteU32(n)
      case Extended(id, content) => [id] + content
      case _ => []
    }

    /** The value the sender puts into the length header. */
    function DeclaredLength(): nat {
      match this
      case KeepAlive => 0
      case Have(_) => 5
      case Bitfield(bits) => 1 + |bits|
      case Request(_, _, _) => 13
      case Piece(_, _, block) => 9 + |block|
      case Cancel(_, _, _) => 13
      case Extended(_, content) => 1 + (|content| + 1)
      case _ => 1
    }

    /** What follows the length header. */
    function Body(): Bytes
      requires Encodable()
    {
      if KeepAlive? then [] else [Type()] + Payload()
    }

    /** The packet: the three headers a sender puts together. */
    function Serialize(): Bytes
      requires Encodable()
    {
      WriteU32(DeclaredLength()) + Body()
    }
  }

  /** The declared length is the number of bytes that follow it. */
  lemma DeclaredLengthIsBody(m: Message)
    requires m.Encodable()
    ensures |m.Body()| == m.DeclaredLength()
    ensures |m.Serialize()| == LENGTH_HEADER + m.DeclaredLength()
  {
  }

  /** The bytes of the messages without numbers of their own. */
  lemma BytesOfStates()
    ensures KeepAlive.Serialize() == [0, 0, 0, 0]
    ensures Choke.Serialize() == [0, 0, 0, 1, 0] && Unchoke.Serialize() == [0, 0, 0, 1, 1]
    ensures Interested.Serialize() == [0, 0, 0, 1, 2] && NotInterested.Serialize() == [0, 0, 0, 1, 3]
  {
    SmallNumbers();
    hide WriteU32;
  }

  /** The bytes of the messages that ask for blocks or announce pieces. */
  lemma BytesOfNumbers(n: nat, o: nat, l: nat)
    requires n < U32 && o < U32 && l < U32
    ensures Have(n).Serialize() == [0, 0, 0, 5, 4] + WriteU32(n)
    ensures Request(n, o, l).Serialize() == [0, 0, 0, 13, 6] + WriteU32(n) + WriteU32(o) + WriteU32(l)
    ensures Cancel(n, o, l).Serialize() == [0, 0, 0, 13, 8] + WriteU32(n) + WriteU32(o) + WriteU32(l)
  {
    SmallNumbers();
    hide WriteU32;
    assert [0, 0, 0, 5] + ([4] + WriteU32(n)) == [0, 0, 0, 5, 4] + WriteU32(n);
    Headed(13, 6, WriteU32(n), WriteU32(o), WriteU32(l));
    Headed(13, 8, WriteU32(n), WriteU32(o), WriteU32(l));
  }

  lemma Headed(length: Byte, t: Byte, a: Bytes, b: Bytes, c: Bytes)
    ensures [0, 0, 0, length] + ([t] + (a + b + c)) == [0, 0, 0, length, t] + a + b + c
  {
  }

  /** The bytes of the messages that carry data. */
  lemma BytesOfData(n: nat, o: nat, id: Byte, data: Bytes)
    requires n < U32 && o < U32 && 9 + |data| < U32
    ensures Bitfield(data).Serialize() == WriteU32(1 + |data|) + [5] + data
    ensures Piece(n, o, data).Serialize() == WriteU32(9 + |data|) + [7] + WriteU32(n) + WriteU32(o) + data
    ensures Extended(id, data).Serialize() == WriteU32(2 + |data|) + [20, id] + data
  {
    hide WriteU32;
    Regrouped(WriteU32(1 + |data|), [5], data);
    assert [7] + WriteU32(n) + WriteU32(o) + data == [7] + (WriteU32(n) + WriteU32(o) + data);
    Regrouped(WriteU32(9 + |data|), [7] + WriteU32(n) + WriteU32(o), data);
    assert WriteU32(9 + |data|) + ([7] + WriteU32(n) + WriteU32(o)) == WriteU32(9 + |data|) + [7] + WriteU32(n) + WriteU32(o);
    assert [20] + ([id] + data) == [20, id] + data;
    Regrouped(WriteU32(2 + |data|), [20, id], data);
  }

  lemma Regrouped(a: Bytes, b: Bytes, c: Bytes)
    ensures a + (b + c) == a + b + c
  {
  }

  lemma SmallNumbers()
    ensures WriteU32(0) == [0, 0, 0, 0] && WriteU32(1) == [0, 0, 0, 1]
    ensures WriteU32(5) == [0, 0, 0, 5] && WriteU32(13) == [0, 0, 0, 13]
  {
  }

  /** What a receiver that knows the size of the bitfield may be sent. */
  predicate WellFormed(m: Message, bitfieldSize: nat) {
    && m.Encodable()
    && match m
       case Have(p) => p < 8 * bitfieldSize
       case Bitfield(bits) => |bits| == bitfieldSize
       case Extended(_, content) => content != []
       case _ => true
  }

  // ----- Reading a message back -----

  /** The message of the given type with the given fields, if they are well-formed. */
  function ParseFields(t: nat, fields: Bytes, bitfieldSize: nat): Option<Message> {
    if t == 0 && fields == [] then Some(Choke)
    else if t == 1 && fields == [] then Some(Unchoke)
    else if t == 2 && fields == [] then Some(Interested)
    else if t == 3 && fields == [] then Some(NotInterested)
    else if t == 4 && |fields| == 4 && ReadU32(fields) < 8 * bitfieldSize then Some(Have(ReadU32(fields)))
    else if t == 5 && |fields| == bitfieldSize then Some(Bitfield(fields))
    else if t == 6 && |fields| == 12 then Some(Request(ReadU32(fields), ReadU32(fields[4..]), ReadU32(fields[8..])))
    else if t == 7 && |fields| >= 8 then Some(Piece(ReadU32(fields), ReadU32(fields[4..]), fields[8..]))
    else if t == 8 && |fields| == 12 then Some(Cancel(ReadU32(fields), ReadU32(fields[4..]), ReadU32(fields[8..])))
    else if t == 20 && |fields| > 1 then Some(Extended(fields[0], fields[1..]))
    else None
  }

  /** The message with the given body. */
  function ParseBody(body: Bytes, bitfieldSize: nat): Option<Message> {
    if body == [] then Some(KeepAlive) else ParseFields(body[0], body[1..], bitfieldSize)
  }

  lemma ParsedWellFormed(body: Bytes, bitfieldSize: nat)
    requires |body| < U32 && ParseBody(body, bitfieldSize).Some?
    ensures WellFormed(ParseBody(body, bitfieldSize).value, bitfieldSize)
  {
    hide ReadU32;
  }

  lemma ReadThreeFields(a: nat, b: nat, c: nat)
    requires a < U32 && b < U32 && c < U32
    ensures var s := WriteU32(a) + WriteU32(b) + WriteU32(c);
            |s| == 12 && ReadU32(s) == a && ReadU32(s[4..]) == b && ReadU32(s[8..]) == c
  {
    hide WriteU32, ReadU32;
    var s := WriteU32(a) + WriteU32(b) + WriteU32(c);
    ReadAfterWrite(a, WriteU32(b) + WriteU32(c));
    ReadAfterWrite(b, WriteU32(c));
    ReadAfterWrite(c, []);
    assert s == WriteU32(a) + (WriteU32(b) + WriteU32(c));
    assert s[4..] == WriteU32(b) + WriteU32(c);
    assert s[8..] == WriteU32(c) + [];
  }

  lemma ReadPieceFields(a: nat, b: nat, block: Bytes)
    requires a < U32 && b < U32
    ensures var s := WriteU32(a) + WriteU32(b) + block;
            ReadU32(s) == a && ReadU32(s[4..]) == b && s[8..] == block
  {
    hide WriteU32, ReadU32;
    var s := WriteU32(a) + WriteU32(b) + block;
    ReadAfterWrite(a, WriteU32(b) + block);
    ReadAfterWrite(b, block);
    assert s == WriteU32(a) + (WriteU32(b) + block);
    assert s[4..] == WriteU32(b) + block;
  }

  lemma ParseNumbers(m: Message, bitfieldSize: nat)
    requires WellFormed(m, bitfieldSize) && (m.Request? || m.Cancel? || m.Piece? || m.Have?)
    ensures ParseFields(m.Type(), m.Payload(), bitfieldSize) == Some(m)
  {
    hide WriteU32, ReadU32;
    if m.Have? {
      ReadAfterWrite(m.piece, []);
      assert WriteU32(m.piece) + [] == WriteU32(m.piece);
    } else if m.Piece? {
      ReadPieceFields(m.index, m.begin, m.block);
    } else {
      ReadThreeFields(m.piece, m.offset, m.length);
    }
  }

  lemma ParsePayload(m: Message, bitfieldSize: nat)
    requires WellFormed(m, bitfieldSize) && !m.KeepAlive?
    ensures ParseFields(m.Type(), m.Payload(), bitfieldSize) == Some(m)
  {
    hide WriteU32, ReadU32;
    if m.Request? || m.Cancel? || m.Piece? || m.Have? {
      ParseNumbers(m, bitfieldSize);
    }
  }

  /** Decoding undoes encoding, for every well-formed message. */
  lemma ParseSerialized(m: Message, bitfieldSize: nat)
    requires WellFormed(m, bitfieldSize)
    ensures |m.Body()| < U32 && ParseBody(m.Body(), bitfieldSize) == Some(m)
  {
    DeclaredLengthIsBody(m);
    hide WellFormed, ParseFields, Message.Type, Message.Payload;
    if !m.KeepAlive? {
      ParsePayload(m, bitfieldSize);
      assert m.Body()[1..] == m.Payload();
    }
  }

  /** Cutting a field list at its 4-byte boundaries. */
  lemma FieldsRejoin(s: Bytes)
    requires |s| >= 8
    ensures WriteU32(ReadU32(s)) + WriteU32(ReadU32(s[4..])) + s[8..] == s
    ensures |s| == 12 ==> WriteU32(ReadU32(s[8..])) == s[8..]
  {
    hide WriteU32, ReadU32;
    WriteAfterRead(s);
    WriteAfterRead(s[4..]);
    assert s == s[..4] + s[4..][..4] + s[8..];
    if |s| == 12 {
      WriteAfterRead(s[8..]);
      assert s[8..][..4] == s[8..];
    }
  }

  /** And encoding undoes decoding: a body stands for one message only. */
  lemma SerializeParsed(body: Bytes, bitfieldSize: nat)
    requires |body| < U32 && ParseBody(body, bitfieldSize).Some?
    ensures var m := ParseBody(body, bitfieldSize).value; m.Encodable() && m.Body() == body
  {
    if body != [] {
      assert body == [body[0]] + body[1..];
      FieldsParsed(body[0], body[1..], bitfieldSize);
    }
  }

  lemma FieldsParsed(t: nat, fields: Bytes, bitfieldSize: nat)
    requires |fields| + 1 < U32 && ParseFields(t, fields, bitfieldSize).Some?
    ensures var m := ParseFields(t, fields, bitfieldSize).value;
            !m.KeepAlive? && m.Encodable() && m.Type() == t && m.Payload() == fields
  {
    hide WriteU32, ReadU32;
    if t == 4 {
      WriteAfterRead(fields);
      assert fields[..4] == fields;
    } else if t == 6 || t == 7 || t == 8 {
      FieldsRejoin(fields);
    } else if t == 20 {
      assert fields == [fields[0]] + fields[1..];
    }
  }
}
