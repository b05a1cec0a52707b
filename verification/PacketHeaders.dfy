/**
 The headers of the wire protocol as objects that are written to, and read from, a buffer, and the
 packets that the senders put together from them.
 */
module PacketHeaders {
  import opened Words
  import opened WireFormat

  /** Writes one number after the other. */
  class Writer {
    var bytes: Bytes

    constructor ()
      ensures bytes == []
    {
      bytes := [];
    }

    method WriteU8(b: Byte)
      modifies this
      ensures bytes == old(bytes) + [b]
    {
      bytes := bytes + [b];
    }

    method WriteHtonU32(v: nat)
      requires v < U32
      modifies this
      ensures bytes == old(bytes) + WriteU32(v)
    {
      bytes := bytes + WriteU32(v);
    }

    method Write(data: array<Byte>)
      modifies this
      ensures bytes == old(bytes) + data[..]
    {
      bytes := bytes + data[..];
    }
  }

  /** Reads one number after the other. */
  class Reader {
    const bytes: Bytes
    var pos: nat

    constructor (bytes: Bytes)
      ensures this.bytes == bytes && pos == 0
    {
      this.bytes, pos := bytes, 0;
    }

    method ReadNtohU32() returns (v: nat)
      requires pos + 4 <= |bytes|
      modifies this
      ensures v == ReadU32(bytes[old(pos)..]) && v < U32 && pos == old(pos) + 4
    {
      v := ReadU32(bytes[pos..]);
      pos := pos + 4;
    }

    method Read(target: array<Byte>)
      requires pos + target.Length <= |bytes|
      modifies this, target
      ensures target[..] == bytes[old(pos)..old(pos) + target.Length] && pos == old(pos) + target.Length
    {
      for i := 0 to target.Length
        invariant pos == old(pos) && target[..i] == bytes[pos..pos + i]
      {
        target[i] := bytes[pos + i];
      }
      pos := pos + target.Length;
    }
  }

  /** The length header, and the header of `have` messages: one number. */
  class NumberHeader {
    var value: nat

    constructor (value: nat)
      ensures this.value == value
    {
      this.value := value;
    }

    method Serialize(start: Writer)
      requires value < U32
      modifies start
      ensures start.bytes == old(start.bytes) + WriteU32(value)
    {
      start.WriteHtonU32(value);
    }

    method Deserialize(start: Reader) returns (size: nat)
      requires start.pos + 4 <= |start.bytes|
      modifies this, start
      ensures value == ReadU32(start.bytes[old(start.pos)..]) && size == 4 && start.pos == old(start.pos) + size
    {
      value := start.ReadNtohU32();
      size := 4;
    }
  }

  /** The header of `request` and `cancel` messages. */
  class BlockHeader {
    var pieceIndex: nat
    var blockOffset: nat
    var blockLength: nat

    constructor (pieceIndex: nat, blockOffset: nat, blockLength: nat)
      ensures this.pieceIndex == pieceIndex && this.blockOffset == blockOffset && this.blockLength == blockLength
    {
      this.pieceIndex, this.blockOffset, this.blockLength := pieceIndex, blockOffset, blockLength;
    }

    method Serialize(start: Writer)
      requires pieceIndex < U32 && blockOffset < U32 && blockLength < U32
      modifies start
      ensures start.bytes == old(start.bytes) + (WriteU32(pieceIndex) + WriteU32(blockOffset) + WriteU32(blockLength))
    {
      hide WriteU32;
      start.WriteHtonU32(pieceIndex);
      start.WriteHtonU32(blockOffset);
      start.WriteHtonU32(blockLength);
    }

    method Deserialize(start: Reader) returns (size: nat)
      requires start.pos + 12 <= |start.bytes|
      modifies this, start
      ensures var s := start.bytes[old(start.pos)..];
              pieceIndex == ReadU32(s) && blockOffset == ReadU32(s[4..]) && blockLength == ReadU32(s[8..])
      ensures size == 12 && start.pos == old(start.pos) + size
    {
      hide ReadU32;
      ghost var s := start.bytes[start.pos..];
      assert s[4..] == start.bytes[start.pos + 4..] && s[8..] == start.bytes[start.pos + 8..];
      pieceIndex := start.ReadNtohU32();
      blockOffset := start.ReadNtohU32();
      blockLength := start.ReadNtohU32();
      size := 12;
    }
  }

  /** The header of a `bitfield` message. The copy loops count in 8 bits. */
  class BitfieldHeader {
    const bitField: array<Byte>

    constructor (bitFieldSize: nat)
      ensures fresh(bitField) && bitField.Length == bitFieldSize
    {
      bitField := new Byte[bitFieldSize](_ => 0);
    }

    method CopyBitFieldFrom(source: array<Byte>)
      requires bitField.Length < 256 && source.Length >= bitField.Length && source != bitField
      modifies bitField
      ensures bitField[..] == source[..bitField.Length]
    {
      var i := 0;
      while i < bitField.Length
        invariant 0 <= i <= bitField.Length && bitField[..i] == source[..i]
        decreases bitField.Length - i
      {
        bitField[i] := source[i];
        i := (i + 1) % 256;
      }
    }

    method CopyBitFieldTo(target: array<Byte>)
      requires bitField.Length < 256 && target.Length >= bitField.Length && target != bitField
      modifies target
      ensures target[..bitField.Length] == bitField[..]
      ensures target[bitField.Length..] == old(target[bitField.Length..])
    {
      var i := 0;
      while i < bitField.Length
        invariant 0 <= i <= bitField.Length && target[..i] == bitField[..i]
        invariant target[bitField.Length..] == old(target[bitField.Length..])
        decreases bitField.Length - i
      {
        target[i] := bitField[i];
        i := (i + 1) % 256;
      }
    }

    method Serialize(start: Writer)
      modifies start
      ensures start.bytes == old(start.bytes) + bitField[..]
    {
      start.Write(bitField);
    }

    method Deserialize(start: Reader) returns (size: nat)
      requires start.pos + bitField.Length <= |start.bytes|
      modifies bitField, start
      ensures bitField[..] == start.bytes[old(start.pos)..old(start.pos) + bitField.Length]
      ensures size == bitField.Length && start.pos == old(start.pos) + size
    {
      start.Read(bitField);
      size := bitField.Length;
    }
  }

  // ----- Packets: the message, then the type, then the length go in front of what is there -----

  /** Put the type and length headers in front of a message. */
  method WithHeaders(declaredLength: nat, messageType: Byte, fields: Bytes) returns (packet: Bytes)
    requires declaredLength < U32
    ensures packet == WriteU32(declaredLength) + ([messageType] + fields)
  {
    var typeHead := new Writer();
    var lenHead := new Writer();
    typeHead.WriteU8(messageType);
    packet := typeHead.bytes + fields;
    lenHead.WriteHtonU32(declaredLength);
    packet := lenHead.bytes + packet;
  }

  method RequestPacket(pieceIndex: nat, blockOffSet: nat, blockLength: nat) returns (packet: Bytes)
    requires pieceIndex < U32 && blockOffSet < U32 && blockLength < U32
    ensures packet == Request(pieceIndex, blockOffSet, blockLength).Serialize()
  {
    hide WriteU32;
    var reqMsg := new BlockHeader(pieceIndex, blockOffSet, blockLength);
    var w := new Writer();
    reqMsg.Serialize(w);
    packet := WithHeaders(13, 6, w.bytes);
  }

  method CancelPacket(pieceIndex: nat, blockOffSet: nat, blockLength: nat) returns (packet: Bytes)
    requires pieceIndex < U32 && blockOffSet < U32 && blockLength < U32
    ensures packet == Cancel(pieceIndex, blockOffSet, blockLength).Serialize()
  {
    hide WriteU32;
    var canMsg := new BlockHeader(pieceIndex, blockOffSet, blockLength);
    var w := new Writer();
    canMsg.Serialize(w);
    packet := WithHeaders(13, 8, w.bytes);
  }

  method HavePacket(pieceIndex: nat) returns (packet: Bytes)
    requires pieceIndex < U32
    ensures packet == Have(pieceIndex).Serialize()
  {
    hide WriteU32;
    var haveMsg := new NumberHeader(pieceIndex);
    var w := new Writer();
    haveMsg.Serialize(w);
    packet := WithHeaders(5, 4, w.bytes);
  }

  method BitfieldPacket(field: array<Byte>) returns (packet: Bytes)
    requires field.Length < 256
    ensures Bitfield(field[..]).Encodable() && packet == Bitfield(field[..]).Serialize()
  {
    hide WriteU32;
    var bitFMsg := new BitfieldHeader(field.Length);
    var w := new Writer();
    bitFMsg.CopyBitFieldFrom(field);
    bitFMsg.Serialize(w);
    packet := WithHeaders(1 + field.Length, 5, w.bytes);
  }

  method ExtensionPacket(messageId: Byte, content: Bytes) returns (packet: Bytes)
    requires 2 + |content| < U32
    ensures packet == Extended(messageId, content).Serialize()
  {
    hide WriteU32;
    var w := new Writer();
    w.WriteU8(messageId);
    packet := WithHeaders(1 + (|content| + 1), 20, w.bytes + content);
  }

  /** The fields of a block message come back as they were written, and the reader stands behind them. */
  method ReadBack(p: nat, o: nat, n: nat, rest: Bytes) returns (h: BlockHeader, r: Reader)
    requires p < U32 && o < U32 && n < U32
    ensures h.pieceIndex == p && h.blockOffset == o && h.blockLength == n && r.pos == 12
    ensures |r.bytes| >= 12 && r.bytes[12..] == rest
  {
    hide WriteU32, ReadU32;
    var h0 := new BlockHeader(p, o, n);
    var w := new Writer();
    h0.Serialize(w);
    r := new Reader(w.bytes + rest);
    h := new BlockHeader(0, 0, 0);
    assert w.bytes == WriteU32(p) + WriteU32(o) + WriteU32(n);
    ReadThreeFields(p, o, n);
    ReadOfPrefix(w.bytes, rest);
    ReadOfPrefix(w.bytes[4..], rest);
    ReadOfPrefix(w.bytes[8..], rest);
    assert r.bytes[0..] == w.bytes + rest;
    assert r.bytes[4..] == w.bytes[4..] + rest;
    assert r.bytes[8..] == w.bytes[8..] + rest;
    var _ := h.Deserialize(r);
  }
}
