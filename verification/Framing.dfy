/**
 The byte stream between two peers: messages one after the other, and what of a stream can be decoded.
 */
module Framing {
  import opened Lists
  import opened WireFormat

  ghost predicate AllWellFormed(ms: seq<Message>, size: nat) {
    forall m :: m in ms ==> WellFormed(m, size)
  }

  ghost predicate AllEncodable(ms: seq<Message>) {
    forall m :: m in ms ==> m.Encodable()
  }

  ghost function SerializeAll(ms: seq<Message>): Bytes
    requires AllEncodable(ms)
  {
    if ms == [] then [] else ms[0].Serialize() + SerializeAll(ms[1..])
  }

  /** The end of the first complete message of a stream, if there is one. */
  function FrameEnd(s: Bytes): (n: Option<nat>)
    ensures n.Some? ==> LENGTH_HEADER <= n.value <= |s|
  {
    if |s| < LENGTH_HEADER || |s| < LENGTH_HEADER + ReadU32(s) then None
    else Some(LENGTH_HEADER + ReadU32(s))
  }

  /** Every complete message of the stream is well-formed; an incomplete tail may be anything. */
  ghost predicate Decodable(s: Bytes, size: nat)
    decreases |s|
  {
    match FrameEnd(s)
    case None => true
    case Some(n) => ParseBody(s[LENGTH_HEADER..n], size).Some? && Decodable(s[n..], size)
  }

  /** The complete messages of a stream, in order. */
  ghost function Messages(s: Bytes, size: nat): seq<Message>
    requires Decodable(s, size)
    decreases |s|
  {
    match FrameEnd(s)
    case None => []
    case Some(n) => [ParseBody(s[LENGTH_HEADER..n], size).value] + Messages(s[n..], size)
  }

  /** What is left of a stream behind its last complete message. */
  ghost function Remainder(s: Bytes): Bytes
    decreases |s|
  {
    match FrameEnd(s)
    case None => s
    case Some(n) => Remainder(s[n..])
  }

  /** One unfolding of the three definitions. */
  lemma DecodeFirst(s: Bytes, size: nat)
    ensures FrameEnd(s).None? ==> Decodable(s, size) && Messages(s, size) == [] && Remainder(s) == s
    ensures FrameEnd(s).Some? ==>
      var n := FrameEnd(s).value;
      && (Decodable(s, size) <==> ParseBody(s[LENGTH_HEADER..n], size).Some? && Decodable(s[n..], size))
      && (Decodable(s, size) ==>
            Messages(s, size) == [ParseBody(s[LENGTH_HEADER..n], size).value] + Messages(s[n..], size))
      && Remainder(s) == Remainder(s[n..])
  {
    hide FrameEnd, ParseBody;
  }

  lemma FrameOfSerialized(m: Message, t: Bytes)
    requires m.Encodable()
    ensures var s := m.Serialize() + t;
            && FrameEnd(s) == Some(|m.Serialize()|)
            && s[LENGTH_HEADER..|m.Serialize()|] == m.Body() && s[|m.Serialize()|..] == t
  {
    DeclaredLengthIsBody(m);
    var s := m.Serialize() + t;
    assert s == WriteU32(m.DeclaredLength()) + (m.Body() + t);
    ReadAfterWrite(m.DeclaredLength(), m.Body() + t);
    hide WriteU32, ReadU32, Message.Encodable, Message.Body, Message.DeclaredLength;
  }

  /** A stream of well-formed messages, followed by an incomplete one, decodes to exactly these messages. */
  lemma {:induction false} DecodeSerialized(ms: seq<Message>, t: Bytes, size: nat)
    requires AllWellFormed(ms, size) && AllEncodable(ms) && FrameEnd(t) == None
    ensures var s := SerializeAll(ms) + t;
            Decodable(s, size) && Messages(s, size) == ms && Remainder(s) == t
  {
    hide WellFormed, Message.Serialize, Message.Encodable, FrameEnd, ParseBody, Decodable, Messages, Remainder;
    if ms == [] {
      assert SerializeAll(ms) + t == t;
      DecodeFirst(t, size);
    } else {
      var tail := SerializeAll(ms[1..]) + t;
      assert SerializeAll(ms) + t == ms[0].Serialize() + tail;
      ParseSerialized(ms[0], size);
      FrameOfSerialized(ms[0], tail);
      DecodeFirst(ms[0].Serialize() + tail, size);
      DecodeSerialized(ms[1..], t, size);
    }
  }

  /** Decoding goes on where it stopped: earlier messages stay, the remainder is decoded with what follows. */
  lemma {:induction false} DecodeContinues(s: Bytes, t: Bytes, size: nat)
    requires Decodable(s, size)
    ensures Decodable(s + t, size) <==> Decodable(Remainder(s) + t, size)
    ensures Decodable(s + t, size) ==> Messages(s + t, size) == Messages(s, size) + Messages(Remainder(s) + t, size)
    ensures Remainder(s + t) == Remainder(Remainder(s) + t)
    decreases |s|
  {
    hide FrameEnd, ParseBody, Decodable, Messages, Remainder;
    DecodeFirst(s, size);
    if FrameEnd(s).Some? {
      var n := FrameEnd(s).value;
      FrameStays(s, t);
      assert (s + t)[n..] == s[n..] + t;
      assert (s + t)[LENGTH_HEADER..n] == s[LENGTH_HEADER..n];
      DecodeFirst(s + t, size);
      DecodeContinues(s[n..], t, size);
    }
  }

  lemma FrameStays(s: Bytes, t: Bytes)
    requires FrameEnd(s).Some?
    ensures FrameEnd(s + t) == FrameEnd(s)
  {
    ReadOfPrefix(s, t);
    hide ReadU32;
  }

  lemma {:induction false} RemainderIncomplete(s: Bytes)
    ensures FrameEnd(Remainder(s)) == None
    decreases |s|
  {
    hide ReadU32;
    if FrameEnd(s).Some? {
      RemainderIncomplete(s[FrameEnd(s).value..]);
    }
  }

  /** Whatever precedes in a decodable stream is decodable. */
  lemma {:induction false} DecodableStart(s: Bytes, t: Bytes, size: nat)
    requires Decodable(s + t, size)
    ensures Decodable(s, size)
    decreases |s|
  {
    hide FrameEnd, ParseBody, Decodable, Messages, Remainder;
    DecodeFirst(s, size);
    if FrameEnd(s).Some? {
      var n := FrameEnd(s).value;
      FrameStays(s, t);
      assert (s + t)[n..] == s[n..] + t;
      assert (s + t)[LENGTH_HEADER..n] == s[LENGTH_HEADER..n];
      DecodeFirst(s + t, size);
      DecodableStart(s[n..], t, size);
    }
  }

  lemma FirstFrame(s: Bytes, size: nat, n: nat)
    requires FrameEnd(s) == Some(n) && ParseBody(s[LENGTH_HEADER..n], size).Some?
    ensures var m := ParseBody(s[LENGTH_HEADER..n], size).value;
            m.Encodable() && WellFormed(m, size) && m.Serialize() == s[..n]
  {
    var body := s[LENGTH_HEADER..n];
    SerializeParsed(body, size);
    ParsedWellFormed(body, size);
    DeclaredLengthIsBody(ParseBody(body, size).value);
    WriteAfterRead(s);
    hide ParseBody, WellFormed, WriteU32, ReadU32, Message.Body, Message.DeclaredLength, Message.Encodable;
    assert s[..n] == s[..4] + body;
  }

  /** A decodable stream is its messages, serialised again, and its remainder: no byte is lost or added. */
  lemma {:induction false} StreamConserved(s: Bytes, size: nat)
    requires Decodable(s, size)
    ensures AllWellFormed(Messages(s, size), size) && AllEncodable(Messages(s, size))
    ensures s == SerializeAll(Messages(s, size)) + Remainder(s)
    decreases |s|
  {
    hide FrameEnd, ParseBody, WellFormed, Message.Encodable, Message.Serialize, Decodable, Messages, Remainder;
    DecodeFirst(s, size);
    if FrameEnd(s).Some? {
      var n := FrameEnd(s).value;
      FirstFrame(s, size, n);
      StreamConserved(s[n..], size);
      var m, rest := ParseBody(s[LENGTH_HEADER..n], size).value, Messages(s[n..], size);
      WellFormedPrepend(m, rest, size);
      SerializeAllPrepend(m, rest);
      hide SerializeAll, AllWellFormed, AllEncodable;
      assert s == s[..n] + s[n..];
      assert SerializeAll([m] + rest) + Remainder(s) == m.Serialize() + (SerializeAll(rest) + Remainder(s));
    }
  }

  lemma WellFormedPrepend(m: Message, ms: seq<Message>, size: nat)
    requires WellFormed(m, size) && AllWellFormed(ms, size)
    ensures AllWellFormed([m] + ms, size)
  {
    hide WellFormed;
  }

  lemma SerializeAllPrepend(m: Message, ms: seq<Message>)
    requires m.Encodable() && AllEncodable(ms)
    ensures AllEncodable([m] + ms) && SerializeAll([m] + ms) == m.Serialize() + SerializeAll(ms)
  {
    assert ([m] + ms)[1..] == ms;
  }

  /** Every prefix of a stream of well-formed messages is decodable, to a prefix of the messages. */
  lemma {:induction false} PrefixDecodable(ms: seq<Message>, p: Bytes, size: nat)
    requires AllWellFormed(ms, size) && AllEncodable(ms) && p <= SerializeAll(ms)
    ensures Decodable(p, size) && Messages(p, size) <= ms
  {
    EmptyHasNoFrame();
    hide WellFormed, Message.Serialize, Message.Encodable, FrameEnd, ParseBody, Decodable, Messages, Remainder;
    DecodeFirst(p, size);
    if FrameEnd(p).Some? {
      var all, tail, n := SerializeAll(ms), SerializeAll(ms[1..]), |ms[0].Serialize()|;
      FrameOfSerialized(ms[0], tail);
      ParseSerialized(ms[0], size);
      assert all == p + all[|p|..];
      FrameStays(p, all[|p|..]);
      assert p[LENGTH_HEADER..n] == all[LENGTH_HEADER..n];
      assert p[n..] <= all[n..];
      PrefixDecodable(ms[1..], p[n..], size);
    }
  }

  lemma EmptyHasNoFrame()
    ensures FrameEnd([]) == None
  {
  }
}
