/**
 The receiving half of a peer connection, from the connected state on: a state machine that is fed
 chunks of the TCP stream of any size and takes one header, or one message, off its buffer at a time.
 */
module PeerReceive {
  import opened Words
  import opened Lists
  import opened WireFormat
  import opened Framing
  import Bitfields

  /** The events raised with the client, in order; a `cancel` goes to the sending half (`PeerSend`). */
  datatype Event =
    | ChokeChanging(choking: bool)
    | InterestedChanging(interested: bool)
    | HaveReceived(piece: nat)
    | BitfieldReceived
    | RequestReceived(piece: nat, offset: nat, length: nat)
    | BlockComplete(piece: nat, offset: nat, length: nat)
    | CancelReceived(piece: nat, offset: nat, length: nat)
    | ExtensionReceived(id: Byte, content: Bytes)

  /** What the messages so far say about the remote peer. */
  datatype View = View(
    choking: bool, interested: bool, bitfield: Bitfields.Bitfield, block: Bytes, downloaded: nat, events: seq<Event>)

  function Octets(bits: Bytes): (r: Bitfields.Bitfield)
    ensures |r| == |bits|
  {
    seq(|bits|, i requires 0 <= i < |bits| => bits[i] as bv8)
  }

  /** The reaction to one message. */
  function Handle(v: View, m: Message): View
    requires WellFormed(m, |v.bitfield|)
  {
    match m
    case KeepAlive => v
    case Choke => if v.choking then v else v.(choking := true, events := v.events + [ChokeChanging(true)])
    case Unchoke => if !v.choking then v else v.(choking := false, events := v.events + [ChokeChanging(false)])
    case Interested => if v.interested then v else v.(interested := true, events := v.events + [InterestedChanging(true)])
    case NotInterested => if !v.interested then v else v.(interested := false, events := v.events + [InterestedChanging(false)])
    case Have(p) => v.(bitfield := Bitfields.SetBit(v.bitfield, p), events := v.events + [HaveReceived(p)])
    case Bitfield(bits) => v.(bitfield := Octets(bits), events := v.events + [BitfieldReceived])
    case Request(p, o, n) => v.(events := v.events + [RequestReceived(p, o, n)])
    case Piece(p, o, block) =>
      v.(block := block, downloaded := v.downloaded + |block|, events := v.events + [BlockComplete(p, o, |block|)])
    case Cancel(p, o, n) => v.(events := v.events + [CancelReceived(p, o, n)])
    case Extended(id, content) => v.(events := v.events + [ExtensionReceived(id, content)])
  }

  lemma HandleKeepsSize(v: View, m: Message)
    requires WellFormed(m, |v.bitfield|)
    ensures |Handle(v, m).bitfield| == |v.bitfield|
  {
    hide Bitfields.SetAt, Bitfields.ByteOf, Bitfields.PositionOf;
  }

  /** The reaction to a sequence of messages. */
  ghost function HandleAll(v: View, ms: seq<Message>): View
    requires AllWellFormed(ms, |v.bitfield|)
    decreases |ms|
  {
    if ms == [] then v
    else
      HandleKeepsSize(v, ms[0]);
      HandleAll(Handle(v, ms[0]), ms[1..])
  }

  /** The view after a decodable stream. */
  ghost function ViewAfter(v: View, s: Bytes): View
    requires Decodable(s, |v.bitfield|)
  {
    StreamConserved(s, |v.bitfield|);
    HandleAll(v, Messages(s, |v.bitfield|))
  }

  lemma {:induction false} ViewAfterFirst(v: View, s: Bytes)
    requires Decodable(s, |v.bitfield|)
    ensures FrameEnd(s).None? ==> ViewAfter(v, s) == v
    ensures FrameEnd(s).Some? ==>
      var n := FrameEnd(s).value;
      var m := ParseBody(s[LENGTH_HEADER..n], |v.bitfield|);
      && m.Some? && WellFormed(m.value, |v.bitfield|) && Decodable(s[n..], |v.bitfield|)
      && |Handle(v, m.value).bitfield| == |v.bitfield|
      && ViewAfter(v, s) == ViewAfter(Handle(v, m.value), s[n..])
  {
    var size := |v.bitfield|;
    hide FrameEnd, ParseBody, WellFormed, Decodable, Messages, Remainder, Handle;
    DecodeFirst(s, size);
    StreamConserved(s, size);
    if FrameEnd(s).Some? {
      var n := FrameEnd(s).value;
      FirstFrame(s, size, n);
      var m := ParseBody(s[LENGTH_HEADER..n], size).value;
      HandleKeepsSize(v, m);
      assert ([m] + Messages(s[n..], size))[1..] == Messages(s[n..], size);
    }
  }

  lemma {:induction false} HandleAllAppend(v: View, a: seq<Message>, b: seq<Message>)
    requires AllWellFormed(a, |v.bitfield|) && AllWellFormed(b, |v.bitfield|)
    ensures AllWellFormed(a + b, |v.bitfield|) && |HandleAll(v, a).bitfield| == |v.bitfield|
    ensures HandleAll(v, a + b) == HandleAll(HandleAll(v, a), b)
    decreases |a|
  {
    hide WellFormed, Handle;
    if a == [] {
      assert a + b == b;
    } else {
      HandleKeepsSize(v, a[0]);
      HandleAllAppend(Handle(v, a[0]), a[1..], b);
      assert (a + b)[1..] == a[1..] + b;
    }
  }

  // ----- What the messages amount to -----

  lemma HandleAllLast(v: View, ms: seq<Message>)
    requires AllWellFormed(ms, |v.bitfield|) && ms != []
    ensures var init, m := ms[..|ms| - 1], ms[|ms| - 1];
      && AllWellFormed(init, |v.bitfield|) && WellFormed(m, |v.bitfield|)
      && |HandleAll(v, init).bitfield| == |v.bitfield|
      && HandleAll(v, ms) == Handle(HandleAll(v, init), m)
  {
    hide WellFormed, Handle;
    var init, m := ms[..|ms| - 1], ms[|ms| - 1];
    assert ms == init + [m];
    HandleAllAppend(v, init, [m]);
    assert [m][1..] == [];
  }

  /** There is such a message, and no such other message behind it. */
  ghost predicate LastOf(ms: seq<Message>, m: Message, other: Message) {
    exists i :: 0 <= i < |ms| && ms[i] == m && other !in ms[i..]
  }

  lemma LastOfAppended(init: seq<Message>, x: Message, m: Message, other: Message)
    requires m != other
    ensures LastOf(init + [x], m, other) <==> x == m || (LastOf(init, m, other) && x != other)
  {
    var ms := init + [x];
    if x == m {
      assert ms[|init|] == m && ms[|init|..] == [x];
    }
    if i :| 0 <= i < |init| && init[i] == m && other !in init[i..] && x != other {
      assert ms[i] == m && ms[i..] == init[i..] + [x];
    }
    if i :| 0 <= i < |ms| && ms[i] == m && other !in ms[i..] {
      assert x in ms[i..] by { assert ms[i..][|init| - i] == x; }
      if i < |init| {
        assert init[i] == m && ms[i..] == init[i..] + [x];
      }
    }
  }

  /** The peer chokes us exactly if the last message about it was a choke, or there was none and it did. */
  lemma {:induction false} ChokingIsLastChoke(v: View, ms: seq<Message>)
    requires AllWellFormed(ms, |v.bitfield|)
    ensures HandleAll(v, ms).choking <==>
      LastOf(ms, Choke, Unchoke) || (v.choking && Choke !in ms && Unchoke !in ms)
    decreases |ms|
  {
    hide WellFormed, LastOf, Bitfields.SetBit, Octets;
    if ms == [] {
      NothingLast(Choke, Unchoke);
    } else {
      var init, m := ms[..|ms| - 1], ms[|ms| - 1];
      HandleAllLast(v, ms);
      ChokingIsLastChoke(v, init);
      LastOfAppended(init, m, Choke, Unchoke);
      LastOfMember(init, Choke, Unchoke);
      assert ms == init + [m];
    }
    hide HandleAll;
  }

  lemma NothingLast(m: Message, other: Message)
    ensures !LastOf([], m, other)
  {
  }

  lemma LastOfMember(ms: seq<Message>, m: Message, other: Message)
    ensures LastOf(ms, m, other) ==> m in ms
    ensures m in ms && other !in ms ==> LastOf(ms, m, other)
  {
    if m in ms && other !in ms {
      var i :| 0 <= i < |ms| && ms[i] == m;
      assert other !in ms[i..];
    }
  }

  /** And it is interested exactly if the last message about that said so, or there was none and it was. */
  lemma {:induction false} InterestIsLastInterest(v: View, ms: seq<Message>)
    requires AllWellFormed(ms, |v.bitfield|)
    ensures HandleAll(v, ms).interested <==>
      LastOf(ms, Interested, NotInterested) || (v.interested && Interested !in ms && NotInterested !in ms)
    decreases |ms|
  {
    hide WellFormed, LastOf, Bitfields.SetBit, Octets;
    if ms == [] {
      NothingLast(Interested, NotInterested);
    } else {
      var init, m := ms[..|ms| - 1], ms[|ms| - 1];
      HandleAllLast(v, ms);
      InterestIsLastInterest(v, init);
      LastOfAppended(init, m, Interested, NotInterested);
      LastOfMember(init, Interested, NotInterested);
      assert ms == init + [m];
    }
    hide HandleAll;
  }

  // The pieces of the peer.

  ghost predicate NoBitfield(ms: seq<Message>) {
    forall m :: m in ms ==> !m.Bitfield?
  }

  /** The message says that the peer has the piece. */
  predicate Tells(m: Message, p: nat) {
    m == Have(p) || (m.Bitfield? && p < 8 * |m.bits| && Bitfields.HasBit(Octets(m.bits), p))
  }

  /** Some message says that the peer has the piece, and no bitfield follows it. */
  ghost predicate Said(ms: seq<Message>, p: nat) {
    exists i :: 0 <= i < |ms| && Tells(ms[i], p) && NoBitfield(ms[i + 1..])
  }

  lemma NoBitfieldParts(init: seq<Message>, x: Message)
    ensures NoBitfield(init + [x]) <==> NoBitfield(init) && !x.Bitfield?
  {
    if NoBitfield(init + [x]) {
      forall m | m in init ensures !m.Bitfield? {
        assert m in init + [x];
      }
      assert x in init + [x];
    }
  }

  lemma SaidStays(init: seq<Message>, x: Message, p: nat)
    requires Said(init, p) && !x.Bitfield?
    ensures Said(init + [x], p)
  {
    hide Tells, NoBitfield;
    var i :| 0 <= i < |init| && Tells(init[i], p) && NoBitfield(init[i + 1..]);
    NoBitfieldParts(init[i + 1..], x);
    assert (init + [x])[i] == init[i] && (init + [x])[i + 1..] == init[i + 1..] + [x];
  }

  lemma SaidBefore(init: seq<Message>, x: Message, p: nat)
    requires Said(init + [x], p) && !Tells(x, p)
    ensures Said(init, p) && !x.Bitfield?
  {
    hide Tells, NoBitfield;
    var ms := init + [x];
    var i :| 0 <= i < |ms| && Tells(ms[i], p) && NoBitfield(ms[i + 1..]);
    NoBitfieldParts(init[i + 1..], x);
    assert ms[i] == init[i] && ms[i + 1..] == init[i + 1..] + [x];
  }

  lemma SaidAppended(init: seq<Message>, x: Message, p: nat)
    ensures Said(init + [x], p) <==> Tells(x, p) || (Said(init, p) && !x.Bitfield?)
    ensures NoBitfield(init + [x]) <==> NoBitfield(init) && !x.Bitfield?
  {
    hide Tells, Said;
    NoBitfieldParts(init, x);
    if Tells(x, p) {
      SaidNow(init, x, p);
    } else if Said(init + [x], p) {
      SaidBefore(init, x, p);
    } else if !x.Bitfield? && Said(init, p) {
      SaidStays(init, x, p);
    }
  }

  lemma SaidNow(init: seq<Message>, x: Message, p: nat)
    requires Tells(x, p)
    ensures Said(init + [x], p)
  {
    assert (init + [x])[|init|] == x && (init + [x])[|init| + 1..] == [];
  }

  /** The bytes of a bitfield are taken over as they are. */
  lemma OctetsSame(bits: Bytes, i: nat)
    requires i < |bits|
    ensures Octets(bits)[i] == bits[i] as bv8
  {
  }

  lemma HandleBit(v: View, m: Message, p: nat)
    requires WellFormed(m, |v.bitfield|) && p < 8 * |v.bitfield|
    ensures |Handle(v, m).bitfield| == |v.bitfield|
    ensures Bitfields.HasBit(Handle(v, m).bitfield, p) <==> Tells(m, p) || (!m.Bitfield? && Bitfields.HasBit(v.bitfield, p))
  {
    hide Bitfields.HasBit, Bitfields.SetBit, Octets;
    if m.Have? {
      Bitfields.SetBitEffect(v.bitfield, m.piece, p);
    }
  }

  /** The peer has a piece exactly if a message said so after which no bitfield came, or none came and it had it. */
  lemma {:induction false} PiecesAreTheLastSaid(v: View, ms: seq<Message>, p: nat)
    requires AllWellFormed(ms, |v.bitfield|) && p < 8 * |v.bitfield|
    ensures |HandleAll(v, ms).bitfield| == |v.bitfield|
    ensures Bitfields.HasBit(HandleAll(v, ms).bitfield, p)
       <==> Said(ms, p) || (NoBitfield(ms) && Bitfields.HasBit(v.bitfield, p))
    decreases |ms|
  {
    hide WellFormed, Handle, Tells, Bitfields.HasBit;
    if ms != [] {
      var init, m := ms[..|ms| - 1], ms[|ms| - 1];
      HandleAllLast(v, ms);
      PiecesAreTheLastSaid(v, init, p);
      SaidAppended(init, m, p);
      HandleBit(HandleAll(v, init), m, p);
      assert ms == init + [m];
      hide Said, NoBitfield;
    }
    hide HandleAll;
  }

  // The events.

  /** The message that an event tells of, if it can be told from it. */
  function Recall(e: Event): seq<Message> {
    match e
    case HaveReceived(p) => [Have(p)]
    case RequestReceived(p, o, n) => [Request(p, o, n)]
    case CancelReceived(p, o, n) => [Cancel(p, o, n)]
    case ExtensionReceived(id, content) => [Extended(id, content)]
    case _ => []
  }

  function RecallAll(es: seq<Event>): seq<Message> {
    if es == [] then [] else RecallAll(es[..|es| - 1]) + Recall(es[|es| - 1])
  }

  /** The messages of these kinds, in order. */
  function Reported(ms: seq<Message>): seq<Message> {
    if ms == [] then []
    else
      var m := ms[|ms| - 1];
      Reported(ms[..|ms| - 1]) + if m.Have? || m.Request? || m.Cancel? || m.Extended? then [m] else []
  }

  /** At most one event for a message. */
  lemma HandleAddsEvent(v: View, m: Message)
    requires WellFormed(m, |v.bitfield|)
    ensures var es := Handle(v, m).events;
      es == v.events || (|es| == |v.events| + 1 && es[..|es| - 1] == v.events)
  {
    hide Bitfields.SetBit, Octets;
  }

  lemma HandleReports(v: View, m: Message)
    requires WellFormed(m, |v.bitfield|)
    ensures RecallAll(Handle(v, m).events) == RecallAll(v.events) + Reported([m])
  {
    hide Bitfields.SetBit, Octets, RecallAll;
    HandleAddsEvent(v, m);
    assert [m][..0] == [] && Reported([]) == [];
    if Handle(v, m).events != v.events {
      RecallLast(Handle(v, m).events);
    }
  }

  lemma RecallLast(es: seq<Event>)
    requires es != []
    ensures RecallAll(es) == RecallAll(es[..|es| - 1]) + Recall(es[|es| - 1])
  {
  }

  /** Every have, request, cancel and extension message is reported, in order and with its fields, and no other is. */
  lemma {:induction false} MessagesAreReported(v: View, ms: seq<Message>)
    requires AllWellFormed(ms, |v.bitfield|)
    ensures RecallAll(HandleAll(v, ms).events) == RecallAll(v.events) + Reported(ms)
    decreases |ms|
  {
    hide WellFormed, Handle, RecallAll;
    if ms != [] {
      var init, m := ms[..|ms| - 1], ms[|ms| - 1];
      HandleAllLast(v, ms);
      MessagesAreReported(v, init);
      HandleReports(HandleAll(v, init), m);
      assert [m][..0] == [] && Reported([m]) == Reported([]) + if m.Have? || m.Request? || m.Cancel? || m.Extended? then [m] else [];
    }
    hide HandleAll;
  }

  /** What is told of the state of the peer, of its blocks, and of its bitfields. */
  datatype Notice =
    | ChokeNotice(choking: bool)
    | InterestNotice(interested: bool)
    | BlockNotice(piece: nat, offset: nat, length: nat)
    | BitfieldNotice

  function NoticeOf(e: Event): seq<Notice> {
    match e
    case ChokeChanging(b) => [ChokeNotice(b)]
    case InterestedChanging(b) => [InterestNotice(b)]
    case BlockComplete(p, o, n) => [BlockNotice(p, o, n)]
    case BitfieldReceived => [BitfieldNotice]
    case _ => []
  }

  function NoticesOf(es: seq<Event>): seq<Notice> {
    if es == [] then [] else NoticesOf(es[..|es| - 1]) + NoticeOf(es[|es| - 1])
  }

  /** A change of state, a block, or a bitfield. */
  function Due(choking: bool, interested: bool, m: Message): seq<Notice> {
    if m == Choke && !choking then [ChokeNotice(true)]
    else if m == Unchoke && choking then [ChokeNotice(false)]
    else if m == Interested && !interested then [InterestNotice(true)]
    else if m == NotInterested && interested then [InterestNotice(false)]
    else if m.Piece? then [BlockNotice(m.index, m.begin, |m.block|)]
    else if m.Bitfield? then [BitfieldNotice]
    else []
  }

  /** One notice for each change of state, each block and each bitfield. */
  function Expected(choking: bool, interested: bool, ms: seq<Message>): seq<Notice>
    decreases |ms|
  {
    if ms == [] then []
    else
      var m := ms[0];
      Due(choking, interested, m)
      + Expected(m == Choke || (choking && m != Unchoke), m == Interested || (interested && m != NotInterested), ms[1..])
  }

  lemma NoticesLast(es: seq<Event>)
    requires es != []
    ensures NoticesOf(es) == NoticesOf(es[..|es| - 1]) + NoticeOf(es[|es| - 1])
  {
  }

  lemma HandleState(v: View, m: Message)
    requires WellFormed(m, |v.bitfield|)
    ensures Handle(v, m).choking <==> m == Choke || (v.choking && m != Unchoke)
    ensures Handle(v, m).interested <==> m == Interested || (v.interested && m != NotInterested)
  {
    hide Bitfields.SetBit, Octets;
  }

  lemma HandleDue(v: View, m: Message)
    requires WellFormed(m, |v.bitfield|)
    ensures var es := Handle(v, m).events;
            Due(v.choking, v.interested, m) == if es == v.events then [] else NoticeOf(es[|es| - 1])
  {
    hide Bitfields.SetBit, Octets;
    HandleAddsEvent(v, m);
  }

  lemma HandleNotices(v: View, m: Message)
    requires WellFormed(m, |v.bitfield|)
    ensures NoticesOf(Handle(v, m).events) == NoticesOf(v.events) + Due(v.choking, v.interested, m)
  {
    hide Handle, Due, NoticesOf, NoticeOf, WellFormed;
    HandleAddsEvent(v, m);
    HandleDue(v, m);
    if Handle(v, m).events != v.events {
      NoticesLast(Handle(v, m).events);
    }
  }

  /** A change is told exactly where the state changes, and to what; blocks and bitfields are told one by one. */
  lemma {:induction false} ChangesAreNoticed(v: View, ms: seq<Message>)
    requires AllWellFormed(ms, |v.bitfield|)
    ensures NoticesOf(HandleAll(v, ms).events) == NoticesOf(v.events) + Expected(v.choking, v.interested, ms)
    decreases |ms|
  {
    hide WellFormed, Handle, NoticesOf, Due;
    if ms != [] {
      HandleKeepsSize(v, ms[0]);
      HandleNotices(v, ms[0]);
      HandleState(v, ms[0]);
      ChangesAreNoticed(Handle(v, ms[0]), ms[1..]);
    }
  }

  function BlockBytes(ms: seq<Message>): nat {
    if ms == [] then 0 else BlockBytes(ms[..|ms| - 1]) + if ms[|ms| - 1].Piece? then |ms[|ms| - 1].block| else 0
  }

  /** The bytes of all blocks are counted, and the buffer holds the last one. */
  lemma {:induction false} BlocksAreCounted(v: View, ms: seq<Message>)
    requires AllWellFormed(ms, |v.bitfield|)
    ensures HandleAll(v, ms).downloaded == v.downloaded + BlockBytes(ms)
    ensures ms != [] && ms[|ms| - 1].Piece? ==> HandleAll(v, ms).block == ms[|ms| - 1].block
    decreases |ms|
  {
    hide WellFormed, Bitfields.SetBit, Octets;
    if ms != [] {
      HandleAllLast(v, ms);
      BlocksAreCounted(v, ms[..|ms| - 1]);
    }
    hide HandleAll;
  }

  /** The receiver between two reads: what it knows, and the bytes of the message it is in the middle of. */
  datatype Receiver = Receiver(view: View, pending: Bytes)

  ghost predicate CanRead(e: Receiver, chunk: Bytes) {
    Decodable(e.pending + chunk, |e.view.bitfield|)
  }

  /** One read of a chunk. */
  ghost function Read(e: Receiver, chunk: Bytes): Receiver
    requires CanRead(e, chunk)
  {
    Receiver(ViewAfter(e.view, e.pending + chunk), Remainder(e.pending + chunk))
  }

  /** Reading two chunks one after the other is reading them at once. */
  lemma ReadTwice(e: Receiver, a: Bytes, b: Bytes)
    requires CanRead(e, a + b)
    ensures CanRead(e, a) && CanRead(Read(e, a), b)
    ensures Read(Read(e, a), b) == Read(e, a + b)
  {
    hide WellFormed, FrameEnd, ParseBody, Decodable, Messages, Remainder, HandleAll;
    var s, size := e.pending + a, |e.view.bitfield|;
    assert e.pending + (a + b) == s + b;
    DecodableStart(s, b, size);
    DecodeContinues(s, b, size);
    StreamConserved(s, size);
    StreamConserved(s + b, size);
    StreamConserved(Remainder(s) + b, size);
    HandleAllAppend(e.view, Messages(s, size), Messages(Remainder(s) + b, size));
  }

  ghost function Joined(chunks: seq<Bytes>): Bytes {
    if chunks == [] then [] else chunks[0] + Joined(chunks[1..])
  }

  /** A sequence of reads. */
  ghost function ReadAll(e: Receiver, chunks: seq<Bytes>): Receiver
    requires CanRead(e, Joined(chunks))
    decreases |chunks|
  {
    if chunks == [] then e
    else
      ReadTwice(e, chunks[0], Joined(chunks[1..]));
      ReadAll(Read(e, chunks[0]), chunks[1..])
  }

  /** However a stream is cut into chunks, it is read as if it had arrived at once. */
  lemma {:induction false} CuttingDoesNotMatter(e: Receiver, chunks: seq<Bytes>)
    requires CanRead(e, Joined(chunks)) && FrameEnd(e.pending).None?
    ensures ReadAll(e, chunks) == Read(e, Joined(chunks))
    decreases |chunks|
  {
    hide WellFormed, FrameEnd, ParseBody, Decodable, Messages, Remainder, HandleAll;
    if chunks == [] {
      assert e.pending + [] == e.pending;
      ViewAfterFirst(e.view, e.pending);
      DecodeFirst(e.pending, |e.view.bitfield|);
    } else {
      ReadTwice(e, chunks[0], Joined(chunks[1..]));
      RemainderIncomplete(e.pending + chunks[0]);
      CuttingDoesNotMatter(Read(e, chunks[0]), chunks[1..]);
    }
  }

  /**
   For every sequence of well-formed messages, serialised one after the other and followed by part of
   another message, and for every cutting of the bytes into chunks: exactly these messages are handled,
   in order, and exactly the undecoded part is kept.
   */
  lemma MessagesDispatchedInOrder(v: View, ms: seq<Message>, t: Bytes, chunks: seq<Bytes>)
    requires AllWellFormed(ms, |v.bitfield|) && AllEncodable(ms) && FrameEnd(t).None?
    requires Joined(chunks) == SerializeAll(ms) + t
    ensures CanRead(Receiver(v, []), Joined(chunks))
    ensures ReadAll(Receiver(v, []), chunks) == Receiver(HandleAll(v, ms), t)
  {
    EmptyHasNoFrame();
    hide WellFormed, FrameEnd, ParseBody, Decodable, Messages, Remainder, HandleAll;
    DecodeSerialized(ms, t, |v.bitfield|);
    assert [] + Joined(chunks) == Joined(chunks);
    CuttingDoesNotMatter(Receiver(v, []), chunks);
  }

  /** A message of type `t` in terms of the buffer behind its type header. */
  ghost predicate StandsFor(rest: Bytes, t: Byte, n: nat, size: nat, m: Message)
    requires 1 <= n <= |rest| + 1
  {
    && t in {0, 1, 2, 3, 4, 5, 6, 7, 8, 20}
    && (t == 0 ==> n == 1 && m == Choke) && (t == 1 ==> n == 1 && m == Unchoke)
    && (t == 2 ==> n == 1 && m == Interested) && (t == 3 ==> n == 1 && m == NotInterested)
    && (t == 4 ==> n == 5 && m == Have(ReadU32(rest)))
    && (t == 5 ==> n - 1 == size && m == Bitfield(rest[..n - 1]))
    && (t == 6 ==> n == 13 && m == Request(ReadU32(rest), ReadU32(rest[4..]), ReadU32(rest[8..])))
    && (t == 7 ==> n >= 9 && m == Piece(ReadU32(rest), ReadU32(rest[4..]), rest[8..n - 1]))
    && (t == 8 ==> n == 13 && m == Cancel(ReadU32(rest), ReadU32(rest[4..]), ReadU32(rest[8..])))
    && (t == 20 ==> n >= 3 && m == Extended(rest[0], rest[1..n - 1]))
  }

  function StateMessage(t: Byte): Message
    requires t < 4
  {
    if t == 0 then Choke else if t == 1 then Unchoke else if t == 2 then Interested else NotInterested
  }

  lemma StateMessageStands(rest: Bytes, t: Byte, n: nat, size: nat, m: Message)
    requires 1 <= n <= |rest| + 1 && StandsFor(rest, t, n, size, m)
    ensures t < 4 ==> n == 1 && m == StateMessage(t)
  {
    hide ReadU32;
  }

  /** What a body at the start of a buffer stands for. */
  lemma MessageInBuffer(buffer: Bytes, n: nat, size: nat)
    requires 1 <= n <= |buffer| && ParseBody(buffer[..n], size).Some?
    ensures StandsFor(buffer[1..], buffer[0], n, size, ParseBody(buffer[..n], size).value)
  {
    hide ReadU32;
    var rest, fields := buffer[1..], buffer[..n][1..];
    assert fields == rest[..n - 1];
    if buffer[0] in {4, 6, 7, 8} {
      assert rest == fields + rest[n - 1..];
      ReadOfPrefix(fields, rest[n - 1..]);
    }
    if buffer[0] in {6, 7, 8} {
      assert rest[4..] == fields[4..] + rest[n - 1..];
      ReadOfPrefix(fields[4..], rest[n - 1..]);
      assert fields[8..] == rest[8..n - 1];
      if buffer[0] != 7 {
        assert rest[8..] == fields[8..] + rest[n - 1..];
        ReadOfPrefix(fields[8..], rest[n - 1..]);
      }
    }
  }

  /** Putting a removed header back in front of the buffer. */
  lemma HeaderPutBack(n: nat, buffer: Bytes)
    requires 0 < n < U32
    ensures var s := WriteU32(n) + buffer;
      && (FrameEnd(s).Some? <==> n <= |buffer|)
      && (n <= |buffer| ==>
            && FrameEnd(s) == Some(LENGTH_HEADER + n)
            && s[LENGTH_HEADER..LENGTH_HEADER + n] == buffer[..n]
            && s[LENGTH_HEADER + n..] == buffer[n..])
  {
    ReadAfterWrite(n, buffer);
    hide WriteU32, ReadU32;
  }

  lemma KeepAliveIgnored(v: View)
    ensures WellFormed(KeepAlive, |v.bitfield|) && Handle(v, KeepAlive) == v
  {
    hide Bitfields.SetBit, Octets;
  }

  /** Taking a header off: a keep-alive is a whole message already. */
  lemma HeaderTaken(buffer: Bytes, size: nat)
    requires |buffer| >= LENGTH_HEADER
    ensures WriteU32(ReadU32(buffer)) + buffer[LENGTH_HEADER..] == buffer
    ensures ReadU32(buffer) == 0 ==>
      && FrameEnd(buffer) == Some(LENGTH_HEADER)
      && ParseBody(buffer[LENGTH_HEADER..LENGTH_HEADER], size) == Some(KeepAlive)
  {
    WriteAfterRead(buffer);
    hide WriteU32, ReadU32;
  }

  lemma TooShort(s: Bytes)
    ensures |s| < LENGTH_HEADER ==> FrameEnd(s).None?
  {
  }

  /** The receiving state of a Peer object. */
  class PeerReceiver {
    var packetBuffer: Bytes
    var lengthHeader: nat
    var lengthHeaderRemoved: bool
    var peerChoking: bool
    var peerInterested: bool
    var bitfield: Bitfields.Bitfield
    var blockBuffer: Bytes
    var totalBytesDownloaded: nat
    var events: seq<Event>

    ghost function V(): View
      reads this
    {
      View(peerChoking, peerInterested, bitfield, blockBuffer, totalBytesDownloaded, events)
    }

    /** The header is read either as a header or, once taken off the buffer, as a number. */
    ghost predicate HeaderOk()
      reads this
    {
      if lengthHeaderRemoved then 0 < lengthHeader < U32 else lengthHeader == LENGTH_HEADER
    }

    /** The bytes received and not yet handled, with a removed header put back. */
    ghost function Pending(): Bytes
      requires HeaderOk()
      reads this
    {
      if lengthHeaderRemoved then WriteU32(lengthHeader) + packetBuffer else packetBuffer
    }

    ghost function Abs(): Receiver
      requires HeaderOk()
      reads this
    {
      Receiver(V(), Pending())
    }

    /** A connected peer that chokes us and of which we know nothing. */
    constructor (bitfieldSize: nat)
      ensures HeaderOk() && Abs() == Receiver(View(true, false, bitfield, [], 0, []), [])
      ensures |bitfield| == bitfieldSize && forall p :: p in bitfield ==> p == 0
    {
      packetBuffer, lengthHeader, lengthHeaderRemoved := [], LENGTH_HEADER, false;
      peerChoking, peerInterested, bitfield := true, false, seq(bitfieldSize, _ => 0);
      blockBuffer, totalBytesDownloaded, events := [], 0, [];
    }

    /**
     Take a PIECE header and its payload off the buffer; `packetLength` is the announced length of the
     message. The result says whether a part of the payload has not arrived yet.
     */
    method HandlePiece(packetLength: nat) returns (moreDataLeft: bool)
      requires packetLength >= 9 && |packetBuffer| >= 8
      modifies this`packetBuffer, this`blockBuffer, this`totalBytesDownloaded, this`events
      ensures moreDataLeft <==> old(|packetBuffer|) < packetLength - 1
      ensures !moreDataLeft ==>
        && packetBuffer == old(packetBuffer)[packetLength - 1..]
        && blockBuffer == old(packetBuffer)[8..packetLength - 1]
        && totalBytesDownloaded == old(totalBytesDownloaded) + (packetLength - 9)
        && events == old(events)
             + [BlockComplete(ReadU32(old(packetBuffer)), ReadU32(old(packetBuffer)[4..]), packetLength - 9)]
      ensures moreDataLeft ==> packetBuffer == [] && events == old(events)
    {
      hide ReadU32;
      var blockPieceIndex := ReadU32(packetBuffer);
      var blockBlockOffSet := ReadU32(packetBuffer[4..]);
      packetBuffer := packetBuffer[8..];
      var blockLength := packetLength - 9;
      var dataToRead := if |packetBuffer| < blockLength then |packetBuffer| else blockLength;
      totalBytesDownloaded := totalBytesDownloaded + dataToRead;
      blockBuffer := packetBuffer[..dataToRead];
      packetBuffer := packetBuffer[dataToRead..];
      if blockLength - dataToRead == 0 {
        events := events + [BlockComplete(blockPieceIndex, blockBlockOffSet, blockLength)];
        return false;
      }
      return true;
    }

    /** Handle the message whose header has been taken off the buffer. */
    method Dispatch()
      requires lengthHeaderRemoved && 0 < lengthHeader <= |packetBuffer|
      requires var m := ParseBody(packetBuffer[..lengthHeader], |bitfield|); m.Some? && WellFormed(m.value, |bitfield|)
      modifies this
      ensures V() == Handle(old(V()), ParseBody(old(packetBuffer)[..old(lengthHeader)], old(|bitfield|)).value)
      ensures packetBuffer == old(packetBuffer)[old(lengthHeader)..]
      ensures !lengthHeaderRemoved && lengthHeader == LENGTH_HEADER
    {
      hide ReadU32, ParseBody, WellFormed, StandsFor, Handle;
      ghost var message := ParseBody(packetBuffer[..lengthHeader], |bitfield|).value;
      MessageInBuffer(packetBuffer, lengthHeader, |bitfield|);
      StateMessageStands(packetBuffer[1..], packetBuffer[0], lengthHeader, |bitfield|, message);
      var messageType := packetBuffer[0];
      packetBuffer := packetBuffer[1..];
      if messageType < 4 {
        ChangeState(messageType);
      } else {
        HandleFields(messageType, message);
      }
      lengthHeaderRemoved, lengthHeader := false, LENGTH_HEADER;
    }

    /** The messages without fields. */
    method ChangeState(messageType: Byte)
      requires messageType < 4
      modifies this`peerChoking, this`peerInterested, this`events
      ensures V() == Handle(old(V()), StateMessage(messageType))
    {
      match messageType {
        case 0 => {
          if !peerChoking {
            peerChoking, events := true, events + [ChokeChanging(true)];
          }
        }
        case 1 => {
          if peerChoking {
            peerChoking, events := false, events + [ChokeChanging(false)];
          }
        }
        case 2 => {
          if !peerInterested {
            peerInterested, events := true, events + [InterestedChanging(true)];
          }
        }
        case _ => {
          if peerInterested {
            peerInterested, events := false, events + [InterestedChanging(false)];
          }
        }
      }
    }

    /** The messages with fields, which the type header tells apart; `message` is the whole of it. */
    method HandleFields(messageType: Byte, ghost message: Message)
      requires 4 <= messageType && lengthHeader >= 1 && |packetBuffer| >= lengthHeader - 1
      requires WellFormed(message, |bitfield|) && StandsFor(packetBuffer, messageType, lengthHeader, |bitfield|, message)
      modifies this
      ensures V() == Handle(old(V()), message) && packetBuffer == old(packetBuffer)[old(lengthHeader) - 1..]
    {
      hide ReadU32, Bitfields.SetBit, Octets;
      match messageType {
        case 4 => {
          var pieceIndex := ReadU32(packetBuffer);
          packetBuffer := packetBuffer[4..];
          bitfield := Bitfields.SetBit(bitfield, pieceIndex);
          events := events + [HaveReceived(pieceIndex)];
        }
        case 5 => {
          bitfield := Octets(packetBuffer[..lengthHeader - 1]);
          packetBuffer := packetBuffer[lengthHeader - 1..];
          events := events + [BitfieldReceived];
        }
        case 6 => {
          events := events + [RequestReceived(ReadU32(packetBuffer), ReadU32(packetBuffer[4..]), ReadU32(packetBuffer[8..]))];
          packetBuffer := packetBuffer[12..];
        }
        case 7 => {
          var moreDataLeft := HandlePiece(lengthHeader);
          assert !moreDataLeft;
        }
        case 8 => {
          events := events + [CancelReceived(ReadU32(packetBuffer), ReadU32(packetBuffer[4..]), ReadU32(packetBuffer[8..]))];
          packetBuffer := packetBuffer[12..];
        }
        case _ => {
          events := events + [ExtensionReceived(packetBuffer[0], packetBuffer[1..lengthHeader - 1])];
          packetBuffer := packetBuffer[lengthHeader - 1..];
        }
      }
    }

    /**
     Take in what the socket has, in as many pieces as it hands out, then handle all complete messages.
     Every iteration takes bytes off the buffer.
     */
    method HandleRead(received: seq<Bytes>)
      requires HeaderOk() && CanRead(Abs(), Joined(received))
      modifies this
      ensures HeaderOk() && Abs() == Read(old(Abs()), Joined(received))
    {
      hide FrameEnd, ParseBody, WellFormed, Decodable, Remainder, ViewAfter, Handle, WriteU32, ReadU32;
      ghost var stream, size := Pending() + Joined(received), |bitfield|;
      var i := 0;
      while i < |received|
        invariant 0 <= i <= |received|
        invariant HeaderOk() && V() == old(V())
        invariant Pending() + Joined(received[i..]) == stream
      {
        assert received[i..][1..] == received[i + 1..];
        packetBuffer := packetBuffer + received[i];
        i := i + 1;
      }
      assert Pending() == stream;
      while |packetBuffer| >= lengthHeader
        invariant HeaderOk() && |bitfield| == size && Decodable(Pending(), size)
        invariant ViewAfter(V(), Pending()) == ViewAfter(old(V()), stream)
        invariant Remainder(Pending()) == Remainder(stream)
        decreases |packetBuffer|
      {
        ViewAfterFirst(V(), Pending());
        DecodeFirst(Pending(), size);
        if !lengthHeaderRemoved {
          HeaderTaken(packetBuffer, size);
          KeepAliveIgnored(V());
          lengthHeader, packetBuffer := ReadU32(packetBuffer), packetBuffer[LENGTH_HEADER..];
          if lengthHeader == 0 {
            lengthHeader := LENGTH_HEADER;
          } else {
            lengthHeaderRemoved := true;
          }
        } else {
          HeaderPutBack(lengthHeader, packetBuffer);
          Dispatch();
        }
      }
      if lengthHeaderRemoved {
        HeaderPutBack(lengthHeader, packetBuffer);
      }
      TooShort(packetBuffer);
      ViewAfterFirst(V(), Pending());
      DecodeFirst(Pending(), size);
    }
  }
}
