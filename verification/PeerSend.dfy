/**
 The sending half of a peer connection: three queues that run in parallel, into which messages are put
 at the back, at the front, or behind the block being sent, and from which a `cancel` takes a block out.
 Blocks are sent in parts, as the socket has space.
 */
module PeerSend {
  import opened Words
  import opened Lists
  import opened WireFormat
  import opened Framing
  import PeerReceive

  /** The buffer with the file, and whatever lies behind it, from which the blocks are taken. */
  datatype File = File(data: nat -> Byte, pieceLength: nat)

  /** A part of the buffer. */
  function Slice(f: File, from: nat, n: nat): (s: Bytes)
    ensures |s| == n
  {
    seq<Byte>(n, i requires 0 <= i < n => f.data(from + i))
  }

  datatype BlockRequest = BlockRequest(piece: nat, offset: nat, length: nat)

  /** What waits to be sent: a message, or a block that will be read from the file. */
  datatype Item = Plain(message: Message) | Block(request: BlockRequest)

  const PIECE_HEADERS := 13

  /** Where a block is looked for: the offset of its piece is computed in 32 bits. */
  function Start(f: File, r: BlockRequest): nat {
    r.piece * f.pieceLength % U32 + r.offset
  }

  /** The right place is found if and only if the piece begins within the first 4 gigabytes. */
  lemma StartIsRightIff(f: File, r: BlockRequest)
    ensures Start(f, r) == r.piece * f.pieceLength + r.offset <==> r.piece * f.pieceLength < U32
  {
  }

  /** The numbers of the block's message fit their fields. */
  predicate Fits(r: BlockRequest) {
    r.piece < U32 && r.offset < U32 && 9 + r.length < U32
  }

  predicate Sendable(it: Item) {
    match it
    case Plain(m) => m.Encodable() && !m.Piece?
    case Block(r) => Fits(r)
  }

  ghost predicate AllSendable(q: seq<Item>) {
    forall it :: it in q ==> Sendable(it)
  }

  function Content(f: File, r: BlockRequest): (s: Bytes)
    requires Fits(r)
    ensures |s| == r.length
  {
    Slice(f, Start(f, r), r.length)
  }

  function MessageOf(f: File, it: Item): (m: Message)
    requires Sendable(it)
    ensures m.Encodable()
  {
    match it
    case Plain(m) => m
    case Block(r) => Piece(r.piece, r.offset, Content(f, r))
  }

  ghost function MessagesOf(f: File, q: seq<Item>): (ms: seq<Message>)
    requires AllSendable(q)
    ensures |ms| == |q| && AllEncodable(ms)
  {
    if q == [] then [] else [MessageOf(f, q[0])] + MessagesOf(f, q[1..])
  }

  /** The bytes of all the items, one message after the other. */
  ghost function Flatten(f: File, q: seq<Item>): Bytes
    requires AllSendable(q)
  {
    SerializeAll(MessagesOf(f, q))
  }

  lemma {:induction false} MessagesAppend(f: File, a: seq<Item>, b: seq<Item>)
    requires AllSendable(a) && AllSendable(b)
    ensures AllSendable(a + b) && MessagesOf(f, a + b) == MessagesOf(f, a) + MessagesOf(f, b)
  {
    hide Sendable, MessageOf, AllEncodable;
    if a == [] {
      assert a + b == b;
    } else {
      MessagesAppend(f, a[1..], b);
      assert (a + b)[1..] == a[1..] + b;
    }
  }

  lemma {:induction false} SerializeAllAppend(a: seq<Message>, b: seq<Message>)
    requires AllEncodable(a) && AllEncodable(b)
    ensures AllEncodable(a + b) && SerializeAll(a + b) == SerializeAll(a) + SerializeAll(b)
  {
    hide Message.Encodable, Message.Serialize;
    if a == [] {
      assert a + b == b;
    } else {
      SerializeAllAppend(a[1..], b);
      assert (a + b)[1..] == a[1..] + b;
    }
  }

  lemma FlattenAppend(f: File, a: seq<Item>, b: seq<Item>)
    requires AllSendable(a) && AllSendable(b)
    ensures AllSendable(a + b) && MessagesOf(f, a + b) == MessagesOf(f, a) + MessagesOf(f, b)
    ensures Flatten(f, a + b) == Flatten(f, a) + Flatten(f, b)
  {
    hide AllSendable, MessagesOf, AllEncodable, SerializeAll;
    MessagesAppend(f, a, b);
    SerializeAllAppend(MessagesOf(f, a), MessagesOf(f, b));
  }

  lemma FlattenOne(f: File, it: Item)
    requires Sendable(it)
    ensures AllSendable([it]) && MessagesOf(f, [it]) == [MessageOf(f, it)]
    ensures Flatten(f, [it]) == MessageOf(f, it).Serialize()
  {
    hide Sendable, MessageOf, Message.Encodable, Message.Serialize;
    assert SerializeAll([]) == [];
    assert MessagesOf(f, [it])[1..] == [];
  }

  // ----- The bytes of a block -----

  function PieceHeaders(r: BlockRequest): (s: Bytes)
    requires r.piece < U32 && r.offset < U32 && 9 + r.length < U32
    ensures |s| == PIECE_HEADERS
  {
    WriteU32(9 + r.length) + [7] + WriteU32(r.piece) + WriteU32(r.offset)
  }

  /** The part of a block message sent when `left` bytes of the block are still to come. */
  function Part(f: File, r: BlockRequest, left: nat): Bytes
    requires Fits(r) && left <= r.length
  {
    PieceHeaders(r) + Content(f, r)[..r.length - left]
  }

  lemma SplitHeaders(n: Bytes, a: Bytes, b: Bytes, c: Bytes)
    ensures n + [7] + a + b + c == n + ([7] + (a + b + c))
  {
  }

  lemma PartAll(f: File, r: BlockRequest)
    requires Fits(r)
    ensures Part(f, r, 0) == MessageOf(f, Block(r)).Serialize()
    ensures |MessageOf(f, Block(r)).Serialize()| == PIECE_HEADERS + r.length
  {
    hide WriteU32, Start, Content;
    var m, a, b := Piece(r.piece, r.offset, Content(f, r)), WriteU32(r.piece), WriteU32(r.offset);
    assert Content(f, r)[..r.length] == Content(f, r);
    assert m.Payload() == a + b + Content(f, r);
    SplitHeaders(WriteU32(9 + r.length), a, b, Content(f, r));
  }

  lemma PartGrows(f: File, r: BlockRequest, left: nat, n: nat)
    requires Fits(r) && n <= left <= r.length
    ensures var pos := Start(f, r) + (r.length - left);
            Part(f, r, left) + Slice(f, pos, n) == Part(f, r, left - n)
  {
    hide PieceHeaders, Start;
    var pos := Start(f, r) + (r.length - left);
    assert Content(f, r)[..r.length - left] + Slice(f, pos, n) == Content(f, r)[..r.length - (left - n)];
  }

  /** The part is unfinished: as long as bytes are missing, no complete message can be read from it. */
  lemma PartIsNoFrame(f: File, r: BlockRequest, left: nat)
    requires Fits(r) && 0 < left <= r.length
    ensures FrameEnd(Part(f, r, left)).None?
  {
    hide WriteU32, ReadU32, Start;
    var s := Part(f, r, left);
    ReadAfterWrite(9 + r.length, [7] + WriteU32(r.piece) + WriteU32(r.offset) + Content(f, r)[..r.length - left]);
    assert s == WriteU32(9 + r.length)
             + ([7] + WriteU32(r.piece) + WriteU32(r.offset) + Content(f, r)[..r.length - left]);
  }

  // ----- The three queues -----

  function PacketOf(it: Item): Bytes {
    if it.Plain? && it.message.Encodable() then it.message.Serialize() else []
  }

  function Packets(q: seq<Item>): (s: seq<Bytes>)
    ensures |s| == |q|
  {
    seq(|q|, i requires 0 <= i < |q| => PacketOf(q[i]))
  }

  function Indicators(q: seq<Item>): (s: seq<bool>)
    ensures |s| == |q|
  {
    seq(|q|, i requires 0 <= i < |q| => q[i].Block?)
  }

  function RequestsIn(it: Item): seq<BlockRequest> {
    if it.Block? then [it.request] else []
  }

  function Requests(q: seq<Item>): seq<BlockRequest> {
    if q == [] then [] else RequestsIn(q[0]) + Requests(q[1..])
  }

  function TrueCount(s: seq<bool>): nat {
    if s == [] then 0 else (if s[0] then 1 else 0) + TrueCount(s[1..])
  }

  lemma {:induction false} RequestsAppend(a: seq<Item>, b: seq<Item>)
    ensures Requests(a + b) == Requests(a) + Requests(b)
  {
    hide RequestsIn;
    if a == [] {
      assert a + b == b;
    } else {
      assert (a + b)[1..] == a[1..] + b;
      RequestsAppend(a[1..], b);
    }
  }

  lemma RequestsOne(it: Item)
    ensures Requests([it]) == RequestsIn(it)
  {
    assert [it][1..] == [];
  }

  lemma FrontRequest(q: seq<Item>)
    requires q != [] && q[0].Block?
    ensures Requests(q) != [] && Requests(q)[0] == q[0].request
  {
  }

  lemma RequestsSplit(q: seq<Item>, i: nat)
    requires i < |q|
    ensures Requests(q[i..]) == RequestsIn(q[i]) + Requests(q[i + 1..])
    ensures Requests(q[..i + 1]) == Requests(q[..i]) + RequestsIn(q[i])
    ensures Requests(q[..i] + q[i + 1..]) == Requests(q[..i]) + Requests(q[i + 1..])
  {
    hide RequestsIn;
    assert q[i..][1..] == q[i + 1..];
    assert q[..i + 1] == q[..i] + [q[i]];
    RequestsAppend(q[..i], [q[i]]);
    RequestsOne(q[i]);
    RequestsAppend(q[..i], q[i + 1..]);
  }

  lemma {:induction false} NoRequestsNoBlocks(q: seq<Item>)
    requires Requests(q) == []
    ensures forall it :: it in q ==> it.Plain?
  {
    if q != [] {
      NoRequestsNoBlocks(q[1..]);
    }
  }

  lemma IndicatorsTail(q: seq<Item>, i: nat)
    requires 0 < i < |q|
    ensures Indicators(q)[1..] == Indicators(q[1..])
    ensures TrueCount(Indicators(q)[..i]) == (if q[0].Block? then 1 else 0) + TrueCount(Indicators(q[1..])[..i - 1])
  {
    var s := Indicators(q)[..i];
    assert Indicators(q)[1..] == Indicators(q[1..]);
    assert s[1..] == Indicators(q[1..])[..i - 1];
    hide Indicators;
  }

  /** The k-th true indicator stands at the place of the k-th request. */
  lemma {:induction false} IndicatorsMatchRequests(q: seq<Item>, i: nat)
    requires i < |q| && Indicators(q)[i]
    ensures var k := TrueCount(Indicators(q)[..i]);
            k < |Requests(q)| && q[i] == Block(Requests(q)[k])
  {
    if i > 0 {
      IndicatorsTail(q, i);
      IndicatorsMatchRequests(q[1..], i - 1);
    }
    hide Indicators, TrueCount;
  }

  /** There are as many requests as true indicators. */
  lemma {:induction false} IndicatorsCountRequests(q: seq<Item>)
    ensures |Requests(q)| == TrueCount(Indicators(q))
  {
    if q != [] {
      assert Indicators(q)[1..] == Indicators(q[1..]);
      IndicatorsCountRequests(q[1..]);
    }
  }

  /** The queue with an urgent item: in front of all that has not been begun. */
  function Urgent(q: seq<Item>, active: bool, it: Item): seq<Item>
    requires active ==> q != []
  {
    if active then [q[0], it] + q[1..] else [it] + q
  }

  /** It stands behind the block in flight, or else in front; everything else keeps its order. */
  lemma UrgentIsNext(q: seq<Item>, active: bool, it: Item)
    requires active ==> q != []
    ensures var u, k := Urgent(q, active, it), if active then 1 else 0;
      |u| == |q| + 1 && u[k] == it && u[..k] == q[..k] && u[..k] + u[k + 1..] == q
  {
  }

  /** The queue without its first block of the given request. */
  function WithoutFirst(q: seq<Item>, r: BlockRequest): seq<Item> {
    if q == [] then []
    else if q[0] == Block(r) then q[1..]
    else [q[0]] + WithoutFirst(q[1..], r)
  }

  lemma {:induction false} WithoutAbsentBlock(q: seq<Item>, r: BlockRequest)
    requires Block(r) !in q
    ensures WithoutFirst(q, r) == q
  {
    if q != [] {
      WithoutAbsentBlock(q[1..], r);
    }
  }

  lemma {:induction false} WithoutFirstAt(q: seq<Item>, r: BlockRequest, i: nat)
    requires i < |q| && q[i] == Block(r) && Block(r) !in q[..i]
    ensures WithoutFirst(q, r) == q[..i] + q[i + 1..]
  {
    if i > 0 {
      assert q[..i] == [q[0]] + q[1..][..i - 1];
      WithoutFirstAt(q[1..], r, i - 1);
      assert q[1..][i..] == q[i + 1..];
    }
  }

  /** Exactly the first match goes; everything else stays, in its order. */
  lemma WithoutFirstRemovesOne(q: seq<Item>, r: BlockRequest)
    ensures Block(r) !in q ==> WithoutFirst(q, r) == q
    ensures forall i :: 0 <= i < |q| && q[i] == Block(r) && Block(r) !in q[..i] ==>
      WithoutFirst(q, r) == q[..i] + q[i + 1..]
  {
    hide WithoutFirst;
    if Block(r) !in q {
      WithoutAbsentBlock(q, r);
    }
    forall i | 0 <= i < |q| && q[i] == Block(r) && Block(r) !in q[..i]
      ensures WithoutFirst(q, r) == q[..i] + q[i + 1..]
    {
      WithoutFirstAt(q, r, i);
    }
  }

  /** A cancel leaves the block in flight alone, and then any other block of the same request too. */
  function Cancelled(q: seq<Item>, active: bool, r: BlockRequest): seq<Item>
    requires active ==> q != []
  {
    if active && q[0] == Block(r) then q else WithoutFirst(q, r)
  }

  /** The block in flight stays in front; a cancel is without effect exactly if its block is not queued or in flight. */
  lemma CancelSparesFront(q: seq<Item>, active: bool, r: BlockRequest)
    requires active ==> q != []
    ensures active ==> Cancelled(q, active, r) != [] && Cancelled(q, active, r)[0] == q[0]
    ensures Cancelled(q, active, r) == q <==> Block(r) !in q || (active && q[0] == Block(r))
  {
    WithoutFirstRemovesOne(q, r);
    if Block(r) in q {
      WithoutFirstShorter(q, r);
    }
  }

  lemma {:induction false} WithoutFirstShorter(q: seq<Item>, r: BlockRequest)
    requires Block(r) in q
    ensures |WithoutFirst(q, r)| == |q| - 1
  {
    if q[0] != Block(r) {
      WithoutFirstShorter(q[1..], r);
    }
  }

  /** A block reaches at most to the end of its piece; the rest of the piece is a 32-bit number. */
  function CutOff(f: File, piece: nat, offset: nat, length: nat): BlockRequest {
    var rest := (f.pieceLength - offset) % U32;
    BlockRequest(piece, offset, if rest < length then rest else length)
  }

  /** A block inside its piece is answered as asked for; one that reaches beyond it, up to the end of the piece. */
  lemma CutOffReachesTheEnd(f: File, piece: nat, offset: nat, length: nat)
    requires offset <= f.pieceLength < U32
    ensures var r := CutOff(f, piece, offset, length);
      && r.piece == piece && r.offset == offset && r.offset + r.length <= f.pieceLength
      && (r.length == length <==> offset + length <= f.pieceLength)
      && (r.length != length ==> r.offset + r.length == f.pieceLength)
  {
  }

  /** The message of a block of a piece within the first 4 gigabytes: its numbers, and the bytes of the file. */
  lemma BlockIsFromFile(f: File, r: BlockRequest)
    requires Fits(r) && r.piece * f.pieceLength < U32
    ensures var m := MessageOf(f, Block(r));
      && m.Piece? && m.index == r.piece && m.begin == r.offset && |m.block| == r.length
      && forall k :: 0 <= k < r.length ==> m.block[k] == f.data(r.piece * f.pieceLength + r.offset + k)
  {
    StartIsRightIff(f, r);
    hide Start;
  }

  // ----- How far the sending has come -----

  /** What has been sent completely, what waits, and how much of the front block is still to come. */
  datatype Progress = Progress(done: seq<Item>, queue: seq<Item>, active: bool, left: nat) {
    ghost predicate Sound() {
      && AllSendable(done) && AllSendable(queue)
      && (active ==> queue != [] && queue[0].Block? && left <= queue[0].request.length)
    }

    /** The bytes sent: whole messages, and the beginning of the active block's message. */
    ghost function Stream(f: File): Bytes
      requires Sound()
    {
      Flatten(f, done) + Unfinished(f)
    }

    ghost function Unfinished(f: File): Bytes
      requires Sound()
    {
      if !active then []
      else
        assert Sendable(queue[0]);
        Part(f, queue[0].request, left)
    }

    function FrontDone(): Progress
      requires queue != []
    {
      Progress(done + [queue[0]], queue[1..], false, left)
    }

    /** Nothing more can be sent into that much free space. */
    predicate Stuck(space: nat) {
      || queue == []
      || space == 0
      || (!active && space < if queue[0].Block? then PIECE_HEADERS else |PacketOf(queue[0])|)
    }
  }

  lemma PacketSent(f: File, o: Progress)
    requires o.Sound() && !o.active && o.queue != [] && o.queue[0].Plain?
    ensures o.FrontDone().Sound() && o.FrontDone().Stream(f) == o.Stream(f) + PacketOf(o.queue[0])
    ensures o.FrontDone().done + o.FrontDone().queue == o.done + o.queue
  {
    hide Message.Encodable, Message.Serialize, Flatten, MessagesOf;
    assert Sendable(o.queue[0]);
    FlattenOne(f, o.queue[0]);
    FlattenAppend(f, o.done, [o.queue[0]]);
  }

  lemma BlockStarted(f: File, o: Progress)
    requires o.Sound() && !o.active && o.queue != [] && o.queue[0].Block?
    ensures var r := o.queue[0].request; var o' := o.(active := true, left := r.length);
            Sendable(Block(r)) && o'.Sound() && o'.Stream(f) == o.Stream(f) + PieceHeaders(r)
  {
    hide PieceHeaders, Flatten, Content, Start;
    assert Sendable(o.queue[0]);
  }

  lemma PartSent(f: File, o: Progress, n: nat)
    requires o.Sound() && o.active && n <= o.left
    ensures var r := o.queue[0].request; var o' := o.(left := o.left - n); var pos := Start(f, r) + (r.length - o.left);
            Sendable(Block(r)) && o'.Sound() && o'.Stream(f) == o.Stream(f) + Slice(f, pos, n)
  {
    hide Part, Flatten, Start, Slice, Message.Encodable;
    assert Sendable(o.queue[0]);
    var r := o.queue[0].request;
    var pos := Start(f, r) + (r.length - o.left);
    PartGrows(f, r, o.left, n);
    Regroup(Flatten(f, o.done), Part(f, r, o.left), Slice(f, pos, n));
  }

  lemma Regroup(a: Bytes, b: Bytes, c: Bytes)
    ensures a + b + c == a + (b + c)
  {
  }

  lemma BlockFinished(f: File, o: Progress)
    requires o.Sound() && o.active && o.left == 0
    ensures o.FrontDone().Sound() && o.FrontDone().Stream(f) == o.Stream(f)
    ensures o.FrontDone().done + o.FrontDone().queue == o.done + o.queue
  {
    hide Message.Serialize, Message.Encodable, Flatten, MessagesOf, MessageOf, Part;
    assert Sendable(o.queue[0]);
    PartAll(f, o.queue[0].request);
    FlattenOne(f, o.queue[0]);
    FlattenAppend(f, o.done, [o.queue[0]]);
  }

  /** The bytes of the queue that have not been sent yet. */
  ghost function Remaining(f: File, o: Progress): int
    requires o.Sound()
  {
    |Flatten(f, o.queue)| - |o.Unfinished(f)|
  }

  /** With items left, sending stops only when the free space is used up or the rest does not fit. */
  lemma StuckMeansFull(f: File, o: Progress, space: nat)
    requires o.Sound() && o.Stuck(space) && o.queue != []
    ensures space <= Remaining(f, o)
  {
    hide Message.Serialize, Message.Encodable, Flatten, MessagesOf, PieceHeaders, Start;
    var it := o.queue[0];
    assert Sendable(it);
    assert o.queue == [it] + o.queue[1..];
    FlattenOne(f, it);
    FlattenAppend(f, [it], o.queue[1..]);
    if it.Block? {
      PartAll(f, it.request);
    }
  }

  /** Sending moves the boundary between sent and remaining bytes; their sum stays. */
  lemma SentAndRemaining(f: File, o: Progress)
    requires o.Sound()
    ensures AllSendable(o.done + o.queue)
    ensures |o.Stream(f)| + Remaining(f, o) == |Flatten(f, o.done + o.queue)|
  {
    hide AllSendable, Flatten;
    FlattenAppend(f, o.done, o.queue);
  }

  /** Sending until it is stuck sends everything, if the space is more than the bytes that remain. */
  lemma EnoughSpaceSendsAll(f: File, o: Progress, space: nat, o': Progress, space': nat)
    requires o.Sound() && o'.Sound() && o.done + o.queue == o'.done + o'.queue
    requires |o'.Stream(f)| + space' == |o.Stream(f)| + space && o'.Stuck(space')
    requires space > Remaining(f, o)
    ensures o'.queue == [] && o'.done == o.done + o.queue
  {
    hide AllSendable, Flatten, Remaining, Progress.Stream, Progress.Stuck;
    SentAndRemaining(f, o);
    SentAndRemaining(f, o');
    if o'.queue != [] {
      StuckMeansFull(f, o', space');
    }
  }

  /** The messages a receiver of the bytes has in full. */
  ghost function Delivered(f: File, o: Progress): seq<Message>
    requires o.Sound()
  {
    MessagesOf(f, if o.active && o.left == 0 then o.FrontDone().done else o.done)
  }

  /** What the receiver has of the message that is being sent. */
  ghost function Underway(f: File, o: Progress): Bytes
    requires o.Sound()
  {
    if o.left == 0 then [] else o.Unfinished(f)
  }

  /**
   From end to end: whatever has been sent, and however the network cuts it, the other peer handles
   exactly the messages sent completely, in the order of sending, and waits with the rest of one block.
   */
  lemma SentIsReceived(f: File, o: Progress, v: PeerReceive.View, chunks: seq<Bytes>)
    requires o.Sound() && AllWellFormed(Delivered(f, o), |v.bitfield|)
    requires PeerReceive.Joined(chunks) == o.Stream(f)
    ensures PeerReceive.CanRead(PeerReceive.Receiver(v, []), PeerReceive.Joined(chunks))
    ensures PeerReceive.ReadAll(PeerReceive.Receiver(v, []), chunks)
      == PeerReceive.Receiver(PeerReceive.HandleAll(v, Delivered(f, o)), Underway(f, o))
  {
    hide PeerReceive.ReadAll, PeerReceive.HandleAll, PeerReceive.CanRead, AllWellFormed, MessagesOf, SerializeAll, FrameEnd, Part;
    EmptyHasNoFrame();
    var p := if o.active && o.left == 0 then o.FrontDone() else o;
    if o.active && o.left == 0 {
      BlockFinished(f, o);
    }
    if p.active {
      assert Sendable(p.queue[0]);
      PartIsNoFrame(f, p.queue[0].request, p.left);
    }
    PeerReceive.MessagesDispatchedInOrder(v, Delivered(f, o), Underway(f, o), chunks);
  }

  lemma PlainPacket(it: Item)
    requires Sendable(it) && it.Plain?
    ensures PacketOf(it) == it.message.Serialize()
  {
    hide Message.Encodable, Message.Serialize;
  }

  /** A new item at the back of all queues. */
  lemma QueuesExtended(f: File, o: Progress, it: Item)
    requires o.Sound() && Sendable(it)
    ensures var q := o.queue + [it]; var o' := o.(queue := q);
      && Packets(q) == Packets(o.queue) + [PacketOf(it)] && Indicators(q) == Indicators(o.queue) + [it.Block?]
      && Requests(q) == Requests(o.queue) + RequestsIn(it)
      && o'.Sound() && o'.Stream(f) == o.Stream(f) && o.done + q == o.done + o.queue + [it]
      && (it.Plain? ==> PacketOf(it) == it.message.Serialize())
  {
    hide PacketOf, Flatten, Part, Fits, Message.Encodable, Message.Serialize;
    RequestsAppend(o.queue, [it]);
    RequestsOne(it);
    if it.Plain? {
      PlainPacket(it);
    }
  }

  /** An urgent message in the three queues. */
  lemma QueuesUrgent(q: seq<Item>, active: bool, it: Item)
    requires it.Plain? && (active ==> q != [])
    ensures var u, p := Urgent(q, active, it), PacketOf(it);
      && Packets(u) == (if active then Packets(q)[..1] + [p] + Packets(q)[1..] else [p] + Packets(q))
      && Indicators(u) == (if active then Indicators(q)[..1] + [false] + Indicators(q)[1..] else [false] + Indicators(q))
  {
    hide PacketOf;
  }

  lemma RequestsUrgent(q: seq<Item>, active: bool, it: Item)
    requires it.Plain? && (active ==> q != [])
    ensures Requests(Urgent(q, active, it)) == Requests(q)
  {
    RequestsOne(it);
    if active {
      var front, rest := [q[0]], q[1..];
      assert q == front + rest && Urgent(q, active, it) == front + ([it] + rest);
      RequestsAppend(front, [it] + rest);
      RequestsAppend([it], rest);
      RequestsAppend(front, rest);
    } else {
      RequestsAppend([it], q);
    }
    hide Requests;
  }

  /** Whatever is urgent stays behind the block being sent. */
  lemma UrgentKeepsStream(f: File, o: Progress, it: Item)
    requires o.Sound() && Sendable(it)
    ensures var o' := o.(queue := Urgent(o.queue, o.active, it));
            o'.Sound() && o'.Stream(f) == o.Stream(f)
  {
    hide Flatten, Part, Sendable;
  }

  /** How far the search for a queued block has come. */
  ghost predicate Searched(q: seq<Item>, i: nat, k: nat, r: BlockRequest) {
    && i <= |q| && k <= |Requests(q)| && Block(r) !in q[..i]
    && Requests(q[..i]) == Requests(q)[..k] && Requests(q[i..]) == Requests(q)[k..]
  }

  lemma SearchStarts(q: seq<Item>, r: BlockRequest)
    ensures Searched(q, 0, 0, r)
  {
    assert q[..0] == [] && q[0..] == q;
  }

  lemma SearchStep(q: seq<Item>, i: nat, k: nat, r: BlockRequest)
    requires Searched(q, i, k, r) && i < |q| && k < |Requests(q)|
    ensures q[i].Block? ==> Requests(q)[k] == q[i].request
    ensures q[i] != Block(r) ==> Searched(q, i + 1, if q[i].Block? then k + 1 else k, r)
  {
    hide Requests;
    RequestsSplit(q, i);
    assert q[..i + 1] == q[..i] + [q[i]];
    if q[i].Block? {
      assert RequestsIn(q[i]) == [q[i].request] && Requests(q)[k..][0] == q[i].request;
      assert Requests(q)[k..][1..] == Requests(q)[k + 1..];
    }
  }

  lemma NothingToCancel(q: seq<Item>, i: nat, k: nat, r: BlockRequest)
    requires Searched(q, i, k, r) && (i >= |q| || k >= |Requests(q)|)
    ensures WithoutFirst(q, r) == q
  {
    hide Requests, WithoutFirst;
    WithoutFirstRemovesOne(q, r);
    assert q == q[..i] + q[i..];
    if k == |Requests(q)| {
      NoRequestsNoBlocks(q[i..]);
    }
  }

  lemma FoundToCancel(q: seq<Item>, i: nat, k: nat, r: BlockRequest)
    requires Searched(q, i, k, r) && i < |q| && k < |Requests(q)| && q[i] == Block(r)
    ensures q[..i] + q[i + 1..] == WithoutFirst(q, r)
    ensures Requests(q[..i] + q[i + 1..]) == Requests(q)[..k] + Requests(q)[k + 1..]
  {
    hide Requests, WithoutFirst;
    WithoutFirstRemovesOne(q, r);
    RequestsSplit(q, i);
    assert RequestsIn(q[i]) == [r];
    assert Requests(q)[k..][1..] == Requests(q)[k + 1..];
  }

  /** Taking an item that is not being sent out of the queues. */
  lemma RemoveItem(f: File, o: Progress, i: nat)
    requires o.Sound() && i < |o.queue| && (o.active ==> i > 0)
    ensures var q := o.queue[..i] + o.queue[i + 1..]; var o' := o.(queue := q);
      && Packets(q) == Packets(o.queue)[..i] + Packets(o.queue)[i + 1..]
      && Indicators(q) == Indicators(o.queue)[..i] + Indicators(o.queue)[i + 1..]
      && o'.Sound() && o'.Stream(f) == o.Stream(f) && |q| < |o.queue| && (o.active ==> q[0] == o.queue[0])
  {
    hide PacketOf, Flatten, Part, Sendable, Requests;
  }

  /** The sending state of a Peer object in the connected state, with its socket. */
  class PeerSender {
    const file: File
    var sendQueue: seq<Bytes>
    var pieceIndicators: seq<bool>
    var requestQueue: seq<BlockRequest>
    var blockSendingActive: bool
    var blockSendPos: nat
    var blockSendDataLeft: nat
    var txAvailable: nat
    var sent: Bytes
    var uploaded: seq<BlockRequest>
    var cancelled: seq<BlockRequest>
    ghost var done: seq<Item>
    ghost var queue: seq<Item>

    ghost function P(): Progress
      reads this
    {
      Progress(done, queue, blockSendingActive, blockSendDataLeft)
    }

    ghost predicate QueuesAgree()
      reads this
    {
      && sendQueue == Packets(queue)
      && pieceIndicators == Indicators(queue)
      && requestQueue == Requests(queue)
    }

    ghost predicate InPlace()
      requires P().Sound()
      reads this
    {
      blockSendingActive ==>
        blockSendPos == Start(file, queue[0].request) + (queue[0].request.length - blockSendDataLeft)
    }

    ghost predicate Valid()
      reads this
    {
      && P().Sound() && InPlace() && QueuesAgree()
      && sent == P().Stream(file)
      && uploaded == Requests(done)
    }

    /** Of `items` in all, some more may have gone out; what was sent before stays sent. */
    ghost predicate Moved(doneBefore: seq<Item>, items: seq<Item>, sentBefore: Bytes, space: nat)
      reads this
    {
      && doneBefore <= done && done + queue == items
      && sentBefore <= sent && |sent| + txAvailable == |sentBefore| + space
    }

    constructor (file: File)
      ensures Valid() && P() == Progress([], [], false, 0) && txAvailable == 0 && this.file == file
    {
      this.file := file;
      sendQueue, pieceIndicators, requestQueue := [], [], [];
      blockSendingActive, blockSendPos, blockSendDataLeft, txAvailable := false, 0, 0, 0;
      sent, uploaded, cancelled, done, queue := [], [], [], [], [];
    }

    /** The front of all three queues goes out. */
    ghost method MoveFront()
      requires queue != []
      modifies this`done, this`queue
      ensures done == old(done) + [old(queue)[0]] && queue == old(queue)[1..]
      ensures Requests(done) == Requests(old(done)) + RequestsIn(old(queue)[0])
      ensures Requests(old(queue)) == RequestsIn(old(queue)[0]) + Requests(queue)
      ensures Packets(queue) == Packets(old(queue))[1..] && Indicators(queue) == Indicators(old(queue))[1..]
    {
      RequestsAppend(done, [queue[0]]);
      RequestsOne(queue[0]);
      done, queue := done + [queue[0]], queue[1..];
    }

    /** The active block has been sent completely. */
    method FinishBlock()
      requires Valid() && blockSendingActive && blockSendDataLeft == 0
      modifies this
      ensures Valid() && !blockSendingActive && P() == old(P()).FrontDone()
      ensures sent == old(sent) && txAvailable == old(txAvailable) && cancelled == old(cancelled)
    {
      hide Packets, Indicators, Requests, Flatten, Progress.Stream;
      BlockFinished(file, P());
      blockSendingActive := false;
      MoveFront();
      uploaded := uploaded + [requestQueue[0]];
      pieceIndicators, sendQueue, requestQueue := pieceIndicators[1..], sendQueue[1..], requestQueue[1..];
    }

    /** Send the next part of the active block. */
    method SendPart()
      requires Valid() && blockSendingActive && txAvailable > 0
      modifies this
      ensures Valid() && Moved(old(done), old(done + queue), old(sent), old(txAvailable)) && cancelled == old(cancelled)
      ensures |queue| < |old(queue)| || (|queue| == |old(queue)| && txAvailable < old(txAvailable))
    {
      hide Part, Packets, Indicators, Requests, Start, Flatten, Progress.Stream;
      var bytesToSend := if txAvailable < blockSendDataLeft then txAvailable else blockSendDataLeft;
      PartSent(file, P(), bytesToSend);
      var nextPart := Slice(file, blockSendPos, bytesToSend);
      blockSendPos, blockSendDataLeft := blockSendPos + bytesToSend, blockSendDataLeft - bytesToSend;
      sent, txAvailable := sent + nextPart, txAvailable - bytesToSend;
      if blockSendDataLeft == 0 {
        FinishBlock();
      }
    }

    /** Send the headers of the block at the front; its data follows. */
    method StartBlock()
      requires Valid() && !blockSendingActive && queue != [] && queue[0].Block? && txAvailable >= PIECE_HEADERS
      modifies this
      ensures Valid() && Moved(old(done), old(done + queue), old(sent), old(txAvailable)) && cancelled == old(cancelled)
      ensures queue == old(queue) && txAvailable < old(txAvailable)
    {
      hide PieceHeaders, Packets, Indicators, Start, Flatten, Progress.Stream;
      BlockStarted(file, P());
      blockSendPos, blockSendDataLeft := Start(file, requestQueue[0]), requestQueue[0].length;
      blockSendingActive := true;
      var headers := PieceHeaders(requestQueue[0]);
      sent, txAvailable := sent + headers, txAvailable - |headers|;
    }

    /** Send the message at the front. */
    method SendPacket()
      requires Valid() && !blockSendingActive && queue != [] && queue[0].Plain? && txAvailable >= |PacketOf(queue[0])|
      modifies this
      ensures Valid() && Moved(old(done), old(done + queue), old(sent), old(txAvailable)) && cancelled == old(cancelled)
      ensures |queue| < |old(queue)|
    {
      hide PacketOf, Requests, Indicators, Flatten, Progress.Stream;
      PacketSent(file, P());
      var packet := sendQueue[0];
      sent, txAvailable := sent + packet, txAvailable - |packet|;
      MoveFront();
      sendQueue, pieceIndicators := sendQueue[1..], pieceIndicators[1..];
    }

    /** Send as long as the socket has space. */
    method HandleSend()
      requires Valid()
      modifies this
      ensures Valid() && Moved(old(done), old(done + queue), old(sent), old(txAvailable)) && cancelled == old(cancelled)
      ensures P().Stuck(txAvailable)
    {
      hide PacketOf, Requests, Flatten, Progress.Stream, Progress.Sound;
      var nextIteration := true;
      while nextIteration
        invariant Valid() && Moved(old(done), old(done + queue), old(sent), old(txAvailable))
        invariant cancelled == old(cancelled)
        invariant !nextIteration ==> P().Stuck(txAvailable)
        decreases |queue|, txAvailable, nextIteration
      {
        if sendQueue == [] {
          return;
        }
        if txAvailable == 0 {
          return;
        }
        if blockSendingActive {
          SendPart();
        } else if pieceIndicators[0] {
          if txAvailable >= PIECE_HEADERS {
            StartBlock();
          } else {
            nextIteration := false;
          }
        } else if txAvailable >= |sendQueue[0]| {
          SendPacket();
        } else {
          nextIteration := false;
        }
      }
    }

    /** The network took some of the bytes off the socket's buffer. */
    method SpaceFreed(n: nat)
      requires Valid()
      modifies this
      ensures Valid() && Moved(old(done), old(done + queue), old(sent), old(txAvailable) + n)
      ensures cancelled == old(cancelled) && P().Stuck(txAvailable)
    {
      txAvailable := txAvailable + n;
      HandleSend();
    }

    /** Put a message at the back of the queue: a request, a bitfield, a state change, an extension message. */
    method Enqueue(m: Message)
      requires Valid() && Sendable(Plain(m))
      modifies this
      ensures Valid() && Moved(old(done), old(done + queue) + [Plain(m)], old(sent), old(txAvailable))
      ensures cancelled == old(cancelled) && P().Stuck(txAvailable)
    {
      hide PacketOf, Requests, Flatten, Message.Encodable, Message.Serialize, Progress.Stream;
      QueuesExtended(file, P(), Plain(m));
      sendQueue, pieceIndicators := sendQueue + [m.Serialize()], pieceIndicators + [false];
      queue := queue + [Plain(m)];
      HandleSend();
    }

    method RequestPiece(pieceIndex: nat, blockOffSet: nat, blockLength: nat)
      requires Valid() && pieceIndex < U32 && blockOffSet < U32 && blockLength < U32
      modifies this
      ensures Valid() && cancelled == old(cancelled) && P().Stuck(txAvailable)
      ensures Moved(old(done), old(done + queue) + [Plain(Request(pieceIndex, blockOffSet, blockLength))],
                    old(sent), old(txAvailable))
    {
      Enqueue(Request(pieceIndex, blockOffSet, blockLength));
    }

    /** Put a message before all others, but behind the block being sent. */
    method EnqueueUrgent(m: Message)
      requires Valid() && Sendable(Plain(m))
      modifies this
      ensures Valid() && cancelled == old(cancelled) && P().Stuck(txAvailable)
      ensures Moved(old(done), old(done + Urgent(queue, blockSendingActive, Plain(m))), old(sent), old(txAvailable))
    {
      hide PacketOf, Requests, Flatten, Message.Encodable, Message.Serialize, Progress.Stream;
      QueuesUrgent(queue, blockSendingActive, Plain(m));
      RequestsUrgent(queue, blockSendingActive, Plain(m));
      UrgentKeepsStream(file, P(), Plain(m));
      PlainPacket(Plain(m));
      var packet := m.Serialize();
      if blockSendingActive {
        if |sendQueue| == 1 {
          sendQueue, pieceIndicators := sendQueue + [packet], pieceIndicators + [false];
        } else {
          sendQueue := sendQueue[..1] + [packet] + sendQueue[1..];
          pieceIndicators := pieceIndicators[..1] + [false] + pieceIndicators[1..];
        }
      } else {
        sendQueue, pieceIndicators := [packet] + sendQueue, [false] + pieceIndicators;
      }
      queue := Urgent(queue, blockSendingActive, Plain(m));
      HandleSend();
    }

    method CancelRequest(pieceIndex: nat, blockOffSet: nat, blockLength: nat)
      requires Valid() && pieceIndex < U32 && blockOffSet < U32 && blockLength < U32
      modifies this
      ensures Valid() && cancelled == old(cancelled) && P().Stuck(txAvailable)
      ensures var m := Plain(Cancel(pieceIndex, blockOffSet, blockLength));
              Moved(old(done), old(done + Urgent(queue, blockSendingActive, m)), old(sent), old(txAvailable))
    {
      EnqueueUrgent(Cancel(pieceIndex, blockOffSet, blockLength));
    }

    method SendHaveMessage(pieceIndex: nat)
      requires Valid() && pieceIndex < U32
      modifies this
      ensures Valid() && cancelled == old(cancelled) && P().Stuck(txAvailable)
      ensures var m := Plain(Have(pieceIndex));
              Moved(old(done), old(done + Urgent(queue, blockSendingActive, m)), old(sent), old(txAvailable))
    {
      EnqueueUrgent(Have(pieceIndex));
    }

    /** Queue a block, cut off at the end of a piece. */
    method SendBlock(pieceIndex: nat, blockOffSet: nat, blockLength: nat)
      requires Valid() && Fits(CutOff(file, pieceIndex, blockOffSet, blockLength))
      modifies this
      ensures Valid() && cancelled == old(cancelled) && P().Stuck(txAvailable)
      ensures Moved(old(done), old(done + queue) + [Block(CutOff(file, pieceIndex, blockOffSet, blockLength))],
                    old(sent), old(txAvailable))
    {
      hide Fits, Requests, Flatten, Progress.Stream;
      var rest := (file.pieceLength - blockOffSet) % U32;
      ghost var r := CutOff(file, pieceIndex, blockOffSet, blockLength);
      QueuesExtended(file, P(), Block(r));
      sendQueue, pieceIndicators := sendQueue + [[]], pieceIndicators + [true];
      requestQueue := requestQueue + [BlockRequest(pieceIndex, blockOffSet, if rest < blockLength then rest else blockLength)];
      queue := queue + [Block(r)];
      HandleSend();
    }

    /** The other peer no longer wants a block. */
    method HandleCancel(reqInfo: BlockRequest)
      requires Valid()
      modifies this
      ensures Valid() && P() == old(P()).(queue := Cancelled(old(queue), old(blockSendingActive), reqInfo))
      ensures sent == old(sent) && txAvailable == old(txAvailable) && uploaded == old(uploaded)
      ensures cancelled == old(cancelled) + if queue == old(queue) then [] else [reqInfo]
    {
      hide Flatten, Progress.Stream, PacketOf, RequestsIn, Requests, WithoutFirst, Searched;
      if blockSendingActive {
        FrontRequest(queue);
      }
      if blockSendingActive && requestQueue[0] == reqInfo {
        return;
      }
      var i, k := 0, 0;
      var requestFound := false;
      SearchStarts(queue, reqInfo);
      while i < |pieceIndicators| && k < |requestQueue|
        invariant i <= |queue| && !requestFound && Searched(queue, i, k, reqInfo)
        modifies {}
      {
        SearchStep(queue, i, k, reqInfo);
        if pieceIndicators[i] {
          if requestQueue[k] == reqInfo {
            requestFound := true;
            break;
          } else {
            k := k + 1;
          }
        }
        i := i + 1;
      }
      if requestFound {
        RemoveItem(file, P(), i);
        FoundToCancel(queue, i, k, reqInfo);
        pieceIndicators := pieceIndicators[..i] + pieceIndicators[i + 1..];
        sendQueue := sendQueue[..i] + sendQueue[i + 1..];
        requestQueue := requestQueue[..k] + requestQueue[k + 1..];
        cancelled := cancelled + [reqInfo];
        queue := queue[..i] + queue[i + 1..];
      } else {
        NothingToCancel(queue, i, k, reqInfo);
      }
    }
  }
}
