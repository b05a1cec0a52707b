/**
 Both ends of a request: what a peer running the same program sends in answer to the requests that the
 part selection strategy makes, and which pieces can be completed in this way.
 */
module BlockAnswers {
  import opened Words
  import opened Lists
  import opened Tiling
  import opened Bitfields
  import opened RequestIndex
  import opened PartSelection
  import opened DownloadRuns
  import PeerSend

  // ----- The entries of the list of blocks -----

  /** The blocks of the piece are all of one size, or it is a single smaller one. */
  predicate Even(n: nat, blockSize: nat)
    requires blockSize > 0
  {
    Divides(blockSize, n) || n < blockSize
  }

  /** The entry that is listed for what is left at the end of a piece. */
  function Tail(n: nat, blockSize: nat): Block
    requires blockSize > 0
  {
    Block(n - n % blockSize, n % blockSize)
  }

  lemma MultipleStep(offset: nat, d: nat)
    requires d > 0 && Divides(d, offset)
    ensures Divides(d, offset + d)
  {
    DividesStep(offset + d, d);
  }

  lemma RestOfMultiple(offset: nat, n: nat, d: nat)
    requires d > 0 && Divides(d, offset) && offset <= n < offset + d
    ensures n % d == n - offset
  {
    assert offset == offset / d * d;
    RemainderUnique(n, d, offset / d, n - offset);
  }

  /** An entry is of full size within the piece, or it is the tail of a piece that is not cut evenly. */
  lemma {:induction false} EntryCases(offset: nat, n: nat, blockSize: nat, b: Block)
    requires 0 < blockSize && offset <= n && Divides(blockSize, offset) && b in BlocksFrom(offset, n, blockSize)
    ensures b.second == b.first + blockSize <= n || (!Divides(blockSize, n) && b == Tail(n, blockSize))
    decreases n - offset
  {
    hide Divides;
    if offset + blockSize <= n {
      if b != Block(offset, offset + blockSize) {
        MultipleStep(offset, blockSize);
        EntryCases(offset + blockSize, n, blockSize, b);
      }
    } else {
      RestOfMultiple(offset, n, blockSize);
      IsMultiple(n, blockSize);
    }
  }

  lemma IsMultiple(n: nat, d: nat)
    requires d > 0
    ensures Divides(d, n) <==> n % d == 0
  {
  }

  lemma {:induction false} TailListed(offset: nat, n: nat, blockSize: nat)
    requires 0 < blockSize && offset <= n && Divides(blockSize, offset) && !Divides(blockSize, n)
    ensures Tail(n, blockSize) in BlocksFrom(offset, n, blockSize)
    decreases n - offset
  {
    hide Divides;
    if offset + blockSize <= n {
      MultipleStep(offset, blockSize);
      TailListed(offset + blockSize, n, blockSize);
    } else {
      RestOfMultiple(offset, n, blockSize);
    }
  }

  /** The tail reads like a block exactly if it is the whole piece. */
  lemma TailForwardIff(n: nat, blockSize: nat)
    requires 0 < blockSize && !Divides(blockSize, n)
    ensures Tail(n, blockSize).first < Tail(n, blockSize).second <==> n < blockSize
  {
    if n < blockSize {
      RemainderUnique(n, blockSize, 0, n);
    } else {
      LastMultiple(n, blockSize);
    }
  }

  lemma LastMultiple(n: nat, d: nat)
    requires 0 < d <= n
    ensures n - n % d >= d > n % d
  {
    assert n - n % d == n / d * d;
    if n / d < 1 {
      RemainderUnique(n, d, 0, n);
    } else {
      AtLeastOneMore(n / d, d);
    }
  }

  // ----- Answers -----

  /** What `SendBlock` makes of a request, as it arrives at the one who made it. */
  function Answer(f: PeerSend.File, r: Request): Request {
    Request(r.peer, r.piece, r.offset, PeerSend.CutOff(f, r.piece, r.offset, r.length).length)
  }

  /** A listed block is answered in its full length if and only if its entry was written as a block. */
  lemma AnsweredInFullIff(f: PeerSend.File, q: nat, p: nat, n: nat, blockSize: nat, b: Block)
    requires 0 < blockSize && n <= f.pieceLength && f.pieceLength + blockSize < U32
    requires b in BlocksFrom(0, n, blockSize)
    ensures Answer(f, RequestFor(q, p, b)) == RequestFor(q, p, b) <==> b.first < b.second
  {
    ZeroDivided(blockSize);
    EntryCases(0, n, blockSize, b);
    hide Divides, BlocksFrom;
    if b.second != b.first + blockSize {
      TailForwardIff(n, blockSize);
      AnswerOfTail(f.pieceLength, b, n);
    } else {
      AnswerOfFull(f.pieceLength, b);
    }
    hide Block.Length;
  }

  lemma AnswerOfFull(pieceLength: nat, b: Block)
    requires b.first < b.second <= pieceLength < U32
    ensures var rest := (pieceLength - b.first) % U32;
            (if rest < b.Length() then rest else b.Length()) == b.Length()
  {
    assert (pieceLength - b.first) % U32 == pieceLength - b.first;
  }

  lemma AnswerOfTail(pieceLength: nat, b: Block, n: nat)
    requires b.first + b.second == n <= pieceLength < U32 && b.first < n
    ensures var rest := (pieceLength - b.first) % U32;
            (if rest < b.Length() then rest else b.Length()) == b.Length() <==> b.first <= b.second
  {
    assert (pieceLength - b.first) % U32 == pieceLength - b.first;
    if b.first > b.second {
      assert b.Length() == b.second - b.first + U32;
    }
  }

  /** Every request for a piece is answered by the block asked for if and only if the piece is cut evenly. */
  lemma AllAnsweredIff(f: PeerSend.File, q: nat, p: nat, n: nat, blockSize: nat)
    requires 0 < blockSize && n <= f.pieceLength && f.pieceLength + blockSize < U32
    ensures (forall b :: b in BlocksFrom(0, n, blockSize) ==> Answer(f, RequestFor(q, p, b)) == RequestFor(q, p, b))
       <==> Even(n, blockSize)
  {
    hide Divides, BlocksFrom;
    ZeroDivided(blockSize);
    forall b | b in BlocksFrom(0, n, blockSize)
      ensures Answer(f, RequestFor(q, p, b)) == RequestFor(q, p, b) <==> b.first < b.second
      ensures b.first < b.second || (!Divides(blockSize, n) && b == Tail(n, blockSize))
    {
      AnsweredInFullIff(f, q, p, n, blockSize, b);
      EntryCases(0, n, blockSize, b);
    }
    if !Divides(blockSize, n) {
      TailListed(0, n, blockSize);
      TailForwardIff(n, blockSize);
    }
  }

  /** A file of 13 bytes in pieces of 8 and blocks of 2: the last byte is asked for, and 4 bytes are sent. */
  lemma TailAnswerExample()
    ensures var f, r := PeerSend.File(_ => 0, 8), RequestFor(7, 1, Block(4, 1));
      && Block(4, 1) in BlocksFrom(0, 5, 2) && Answer(f, r).length == 4 && r.length == U32 - 3
  {
    TailEntryExample();
  }

  // ----- Runs in which all blocks come from `SendBlock` -----

  ghost predicate IsAnswer(f: PeerSend.File, e: Event) {
    e.Delivered? ==> exists r :: e.r == Answer(f, r)
  }

  /** The client and its peers share the file's layout. */
  predicate SameLayout(cfg: Settings, f: PeerSend.File) {
    f.pieceLength == cfg.media.pieceLength
  }

  ghost predicate TailWaits(cfg: Settings, st: State, p: nat)
    requires ValidSettings(cfg, st.blockSize) && p < cfg.media.NumberOfPieces()
  {
    p in st.index.needed && Tail(cfg.media.LengthOf(p), st.blockSize) in st.index.needed[p].possible
  }

  lemma PieceLengths(cfg: Settings, p: nat)
    requires cfg.media.Valid() && p < cfg.media.NumberOfPieces()
    ensures 0 < cfg.media.LengthOf(p) <= cfg.media.pieceLength
  {
  }

  /** No answer is taken for the tail of a piece that is not cut evenly. */
  lemma AnswerIsNotTail(f: PeerSend.File, r: Request, n: nat, blockSize: nat)
    requires 0 < blockSize && n <= f.pieceLength && f.pieceLength + blockSize < U32 && !Even(n, blockSize)
    ensures Answer(f, r).Entry() != Tail(n, blockSize)
  {
    hide Divides;
    var tail, a := Tail(n, blockSize), Answer(f, r);
    LastMultiple(n, blockSize);
    LengthInverse(tail);
    if a.Entry() == tail {
      assert a.length <= f.pieceLength - tail.first;
      EndOffsetInjective(tail.first, a.length, tail.Length());
      AnswerOfTail(f.pieceLength, tail, n);
    }
  }

  lemma {:induction false} DropAllKeepsPossible(s: Index, rs: seq<Request>, p: nat)
    ensures p in DropAll(s, rs).needed <==> p in s.needed
    ensures p in s.needed ==> DropAll(s, rs).needed[p].possible == s.needed[p].possible
    decreases |rs|
  {
    if rs != [] && rs[0].piece in s.needed && rs[0].peer in s.byPeer {
      DropAllKeepsPossible(Drop(s, rs[0]), rs[1..], p);
    }
  }

  lemma DeliveryKeepsTail(cfg: Settings, st: State, r: Request, intact: bool, p: nat, tail: Block)
    requires ValidSettings(cfg, st.blockSize) && KeysBelow(st.index, cfg.media.NumberOfPieces())
    requires p in st.index.needed && tail in st.index.needed[p].possible && r.Entry() != tail
    ensures var t := Deliver(cfg, st, r, intact); p in t.index.needed && tail in t.index.needed[p].possible
  {
    hide Without, Media.NumberOfPieces, GeneratePieceNeeded, Request.Entry;
    if r.piece in st.index.needed {
      WithoutMembers(st.index.needed[r.piece].possible, r.Entry());
    }
  }

  /** A new block size that does not divide the piece either leaves it another tail. */
  lemma NewSizeNewTail(cfg: Settings, st: State, blockSize: nat, p: nat)
    requires Good(cfg, st) && ValidSettings(cfg, blockSize) && p < cfg.media.NumberOfPieces() && p in st.index.needed
    requires !Even(cfg.media.LengthOf(p), blockSize)
    ensures TailWaits(cfg, ChangeBlockSize(cfg, st, blockSize), p)
  {
    ChangeBlockSizeGood(cfg, st, blockSize);
    assert p in ChangeBlockSize(cfg, st, blockSize).index.needed.Keys;
    ZeroDivided(blockSize);
    TailListed(0, cfg.media.LengthOf(p), blockSize);
    hide Good, Divides, BlocksFrom, Tail, Media.NumberOfPieces, Media.LengthOf;
  }

  /** A block stays possible until it arrives or the pieces are cut afresh. */
  lemma PossibleStays(cfg: Settings, st: State, e: Event, p: nat, b: Block)
    requires Good(cfg, st) && Enabled(cfg, st, e) && !e.BlockSizeChanged?
    requires p in st.index.needed && b in st.index.needed[p].possible && (e.Delivered? ==> e.r.Entry() != b)
    ensures var t := Apply(cfg, st, e); t.blockSize == st.blockSize && p in t.index.needed && b in t.index.needed[p].possible
  {
    GoodKeys(cfg, st);
    hide Good, Allowed, Media.NumberOfPieces, Request.Entry;
    match e {
      case Delivered(r, intact) => {
        DeliveryKeepsTail(cfg, st, r, intact, p, b);
        DeliverySameSize(cfg, st, r, intact);
        hide Deliver;
      }
      case Closed(q) => {
        if q in st.index.byPeer {
          DropAllKeepsPossible(st.index, st.index.byPeer[q], p);
        }
        hide DropAll;
      }
      case _ => {}
    }
  }

  lemma DeliverySameSize(cfg: Settings, st: State, r: Request, intact: bool)
    requires ValidSettings(cfg, st.blockSize) && KeysBelow(st.index, cfg.media.NumberOfPieces())
    ensures Deliver(cfg, st, r, intact).blockSize == st.blockSize
  {
    hide Media.NumberOfPieces, Without;
  }

  lemma TailStays(cfg: Settings, f: PeerSend.File, st: State, e: Event, p: nat)
    requires Good(cfg, st) && Enabled(cfg, st, e) && SameLayout(cfg, f) && IsAnswer(f, e)
    requires p < cfg.media.NumberOfPieces() && TailWaits(cfg, st, p)
    requires !Even(cfg.media.LengthOf(p), st.blockSize)
    requires e.BlockSizeChanged? ==> e.blockSize > 0 && !Even(cfg.media.LengthOf(p), e.blockSize)
    ensures var t := Apply(cfg, st, e); ValidSettings(cfg, t.blockSize) && TailWaits(cfg, t, p)
    ensures !Even(cfg.media.LengthOf(p), Apply(cfg, st, e).blockSize)
  {
    PieceLengths(cfg, p);
    GoodKeys(cfg, st);
    hide Good, Even, Tail, Deliver, Request.Entry, Allowed, Media.NumberOfPieces, Media.LengthOf;
    if e.BlockSizeChanged? {
      NewSizeNewTail(cfg, st, e.blockSize, p);
      hide ChangeBlockSize;
    } else {
      if e.Delivered? {
        var asked :| e.r == Answer(f, asked);
        AnswerIsNotTail(f, asked, cfg.media.LengthOf(p), st.blockSize);
      }
      PossibleStays(cfg, st, e, p, Tail(cfg.media.LengthOf(p), st.blockSize));
      hide Apply;
    }
  }

  /**
   A piece that is never cut evenly is never completed by answers to requests: its tail is asked for over
   and over. So the download is not completed either.
   */
  lemma {:induction false} UnevenPieceNeverCompletes(
      cfg: Settings, f: PeerSend.File, states: seq<State>, events: seq<Event>, p: nat, i: nat)
    requires IsRun(cfg, states, events) && SameLayout(cfg, f) && i < |states|
    requires forall j :: 0 <= j < |events| ==> IsAnswer(f, events[j])
    requires p < cfg.media.NumberOfPieces() && TailWaits(cfg, states[0], p)
    requires !Even(cfg.media.LengthOf(p), states[0].blockSize)
    requires forall j :: 0 <= j < |events| && events[j].BlockSizeChanged? && events[j].blockSize > 0 ==>
      !Even(cfg.media.LengthOf(p), events[j].blockSize)
    ensures Good(cfg, states[i]) && TailWaits(cfg, states[i], p) && p !in states[i].owned && !states[i].signalled
    ensures !Even(cfg.media.LengthOf(p), states[i].blockSize)
  {
    hide Enabled, Apply, Even, TailWaits, Agrees, WithinCaps, Media.NumberOfPieces, Media.LengthOf;
    EveryReachableStateGood(cfg, states, events, i);
    if i > 0 {
      UnevenPieceNeverCompletes(cfg, f, states, events, p, i - 1);
      assert Follows(cfg, states[i - 1], events[i - 1], states[i - 1 + 1]);
      SizeOfEvent(cfg, states[i - 1], events[i - 1]);
      TailStays(cfg, f, states[i - 1], events[i - 1], p);
    }
    NeededNotOwned(cfg, states[i], p);
  }

  lemma SizeOfEvent(cfg: Settings, st: State, e: Event)
    requires Enabled(cfg, st, e)
    ensures e.BlockSizeChanged? ==> e.blockSize > 0
  {
  }

  lemma NeededNotOwned(cfg: Settings, st: State, p: nat)
    requires Good(cfg, st) && p < cfg.media.NumberOfPieces() && TailWaits(cfg, st, p)
    ensures p !in st.owned && !st.signalled
  {
    hide Media.NumberOfPieces, Agrees, WithinCaps;
    PiecesConserved(cfg, st);
    assert p in st.index.needed.Keys;
  }

  // ----- Pieces that can be completed -----

  /** The blocks still possible are among those the piece was cut into. */
  ghost predicate CutAsGenerated(cfg: Settings, st: State)
    requires ValidSettings(cfg, st.blockSize)
  {
    forall p, b :: p in st.index.needed && b in st.index.needed[p].possible ==>
      p < cfg.media.NumberOfPieces() && b in BlocksFrom(0, cfg.media.LengthOf(p), st.blockSize)
  }

  lemma DeliveryKeepsCut(cfg: Settings, st: State, r: Request, intact: bool)
    requires ValidSettings(cfg, st.blockSize) && KeysBelow(st.index, cfg.media.NumberOfPieces()) && CutAsGenerated(cfg, st)
    ensures CutAsGenerated(cfg, Deliver(cfg, st, r, intact))
  {
    hide Without, Media.NumberOfPieces, Media.LengthOf, BlocksFrom, Request.Entry;
    if r.piece in st.index.needed {
      WithoutMembers(st.index.needed[r.piece].possible, r.Entry());
    }
  }

  lemma ApplyKeepsCut(cfg: Settings, st: State, e: Event)
    requires Good(cfg, st) && Enabled(cfg, st, e) && CutAsGenerated(cfg, st)
    ensures ValidSettings(cfg, Apply(cfg, st, e).blockSize) && CutAsGenerated(cfg, Apply(cfg, st, e))
  {
    GoodKeys(cfg, st);
    hide Good, Allowed, Media.NumberOfPieces, Media.LengthOf, BlocksFrom;
    match e {
      case Delivered(r, intact) => {
        DeliveryKeepsCut(cfg, st, r, intact);
        hide Deliver;
      }
      case Closed(q) => {
        if q in st.index.byPeer {
          forall p ensures p in DropAll(st.index, st.index.byPeer[q]).needed <==> p in st.index.needed
            ensures p in st.index.needed ==> DropAll(st.index, st.index.byPeer[q]).needed[p].possible == st.index.needed[p].possible
          {
            DropAllKeepsPossible(st.index, st.index.byPeer[q], p);
          }
        }
        hide DropAll;
      }
      case _ => {}
    }
  }

  lemma {:induction false} EveryReachableStateCut(cfg: Settings, states: seq<State>, events: seq<Event>, i: nat)
    requires IsRun(cfg, states, events) && i < |states| && CutAsGenerated(cfg, states[0])
    ensures Good(cfg, states[i]) && CutAsGenerated(cfg, states[i])
  {
    hide Good, Enabled, Apply, CutAsGenerated;
    EveryReachableStateGood(cfg, states, events, i);
    if i > 0 {
      EveryReachableStateCut(cfg, states, events, i - 1);
      assert Follows(cfg, states[i - 1], events[i - 1], states[i - 1 + 1]);
      ApplyKeepsCut(cfg, states[i - 1], events[i - 1]);
    }
  }

  /** Every pending request of an evenly cut piece is answered by exactly the block asked for. */
  lemma PendingIsAnswered(cfg: Settings, f: PeerSend.File, st: State, r: Request)
    requires Good(cfg, st) && CutAsGenerated(cfg, st) && SameLayout(cfg, f) && Pending(st.index, r)
    requires r.piece < cfg.media.NumberOfPieces() && Even(cfg.media.LengthOf(r.piece), st.blockSize)
    ensures Answer(f, r) == r
  {
    assert PieceOk(r.piece, st.index.needed[r.piece]);
    var b := r.Entry();
    PieceLengths(cfg, r.piece);
    hide Media.NumberOfPieces, Media.LengthOf, BlocksFrom, Divides, Agrees, WithinCaps, Conserved, PeersOf, Distinct;
    assert b in st.index.needed[r.piece].possible && b.first < U32 && b.second < U32;
    LengthInverse(b);
    EndOffsetInjective(r.offset, r.length, b.Length());
    AllAnsweredIff(f, r.peer, r.piece, cfg.media.LengthOf(r.piece), st.blockSize);
  }

  // ----- Completing a piece -----

  /** A peer with nothing outstanding and a piece nobody is asked for, with caps that allow a request. */
  ghost predicate Idle(cfg: Settings, st: State, p: nat, q: nat) {
    && p in st.index.needed && st.index.needed[p].pending == []
    && q in st.index.byPeer && st.index.byPeer[q] == []
    && cfg.perPeer > 0 && cfg.perPiece > 0 && cfg.perPeerPerPiece > 0
  }

  lemma IdleAsk(cfg: Settings, st: State, p: nat, q: nat, b: Block)
    requires Good(cfg, st) && Idle(cfg, st, p, q) && b in st.index.needed[p].possible
    ensures Enabled(cfg, st, Asked(RequestFor(q, p, b)))
  {
    assert PieceOk(p, st.index.needed[p]);
    hide Conserved, Distinct, Requestable, Block.Length;
  }

  /** A block is asked for and arrives: the piece is complete, or one block closer to it and idle again. */
  lemma AskAndDeliver(cfg: Settings, st: State, p: nat, q: nat, b: Block)
    requires Good(cfg, st) && Idle(cfg, st, p, q) && b in st.index.needed[p].possible
    ensures var r := RequestFor(q, p, b);
      && r.piece in st.index.needed && r.peer in st.index.byPeer && r.Entry() == b
      && ValidSettings(cfg, st.blockSize) && KeysBelow(Ask(st, r).index, cfg.media.NumberOfPieces())
      && Pending(Ask(st, r).index, r)
      && var t := Deliver(cfg, Ask(st, r), r, true);
         && t.blockSize == st.blockSize
         && if Without(st.index.needed[p].possible, b) == [] then p in t.owned
            else Idle(cfg, t, p, q) && t.index.needed[p].possible == Without(st.index.needed[p].possible, b)
  {
    GoodKeys(cfg, st);
    assert PieceOk(p, st.index.needed[p]);
    LengthInverse(b);
    var r := RequestFor(q, p, b);
    hide Good, Distinct, Requestable, Block.Length, Media.NumberOfPieces, PeersOf;
    assert Add(st.index, r).needed[p].pending == [r] && Add(st.index, r).byPeer[q] == [r];
    assert Without([r], r) == [];
    hide Without;
  }

  /** A run from the given state, with all blocks from `SendBlock` and of one size, that completes the piece. */
  ghost predicate Completes(
      cfg: Settings, f: PeerSend.File, st: State, p: nat, states: seq<State>, events: seq<Event>)
  {
    && IsRun(cfg, states, events) && states[0] == st
    && (forall j :: 0 <= j < |events| ==> IsAnswer(f, events[j]) && !events[j].BlockSizeChanged?)
    && p in states[|events|].owned
  }

  lemma CompletesPrepend(
      cfg: Settings, f: PeerSend.File, st: State, e: Event, p: nat, states: seq<State>, events: seq<Event>)
    requires Good(cfg, st) && Enabled(cfg, st, e) && IsAnswer(f, e) && !e.BlockSizeChanged?
    requires Completes(cfg, f, Apply(cfg, st, e), p, states, events)
    ensures Completes(cfg, f, st, p, [st] + states, [e] + events)
  {
    hide Good, Enabled, Apply, IsAnswer;
    forall i | 0 <= i < |[e] + events|
      ensures Follows(cfg, ([st] + states)[i], ([e] + events)[i], ([st] + states)[i + 1])
    {
      if i > 0 {
        assert Follows(cfg, states[i - 1], events[i - 1], states[i - 1 + 1]);
      }
    }
  }

  lemma CompletesAtOnce(cfg: Settings, f: PeerSend.File, st: State, p: nat)
    requires Good(cfg, st) && p in st.owned
    ensures Completes(cfg, f, st, p, [st], [])
  {
    hide Good;
  }

  /** The run that asks for one block after the other and receives it. */
  lemma {:induction false} CompletionRun(cfg: Settings, f: PeerSend.File, st: State, p: nat, q: nat)
    returns (states: seq<State>, events: seq<Event>)
    requires Good(cfg, st) && CutAsGenerated(cfg, st) && SameLayout(cfg, f) && Idle(cfg, st, p, q)
    requires p < cfg.media.NumberOfPieces() && Even(cfg.media.LengthOf(p), st.blockSize)
    ensures Completes(cfg, f, st, p, states, events)
    decreases |st.index.needed[p].possible|
  {
    assert PieceOk(p, st.index.needed[p]);
    var possible := st.index.needed[p].possible;
    EraseIsWithout(possible, 0);
    var b := possible[0];
    var r := RequestFor(q, p, b);
    IdleAsk(cfg, st, p, q, b);
    AskAndDeliver(cfg, st, p, q, b);
    hide Good, CutAsGenerated, Completes, Even, Idle, Without, Deliver, Enabled, Distinct, Pending, Answer, PieceOk, Agrees,
         WithinCaps, Conserved, Media.NumberOfPieces, Media.LengthOf;
    ApplyGood(cfg, st, Asked(r));
    ApplyKeepsCut(cfg, st, Asked(r));
    var asked := Ask(st, r);
    PendingIsAnswered(cfg, f, asked, r);
    var delivered := Deliver(cfg, asked, r, true);
    DeliveryEnabled(cfg, asked, r, true);
    ApplyGood(cfg, asked, Delivered(r, true));
    ApplyKeepsCut(cfg, asked, Delivered(r, true));
    if Without(possible, b) == [] {
      CompletesAtOnce(cfg, f, delivered, p);
      states, events := [delivered], [];
    } else {
      states, events := CompletionRun(cfg, f, delivered, p, q);
    }
    CompletesPrepend(cfg, f, asked, Delivered(r, true), p, states, events);
    states, events := [asked] + states, [Delivered(r, true)] + events;
    CompletesPrepend(cfg, f, st, Asked(r), p, states, events);
    states, events := [st] + states, [Asked(r)] + events;
  }

  lemma DeliveryEnabled(cfg: Settings, st: State, r: Request, intact: bool)
    ensures Enabled(cfg, st, Delivered(r, intact))
  {
  }

  /**
   A missing piece can be completed by answers to requests if and only if it is cut evenly. The caps must
   allow a request at all.
   */
  lemma CompletableIff(cfg: Settings, f: PeerSend.File, blockSize: nat, owned: set<nat>, bytes: int, p: nat)
    requires ValidSettings(cfg, blockSize) && SameLayout(cfg, f)
    requires cfg.perPeer > 0 && cfg.perPiece > 0 && cfg.perPeerPerPiece > 0
    requires (forall o :: o in owned ==> o < cfg.media.NumberOfPieces()) && p < cfg.media.NumberOfPieces() && p !in owned
    ensures (exists states, events :: Completes(cfg, f, Start(cfg, blockSize, owned, bytes), p, states, events))
       <==> Even(cfg.media.LengthOf(p), blockSize)
  {
    var start := Start(cfg, blockSize, owned, bytes);
    StartIsGood(cfg, blockSize, owned, bytes);
    StartIsCut(cfg, blockSize, owned, bytes, p);
    var n := cfg.media.LengthOf(p);
    if Even(n, blockSize) {
      var q := 0;
      RegisteredIdle(cfg, start, p, q);
      hide Good, CutAsGenerated, Completes, Idle, Enabled, Apply, Even, Start, Media.NumberOfPieces, Media.LengthOf;
      ApplyGood(cfg, start, Registered(q));
      ApplyKeepsCut(cfg, start, Registered(q));
      var states, events := CompletionRun(cfg, f, Apply(cfg, start, Registered(q)), p, q);
      CompletesPrepend(cfg, f, start, Registered(q), p, states, events);
    } else {
      hide Good, TailWaits, Enabled, Apply, Even, Start, IsAnswer, Media.NumberOfPieces, Media.LengthOf;
      forall states, events | Completes(cfg, f, start, p, states, events) ensures false {
        UnevenPieceNeverCompletes(cfg, f, states, events, p, |events|);
      }
    }
  }

  lemma StartIsCut(cfg: Settings, blockSize: nat, owned: set<nat>, bytes: int, p: nat)
    requires ValidSettings(cfg, blockSize) && p < cfg.media.NumberOfPieces() && p !in owned
    ensures CutAsGenerated(cfg, Start(cfg, blockSize, owned, bytes))
    ensures Start(cfg, blockSize, owned, bytes).index.needed[p].pending == []
    ensures !Even(cfg.media.LengthOf(p), blockSize) ==> TailWaits(cfg, Start(cfg, blockSize, owned, bytes), p)
  {
    ZeroDivided(blockSize);
    if !Divides(blockSize, cfg.media.LengthOf(p)) {
      TailListed(0, cfg.media.LengthOf(p), blockSize);
    }
    hide Media.NumberOfPieces, Media.LengthOf, BlocksFrom, Divides, Tail;
  }

  lemma RegisteredIdle(cfg: Settings, st: State, p: nat, q: nat)
    requires Good(cfg, st) && p < cfg.media.NumberOfPieces() && p in st.index.needed && st.index.needed[p].pending == []
    requires q !in st.index.byPeer && cfg.perPeer > 0 && cfg.perPiece > 0 && cfg.perPeerPerPiece > 0
    ensures Enabled(cfg, st, Registered(q)) && Idle(cfg, Apply(cfg, st, Registered(q)), p, q)
    ensures Apply(cfg, st, Registered(q)).blockSize == st.blockSize
  {
    hide Agrees, WithinCaps, Media.NumberOfPieces;
    PiecesConserved(cfg, st);
    assert p in st.index.needed.Keys;
  }
}
