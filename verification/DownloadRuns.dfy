/**
 The event handlers of the part selection strategy and whole runs of them: what every reachable
 state of a download keeps.
 */
module DownloadRuns {
  import opened Lists
  import opened Tiling
  import opened Bitfields
  import opened RequestIndex
  import opened PartSelection

  // ----- The handlers -----

  /** ProcessBitfieldReceivedEvent: the peer's list of requests starts empty. */
  function RegisterPeer(st: State, q: nat): State {
    if st.signalled then st else st.(index := Register(st.index, q))
  }

  /** RequestBlock, for a block chosen by whatever strategy. */
  function Ask(st: State, r: Request): State
    requires r.piece in st.index.needed && r.peer in st.index.byPeer
  {
    st.(index := Add(st.index, r))
  }

  /** ProcessRequestTimeout, for a timeout event that is still scheduled. */
  function TimeOut(st: State, r: Request): State
    requires r.piece in st.index.needed && r.peer in st.index.byPeer
  {
    st.(index := Drop(st.index, r))
  }

  /** The documented reaction to a closed connection: all requests to the peer are given up. */
  ghost function ClosePeer(st: State, q: nat): State {
    if q in st.index.byPeer
    then st.(index := Forget(DropAll(st.index, st.index.byPeer[q]), q))
    else st
  }

  /** ProcessCompletedPiece: the piece is owned, and the last one completes the download. */
  ghost function CompletePiece(cfg: Settings, st: State, p: nat): State
    requires cfg.media.Valid() && p < cfg.media.NumberOfPieces()
  {
    st.(index := ErasePiece(st.index, p),
        owned := st.owned + {p},
        bytes := st.bytes + cfg.media.CountedLength(p),
        completions := st.completions + [p],
        signalled := st.signalled || |st.owned + {p}| == cfg.media.NumberOfPieces())
  }

  /** A delivered block, after its request is gone: mark it received, and finish its piece if it was the last. */
  ghost function Settle(cfg: Settings, st: State, r: Request, intact: bool): State
    requires ValidSettings(cfg, st.blockSize)
    requires r.piece in st.index.needed && r.piece < cfg.media.NumberOfPieces()
  {
    if Without(st.index.needed[r.piece].possible, r.Entry()) != [] then
      st.(index := RemoveBlock(st.index, r.piece, r.Entry()))
    else if intact then CompletePiece(cfg, st, r.piece)
    else st.(index := PutPiece(st.index, r.piece, GeneratePieceNeeded(cfg, st.blockSize, r.piece)))
  }

  /**
   ProcessPeerBlockCompleteEvent up to its call of the scheduler; a block that was not asked for is
   ignored. `intact` is the outcome of the check of the downloaded data for the piece.
   */
  ghost function Deliver(cfg: Settings, st: State, r: Request, intact: bool): State
    requires ValidSettings(cfg, st.blockSize)
    requires KeysBelow(st.index, cfg.media.NumberOfPieces())
  {
    if !Listed(st.index, r) || r.piece !in st.index.needed then st
    else Settle(cfg, st.(index := Drop(st.index, r)), r, intact)
  }

  /** All missing pieces, cut afresh (InitializeNeededPiecesMap). */
  ghost function AllNeeded(cfg: Settings, blockSize: nat, owned: set<nat>): map<nat, PieceNeeded>
    requires ValidSettings(cfg, blockSize)
  {
    map p | 0 <= p < cfg.media.NumberOfPieces() && p !in owned :: GeneratePieceNeeded(cfg, blockSize, p)
  }

  /** ProcessStrategyOptionsChangedEvent for a new block size: every request is cancelled. */
  ghost function ChangeBlockSize(cfg: Settings, st: State, blockSize: nat): State
    requires ValidSettings(cfg, blockSize)
  {
    st.(index := Index(AllNeeded(cfg, blockSize, st.owned), map q | q in st.index.byPeer :: [], {}),
        blockSize := blockSize)
  }

  ghost function Start(cfg: Settings, blockSize: nat, owned: set<nat>, bytes: int): State
    requires ValidSettings(cfg, blockSize)
  {
    State(Index(AllNeeded(cfg, blockSize, owned), map[], {}), blockSize, owned, [],
          |owned| == cfg.media.NumberOfPieces(), bytes)
  }

  // ----- What every reachable state keeps -----

  /** Pieces are needed or owned, never both; completion is signalled exactly when none is needed. */
  ghost predicate Conserved(cfg: Settings, st: State)
    requires cfg.media.Valid()
  {
    && (forall p: nat :: p in st.index.needed <==> p < cfg.media.NumberOfPieces() && p !in st.owned)
    && (forall p :: p in st.owned ==> p < cfg.media.NumberOfPieces())
    && Distinct(st.completions) && (forall c :: c in st.completions ==> c in st.owned)
    && (st.signalled <==> |st.owned| == cfg.media.NumberOfPieces())
  }

  ghost predicate Good(cfg: Settings, st: State) {
    && ValidSettings(cfg, st.blockSize)
    && Agrees(st.index) && WithinCaps(cfg, st.index) && Conserved(cfg, st)
  }

  /** The pieces below n. */
  ghost function Below(n: nat): (r: set<nat>)
    ensures |r| == n
    ensures forall x: nat :: x in r <==> x < n
  {
    if n == 0 then {} else Below(n - 1) + {n - 1}
  }

  /** Needed pieces plus owned pieces always make up the whole file. */
  lemma PiecesConserved(cfg: Settings, st: State)
    requires cfg.media.Valid() && Conserved(cfg, st)
    ensures |st.index.needed.Keys| + |st.owned| == cfg.media.NumberOfPieces()
    ensures st.signalled <==> st.index.needed.Keys == {}
  {
    var n := cfg.media.NumberOfPieces();
    hide Media.NumberOfPieces, Distinct;
    assert st.index.needed.Keys == Below(n) - st.owned;
    assert st.owned <= Below(n);
    assert |Below(n) - st.owned| == n - |st.owned|;
  }

  lemma StartIsGood(cfg: Settings, blockSize: nat, owned: set<nat>, bytes: int)
    requires ValidSettings(cfg, blockSize)
    requires forall p :: p in owned ==> p < cfg.media.NumberOfPieces()
    ensures Good(cfg, Start(cfg, blockSize, owned, bytes))
  {
    AllNeededAgrees(cfg, blockSize, owned, map[]);
    AllNeededCaps(cfg, blockSize, owned, map[]);
    hide Media.NumberOfPieces, Agrees, WithinCaps;
  }

  lemma AllNeededAgrees(cfg: Settings, blockSize: nat, owned: set<nat>, byPeer: map<nat, seq<Request>>)
    requires ValidSettings(cfg, blockSize) && forall q :: q in byPeer ==> byPeer[q] == []
    ensures Agrees(Index(AllNeeded(cfg, blockSize, owned), byPeer, {}))
  {
    hide PieceOk, Media.NumberOfPieces;
    var needed := AllNeeded(cfg, blockSize, owned);
    forall p | p in needed ensures PieceOk(p, needed[p]) {
      GeneratedPieceOk(cfg, blockSize, p);
    }
    assert PiecesOk(needed);
  }

  lemma AllNeededCaps(cfg: Settings, blockSize: nat, owned: set<nat>, byPeer: map<nat, seq<Request>>)
    requires ValidSettings(cfg, blockSize) && forall q :: q in byPeer ==> byPeer[q] == []
    ensures WithinCaps(cfg, Index(AllNeeded(cfg, blockSize, owned), byPeer, {}))
  {
    hide Media.NumberOfPieces, BlocksFrom;
  }

  lemma RegisterGood(cfg: Settings, st: State, q: nat)
    requires Good(cfg, st) && (q in st.index.byPeer ==> st.index.byPeer[q] == [])
    ensures Good(cfg, RegisterPeer(st, q))
  {
    hide Agrees, Conserved;
    RegisterKeepsAgreement(st.index, q);
    ConservedByKeys(cfg, st, RegisterPeer(st, q));
  }

  /** Conservation only looks at which pieces are needed. */
  lemma ConservedByKeys(cfg: Settings, st: State, t: State)
    requires cfg.media.Valid() && Conserved(cfg, st)
    requires t.index.needed.Keys == st.index.needed.Keys
    requires t.owned == st.owned && t.completions == st.completions && t.signalled == st.signalled
    ensures Conserved(cfg, t)
  {
    hide Media.NumberOfPieces, Distinct;
    assert forall p: nat :: p in t.index.needed <==> p in st.index.needed.Keys;
  }

  lemma AskGood(cfg: Settings, st: State, r: Request)
    requires Good(cfg, st) && Allowed(cfg, st.index, r) && Fresh(st.index, r)
    ensures Good(cfg, Ask(st, r))
  {
    hide Agrees, Conserved, WithinCaps, Fresh;
    AddKeepsAgreement(st.index, r);
    AddKeepsCaps(cfg, st.index, r);
    ConservedByKeys(cfg, st, Ask(st, r));
  }

  lemma DropGood(cfg: Settings, st: State, r: Request)
    requires Good(cfg, st) && Pending(st.index, r)
    ensures r.piece in st.index.needed && r.peer in st.index.byPeer
    ensures Good(cfg, st.(index := Drop(st.index, r)))
    ensures forall x :: Pending(Drop(st.index, r), x) <==> Pending(st.index, x) && x != r
  {
    assert Listed(st.index, r);
    hide Agrees, Conserved, WithinCaps;
    DropKeepsAgreement(st.index, r);
    DropKeepsCaps(cfg, st.index, r);
    ConservedByKeys(cfg, st, st.(index := Drop(st.index, r)));
    forall x ensures Pending(Drop(st.index, r), x) <==> Pending(st.index, x) && x != r {
      DropMembers(st.index, r, x);
    }
  }

  lemma TimeOutGood(cfg: Settings, st: State, r: Request)
    requires Good(cfg, st) && r in st.index.timeouts
    ensures r.piece in st.index.needed && r.peer in st.index.byPeer
    ensures Good(cfg, TimeOut(st, r))
    ensures forall x :: Pending(TimeOut(st, r).index, x) <==> Pending(st.index, x) && x != r
  {
    assert Pending(st.index, r);
    hide Good, Pending;
    DropGood(cfg, st, r);
  }

  lemma ClosePeerGood(cfg: Settings, st: State, q: nat)
    requires Good(cfg, st)
    ensures Good(cfg, ClosePeer(st, q))
    ensures q !in ClosePeer(st, q).index.byPeer
    ensures forall r :: Pending(ClosePeer(st, q).index, r) <==> Pending(st.index, r) && r.peer != q
  {
    hide Conserved, WithinCaps;
    if q in st.index.byPeer {
      DropAllOfPeer(st.index, q);
      var t := DropAll(st.index, st.index.byPeer[q]);
      DropAllKeepsCaps(cfg, st.index, st.index.byPeer[q]);
      forall r ensures Pending(t, r) <==> Pending(st.index, r) && r.peer != q {
        DropAllKeepsOthers(st.index, q, r);
      }
      ForgetCaps(cfg, t, q);
      ForgetKeepsAgreement(t, q);
      hide Agrees;
      ConservedByKeys(cfg, st, ClosePeer(st, q));
    } else {
      forall r | Pending(st.index, r) ensures r.peer != q {
        assert Listed(st.index, r);
      }
    }
  }

  lemma ForgetCaps(cfg: Settings, s: Index, q: nat)
    requires WithinCaps(cfg, s)
    ensures WithinCaps(cfg, Forget(s, q))
  {
  }

  lemma ChangeBlockSizeGood(cfg: Settings, st: State, blockSize: nat)
    requires Good(cfg, st) && ValidSettings(cfg, blockSize)
    ensures Good(cfg, ChangeBlockSize(cfg, st, blockSize))
    ensures ChangeBlockSize(cfg, st, blockSize).index.needed.Keys == st.index.needed.Keys
  {
    hide Agrees, WithinCaps, Media.NumberOfPieces;
    var t := ChangeBlockSize(cfg, st, blockSize);
    AllNeededAgrees(cfg, blockSize, st.owned, t.index.byPeer);
    AllNeededCaps(cfg, blockSize, st.owned, t.index.byPeer);
    assert t.index.needed.Keys == st.index.needed.Keys;
    ConservedByKeys(cfg, st, t);
  }

  /** Once its request is dropped, nothing pending stands for the delivered block. */
  lemma DroppedEntryFree(s: Index, r: Request)
    requires Agrees(s) && Pending(s, r)
    ensures r.piece in s.needed && r.peer in s.byPeer
    ensures EntryFree(Drop(s, r), r)
  {
    assert Listed(s, r) && PieceOk(r.piece, s.needed[r.piece]);
    WithoutMembers(s.needed[r.piece].pending, r);
    hide Without, Request.Entry, Requestable, PeersOf;
  }

  ghost predicate EntryFree(s: Index, r: Request) {
    && r.piece in s.needed && r.Entry() in s.needed[r.piece].possible
    && forall x :: x in s.needed[r.piece].pending ==> x.Entry() != r.Entry()
  }

  /** A piece whose last possible block arrived has no request left. */
  lemma LastBlockLeavesNoRequest(s: Index, r: Request)
    requires Agrees(s) && EntryFree(s, r)
    requires Without(s.needed[r.piece].possible, r.Entry()) == []
    ensures s.needed[r.piece].pending == []
  {
    var pn := s.needed[r.piece];
    assert PieceOk(r.piece, pn);
    WithoutMembers(pn.possible, r.Entry());
    assert forall x :: x in pn.pending ==> x.Entry() in pn.possible;
  }

  lemma SettleAgrees(cfg: Settings, st: State, r: Request, intact: bool)
    requires ValidSettings(cfg, st.blockSize) && Agrees(st.index) && WithinCaps(cfg, st.index)
    requires EntryFree(st.index, r) && r.piece < cfg.media.NumberOfPieces()
    ensures var t := Settle(cfg, st, r, intact);
            && Agrees(t.index) && WithinCaps(cfg, t.index)
            && forall x :: Pending(t.index, x) <==> Pending(st.index, x)
  {
    hide Agrees, Media.NumberOfPieces;
    if Without(st.index.needed[r.piece].possible, r.Entry()) != [] {
      RemoveBlockKeepsAgreement(st.index, r.piece, r.Entry());
    } else {
      LastBlockLeavesNoRequest(st.index, r);
      if intact {
        ErasePieceKeepsAgreement(st.index, r.piece);
      } else {
        GeneratedPieceOk(cfg, st.blockSize, r.piece);
        PutPieceKeepsAgreement(st.index, r.piece, GeneratePieceNeeded(cfg, st.blockSize, r.piece));
      }
    }
  }

  lemma SettleConserves(cfg: Settings, st: State, r: Request, intact: bool)
    requires ValidSettings(cfg, st.blockSize) && Conserved(cfg, st)
    requires r.piece in st.index.needed && r.piece < cfg.media.NumberOfPieces()
    ensures Conserved(cfg, Settle(cfg, st, r, intact))
    ensures st.owned <= Settle(cfg, st, r, intact).owned <= st.owned + {r.piece}
  {
    hide Media.NumberOfPieces, Distinct, Without, GeneratePieceNeeded;
    var t := Settle(cfg, st, r, intact);
    if t.owned != st.owned {
      PiecesConserved(cfg, st);
      DistinctAppend(st.completions, r.piece);
    } else {
      ConservedByKeys(cfg, st, t);
    }
  }

  lemma GoodKeys(cfg: Settings, st: State)
    requires Good(cfg, st)
    ensures ValidSettings(cfg, st.blockSize) && KeysBelow(st.index, cfg.media.NumberOfPieces())
    ensures forall r :: Pending(st.index, r) <==> Listed(st.index, r)
    ensures forall r :: Pending(st.index, r) ==> r.piece in st.index.needed && r.piece < cfg.media.NumberOfPieces()
  {
    hide Media.NumberOfPieces, WithinCaps;
  }

  lemma SettleGood(cfg: Settings, st: State, r: Request, intact: bool)
    requires Good(cfg, st) && EntryFree(st.index, r)
    requires r.piece in st.index.needed && r.piece < cfg.media.NumberOfPieces()
    ensures Good(cfg, Settle(cfg, st, r, intact))
    ensures forall x :: Pending(Settle(cfg, st, r, intact).index, x) <==> Pending(st.index, x)
    ensures st.owned <= Settle(cfg, st, r, intact).owned <= st.owned + {r.piece}
  {
    hide Agrees, WithinCaps, Pending, EntryFree, Conserved;
    SettleAgrees(cfg, st, r, intact);
    SettleConserves(cfg, st, r, intact);
  }

  /** What a delivery does to the requests, and to the pieces owned. */
  lemma DeliverGood(cfg: Settings, st: State, r: Request, intact: bool)
    requires Good(cfg, st)
    ensures ValidSettings(cfg, st.blockSize) && KeysBelow(st.index, cfg.media.NumberOfPieces())
    ensures Good(cfg, Deliver(cfg, st, r, intact))
    ensures forall x :: Pending(Deliver(cfg, st, r, intact).index, x) <==> Pending(st.index, x) && x != r
    ensures st.owned <= Deliver(cfg, st, r, intact).owned <= st.owned + {r.piece}
  {
    GoodKeys(cfg, st);
    assert Agrees(st.index);
    hide Good, Agrees, Settle, WithinCaps, Pending, Listed, Drop, EntryFree, KeysBelow, ValidSettings;
    if Pending(st.index, r) {
      DroppedEntryFree(st.index, r);
      DropGood(cfg, st, r);
      SettleGood(cfg, st.(index := Drop(st.index, r)), r, intact);
    }
  }

  // ----- Runs -----

  datatype Event =
    | Registered(peer: nat)
    | Asked(r: Request)
    | Delivered(r: Request, intact: bool)
    | TimedOut(r: Request)
    | Closed(peer: nat)
    | BlockSizeChanged(blockSize: nat)

  /** When an event can happen. */
  ghost predicate Enabled(cfg: Settings, st: State, e: Event) {
    match e
    case Registered(q) => q in st.index.byPeer ==> st.index.byPeer[q] == []
    case Asked(r) =>
      && Allowed(cfg, st.index, r)
      && exists b :: b in st.index.needed[r.piece].possible && r == RequestFor(r.peer, r.piece, b)
    case Delivered(_, _) => true
    case TimedOut(r) => r in st.index.timeouts
    case Closed(_) => true
    case BlockSizeChanged(blockSize) => ValidSettings(cfg, blockSize)
  }

  ghost function Apply(cfg: Settings, st: State, e: Event): State
    requires Good(cfg, st) && Enabled(cfg, st, e)
  {
    match e
    case Registered(q) => RegisterPeer(st, q)
    case Asked(r) => Ask(st, r)
    case Delivered(r, intact) => DeliverGood(cfg, st, r, intact); Deliver(cfg, st, r, intact)
    case TimedOut(r) => TimeOutGood(cfg, st, r); TimeOut(st, r)
    case Closed(q) => ClosePeer(st, q)
    case BlockSizeChanged(blockSize) => ChangeBlockSize(cfg, st, blockSize)
  }

  lemma ApplyGood(cfg: Settings, st: State, e: Event)
    requires Good(cfg, st) && Enabled(cfg, st, e)
    ensures Good(cfg, Apply(cfg, st, e))
    ensures st.owned <= Apply(cfg, st, e).owned
  {
    match e
    case Registered(q) =>
      hide Good;
      RegisterGood(cfg, st, q);
    case Asked(r) =>
      var b :| b in st.index.needed[r.piece].possible && r == RequestFor(r.peer, r.piece, b);
      AllowedIsFresh(cfg, st.index, r.peer, r.piece, b);
      hide Good, Fresh, Allowed;
      AskGood(cfg, st, r);
    case Delivered(r, intact) =>
      hide Good;
      DeliverGood(cfg, st, r, intact);
    case TimedOut(r) =>
      hide Good;
      TimeOutGood(cfg, st, r);
    case Closed(q) =>
      hide Good;
      ClosePeerGood(cfg, st, q);
    case BlockSizeChanged(blockSize) =>
      hide Good;
      ChangeBlockSizeGood(cfg, st, blockSize);
  }

  ghost predicate Follows(cfg: Settings, st: State, e: Event, next: State) {
    Good(cfg, st) ==> Enabled(cfg, st, e) && next == Apply(cfg, st, e)
  }

  /** A run: a good start, then one enabled event after the other. */
  ghost predicate IsRun(cfg: Settings, states: seq<State>, events: seq<Event>) {
    && |states| == |events| + 1
    && Good(cfg, states[0])
    && forall i :: 0 <= i < |events| ==> Follows(cfg, states[i], events[i], states[i + 1])
  }

  /**
   Every state of every run is good: the four places agree, the caps hold, no block is asked for
   twice, needed and owned pieces make up the file, each piece completed at most once, and the
   completion was signalled exactly if nothing is needed any more. Owned pieces stay owned.
   */
  lemma {:induction false} EveryReachableStateGood(cfg: Settings, states: seq<State>, events: seq<Event>, i: nat)
    requires IsRun(cfg, states, events) && i < |states|
    ensures Good(cfg, states[i])
    ensures states[0].owned <= states[i].owned
  {
    if i > 0 {
      hide Good, Enabled, Apply;
      EveryReachableStateGood(cfg, states, events, i - 1);
      assert Follows(cfg, states[i - 1], events[i - 1], states[i - 1 + 1]);
      ApplyGood(cfg, states[i - 1], events[i - 1]);
    }
  }

  // ----- What a delivery does -----

  /** The block asked for is all that is missing of its piece. */
  ghost predicate IsLastBlock(s: Index, r: Request) {
    r.piece in s.needed && s.needed[r.piece].possible == [r.Entry()]
  }

  lemma DroppedPossible(s: Index, r: Request)
    requires Agrees(s) && Listed(s, r)
    ensures r.piece in s.needed && r.peer in s.byPeer
    ensures r.Entry() in s.needed[r.piece].possible && Distinct(s.needed[r.piece].possible)
    ensures Drop(s, r).needed.Keys == s.needed.Keys
    ensures forall p :: p in s.needed ==> Drop(s, r).needed[p].possible == s.needed[p].possible
    ensures forall p :: p in s.needed && p != r.piece ==> Drop(s, r).needed[p] == s.needed[p]
  {
    assert Pending(s, r) && PieceOk(r.piece, s.needed[r.piece]);
    hide Without, Distinct, Request.Entry;
  }

  /**
   A piece is owned after a delivery if and only if it was before, or the block was asked for, was the last
   one missing of its piece, and the piece passed the check of its data.
   */
  lemma DeliveryOwnsIff(cfg: Settings, st: State, r: Request, intact: bool, p: nat)
    requires Good(cfg, st)
    ensures ValidSettings(cfg, st.blockSize) && KeysBelow(st.index, cfg.media.NumberOfPieces())
    ensures p in Deliver(cfg, st, r, intact).owned
       <==> p in st.owned || (p == r.piece && intact && Listed(st.index, r) && IsLastBlock(st.index, r))
  {
    GoodKeys(cfg, st);
    assert Agrees(st.index);
    hide Good, Agrees, Listed, Without, Distinct, Drop, Media.NumberOfPieces, GeneratePieceNeeded, Request.Entry, KeysBelow;
    if Listed(st.index, r) {
      DroppedPossible(st.index, r);
      WithoutEmptyIff(st.index.needed[r.piece].possible, r.Entry());
    }
  }

  /** A block that nobody was asked for changes nothing. */
  lemma UnaskedIgnored(cfg: Settings, st: State, r: Request, intact: bool)
    requires Good(cfg, st) && r !in st.index.timeouts
    ensures ValidSettings(cfg, st.blockSize) && KeysBelow(st.index, cfg.media.NumberOfPieces())
    ensures Deliver(cfg, st, r, intact) == st
  {
    GoodKeys(cfg, st);
    hide Good, Settle, Drop, Media.NumberOfPieces;
    assert !Pending(st.index, r);
  }

  /** A block that was asked for is no longer possible, and all others of its piece are, unless it was the last. */
  lemma DeliveryRemovesBlock(cfg: Settings, st: State, r: Request, intact: bool, b: Block)
    requires Good(cfg, st) && Listed(st.index, r) && !IsLastBlock(st.index, r)
    ensures ValidSettings(cfg, st.blockSize) && KeysBelow(st.index, cfg.media.NumberOfPieces())
    ensures r.piece in st.index.needed
    ensures var t := Deliver(cfg, st, r, intact);
      && t.owned == st.owned && t.completions == st.completions && t.signalled == st.signalled && t.bytes == st.bytes
      && r.piece in t.index.needed
      && (b in t.index.needed[r.piece].possible <==> b in st.index.needed[r.piece].possible && b != r.Entry())
  {
    GoodKeys(cfg, st);
    assert Agrees(st.index);
    hide Good, Agrees, Listed, Without, Distinct, Drop, Media.NumberOfPieces, GeneratePieceNeeded, Request.Entry, KeysBelow;
    DroppedPossible(st.index, r);
    WithoutEmptyIff(st.index.needed[r.piece].possible, r.Entry());
    WithoutMembers(st.index.needed[r.piece].possible, r.Entry());
  }

  /** A piece whose data is corrupt is needed again from its first block on, and nothing is owned or signalled. */
  lemma CorruptPieceStartsAgain(cfg: Settings, st: State, r: Request)
    requires Good(cfg, st) && Listed(st.index, r) && IsLastBlock(st.index, r)
    ensures ValidSettings(cfg, st.blockSize) && KeysBelow(st.index, cfg.media.NumberOfPieces())
    ensures var t := Deliver(cfg, st, r, false);
      && t.owned == st.owned && t.completions == st.completions && t.signalled == st.signalled && t.bytes == st.bytes
      && t.index.needed.Keys == st.index.needed.Keys
      && r.piece in t.index.needed && r.piece < cfg.media.NumberOfPieces()
      && t.index.needed[r.piece].possible == BlocksFrom(0, cfg.media.LengthOf(r.piece), st.blockSize)
      && t.index.needed[r.piece].pending == []
      && forall p :: p in st.index.needed && p != r.piece ==> t.index.needed[p] == st.index.needed[p]
  {
    GoodKeys(cfg, st);
    assert Agrees(st.index);
    hide Good, Agrees, Listed, Without, Distinct, Drop, Media.NumberOfPieces, Media.LengthOf, BlocksFrom, Request.Entry;
    DroppedPossible(st.index, r);
    WithoutEmptyIff(st.index.needed[r.piece].possible, r.Entry());
  }

  /** A sound last block completes its piece: it is recorded, and no longer needed. */
  lemma SoundPieceCompletes(cfg: Settings, st: State, r: Request)
    requires Good(cfg, st) && Listed(st.index, r) && IsLastBlock(st.index, r)
    ensures ValidSettings(cfg, st.blockSize) && KeysBelow(st.index, cfg.media.NumberOfPieces())
    ensures var t := Deliver(cfg, st, r, true);
      && t.owned == st.owned + {r.piece} && t.completions == st.completions + [r.piece]
      && t.index.needed.Keys == st.index.needed.Keys - {r.piece}
      && forall p :: p in st.index.needed && p != r.piece ==> t.index.needed[p] == st.index.needed[p]
  {
    GoodKeys(cfg, st);
    assert Agrees(st.index);
    hide Good, Agrees, Listed, Without, Distinct, Drop, Media.NumberOfPieces, Media.LengthOf, BlocksFrom, Request.Entry;
    DroppedPossible(st.index, r);
    WithoutEmptyIff(st.index.needed[r.piece].possible, r.Entry());
  }

  /** No other event makes a piece owned. */
  lemma OwnedOnlyByDelivery(cfg: Settings, st: State, e: Event, p: nat)
    requires Good(cfg, st) && Enabled(cfg, st, e)
    ensures p in Apply(cfg, st, e).owned && p !in st.owned ==>
      e.Delivered? && e.intact && e.r.piece == p && Listed(st.index, e.r) && IsLastBlock(st.index, e.r)
  {
    if e.Delivered? {
      DeliveryOwnsIff(cfg, st, e.r, e.intact, p);
    }
    hide Good, Allowed, Listed, IsLastBlock, Deliver, Drop, DropAll, AllNeeded;
  }

  /** Over runs: a piece that is owned was from the start, or its last block arrived and its data was found intact. */
  lemma {:induction false} OwnedWasDelivered(cfg: Settings, states: seq<State>, events: seq<Event>, i: nat, p: nat)
    requires IsRun(cfg, states, events) && i < |states| && p in states[i].owned && p !in states[0].owned
    ensures exists j ::
      && 0 <= j < i && events[j].Delivered? && events[j].intact && events[j].r.piece == p
      && Listed(states[j].index, events[j].r) && IsLastBlock(states[j].index, events[j].r)
  {
    hide Good, Enabled, Apply, Listed, IsLastBlock;
    if i > 0 {
      if p in states[i - 1].owned {
        OwnedWasDelivered(cfg, states, events, i - 1, p);
      } else {
        EveryReachableStateGood(cfg, states, events, i - 1);
        assert Follows(cfg, states[i - 1], events[i - 1], states[i - 1 + 1]);
        OwnedOnlyByDelivery(cfg, states[i - 1], events[i - 1], p);
      }
    }
  }

  // ----- What the other events do -----

  /** A registered peer has an empty list, and nothing else changes; after completion nobody is registered. */
  lemma RegisterEffect(st: State, q: nat, r: Request)
    ensures var t := RegisterPeer(st, q);
      && t.index.needed == st.index.needed && t.index.timeouts == st.index.timeouts && t.owned == st.owned
      && (!st.signalled ==> q in t.index.byPeer && t.index.byPeer[q] == [])
      && (st.signalled ==> t == st)
      && (r.peer != q ==> (Listed(t.index, r) <==> Listed(st.index, r)))
  {
  }

  /** A request is outstanding from then on, and no other is. */
  lemma AskEffect(cfg: Settings, st: State, r: Request, x: Request)
    requires Good(cfg, st) && r.piece in st.index.needed && r.peer in st.index.byPeer
    ensures Pending(Ask(st, r).index, x) <==> Pending(st.index, x) || x == r
    ensures Ask(st, r).owned == st.owned && Ask(st, r).index.needed.Keys == st.index.needed.Keys
    ensures forall p :: p in st.index.needed ==> Ask(st, r).index.needed[p].possible == st.index.needed[p].possible
  {
    AddMembers(st.index, r, x);
    hide Good;
  }

  /** A new block size: nothing is outstanding, and every needed piece is cut afresh. */
  lemma ChangeBlockSizeEffect(cfg: Settings, st: State, blockSize: nat, p: nat)
    requires Good(cfg, st) && ValidSettings(cfg, blockSize)
    ensures var t := ChangeBlockSize(cfg, st, blockSize);
      && t.blockSize == blockSize && t.owned == st.owned && t.index.timeouts == {}
      && t.index.byPeer.Keys == st.index.byPeer.Keys && (forall q :: q in t.index.byPeer ==> t.index.byPeer[q] == [])
      && (p in t.index.needed <==> p in st.index.needed)
      && (p in t.index.needed ==>
            && p < cfg.media.NumberOfPieces() && t.index.needed[p].pending == []
            && t.index.needed[p].possible == BlocksFrom(0, cfg.media.LengthOf(p), blockSize))
  {
    ChangeBlockSizeGood(cfg, st, blockSize);
    assert p in st.index.needed.Keys <==> p in ChangeBlockSize(cfg, st, blockSize).index.needed.Keys;
    hide Good, Media.NumberOfPieces, Media.LengthOf, BlocksFrom;
  }

  // ----- The number of completed bytes -----

  /** The announced number is the summed length of the owned pieces. */
  ghost predicate BytesRight(cfg: Settings, st: State)
    requires cfg.media.Valid()
  {
    st.bytes == OwnedBytes(cfg.media, st.owned, cfg.media.NumberOfPieces())
  }

  /** Exactly the given piece was completed and counted, or nothing was. */
  ghost predicate CountedWith(cfg: Settings, st: State, t: State, p: nat)
    requires cfg.media.Valid()
  {
    if t.owned == st.owned then t.bytes == st.bytes
    else
      && p < cfg.media.NumberOfPieces() && p !in st.owned
      && t.owned == st.owned + {p} && t.bytes == st.bytes + cfg.media.CountedLength(p)
  }

  lemma DeliveryCounts(cfg: Settings, st: State, r: Request, intact: bool)
    requires Good(cfg, st) && ValidSettings(cfg, st.blockSize) && KeysBelow(st.index, cfg.media.NumberOfPieces())
    ensures CountedWith(cfg, st, Deliver(cfg, st, r, intact), r.piece)
  {
    assert r.piece in st.index.needed ==> r.piece !in st.owned && r.piece < cfg.media.NumberOfPieces();
    hide Good, Drop, Without, Listed, Media.NumberOfPieces, Media.CountedLength, GeneratePieceNeeded, Request.Entry;
  }

  /** A step that completes a piece counts it; any other leaves the number alone. */
  lemma ApplyCounts(cfg: Settings, st: State, e: Event)
    requires Good(cfg, st) && Enabled(cfg, st, e)
    ensures CountedWith(cfg, st, Apply(cfg, st, e), if e.Delivered? then e.r.piece else 0)
  {
    GoodKeys(cfg, st);
    hide Good, Allowed, Deliver, Drop, DropAll, AllNeeded, Media.NumberOfPieces, Media.CountedLength;
    if e.Delivered? {
      DeliveryCounts(cfg, st, e.r, e.intact);
      hide CountedWith;
    }
  }

  /** The last piece was counted with no bytes. */
  predicate LastUncounted(cfg: Settings, first: set<nat>, owned: set<nat>)
    requires cfg.media.Valid() && cfg.media.NumberOfPieces() > 0
  {
    var last := cfg.media.NumberOfPieces() - 1;
    !cfg.media.HasTrailingPiece() && last in owned && last !in first
  }

  lemma SomePieces(m: Media)
    requires m.Valid()
    ensures m.NumberOfPieces() > 0
  {
    DivideByLarger(m.fileLength, m.pieceLength);
  }

  lemma DivideByLarger(n: nat, d: nat)
    requires n > 0 && d > 0
    ensures n / d > 0 || n % d > 0
  {
  }

  /** The announced number lacks at most the last piece. */
  ghost predicate BytesAsCounted(cfg: Settings, first: set<nat>, st: State)
    requires cfg.media.Valid() && cfg.media.NumberOfPieces() > 0
  {
    && first <= st.owned
    && st.bytes == OwnedBytes(cfg.media, st.owned, cfg.media.NumberOfPieces())
                 - if LastUncounted(cfg, first, st.owned) then cfg.media.pieceLength else 0
  }

  lemma CountingKeeps(cfg: Settings, first: set<nat>, st: State, t: State, p: nat)
    requires cfg.media.Valid() && cfg.media.NumberOfPieces() > 0
    requires BytesAsCounted(cfg, first, st) && CountedWith(cfg, st, t, p)
    ensures BytesAsCounted(cfg, first, t)
  {
    hide Media.NumberOfPieces, OwnedBytes, Media.CountedLength, Media.LengthOf;
    if t.owned != st.owned {
      OwnedBytesAdded(cfg.media, st.owned, p, cfg.media.NumberOfPieces());
      CountedOrLost(cfg.media, p);
    }
  }

  lemma {:induction false} ReachableBytes(cfg: Settings, states: seq<State>, events: seq<Event>, i: nat)
    requires IsRun(cfg, states, events) && i < |states| && BytesRight(cfg, states[0])
    ensures Good(cfg, states[i]) && cfg.media.NumberOfPieces() > 0
    ensures BytesAsCounted(cfg, states[0].owned, states[i])
  {
    hide Good, Enabled, Apply, CountedWith, BytesAsCounted, BytesRight, Media.NumberOfPieces;
    EveryReachableStateGood(cfg, states, events, i);
    MediaValid(cfg, states[i]);
    SomePieces(cfg.media);
    if i == 0 {
      FirstCounted(cfg, states[0]);
    } else {
      ReachableBytes(cfg, states, events, i - 1);
      var st, e := states[i - 1], events[i - 1];
      assert Follows(cfg, st, e, states[i - 1 + 1]);
      ApplyCounts(cfg, st, e);
      CountingKeeps(cfg, states[0].owned, st, states[i], if e.Delivered? then e.r.piece else 0);
    }
  }

  lemma MediaValid(cfg: Settings, st: State)
    requires Good(cfg, st)
    ensures cfg.media.Valid()
  {
  }

  lemma FirstCounted(cfg: Settings, st: State)
    requires cfg.media.Valid() && cfg.media.NumberOfPieces() > 0 && BytesRight(cfg, st)
    ensures BytesAsCounted(cfg, st.owned, st)
  {
    hide Media.NumberOfPieces, OwnedBytes;
  }

  lemma CountedOrLost(m: Media, p: nat)
    requires m.Valid() && p < m.NumberOfPieces()
    ensures m.CountedLength(p) == m.LengthOf(p)
      - if !m.HasTrailingPiece() && p == m.NumberOfPieces() - 1 then m.pieceLength else 0
  {
    hide Media.NumberOfPieces;
  }

  /**
   In every reachable state the announced number of bytes is right if and only if the file has a trailing
   piece, or its last piece is still missing, or was owned from the start.
   */
  lemma EveryReachableTotalRightIff(cfg: Settings, states: seq<State>, events: seq<Event>, i: nat)
    requires IsRun(cfg, states, events) && i < |states| && BytesRight(cfg, states[0])
    ensures cfg.media.Valid() && cfg.media.NumberOfPieces() > 0
    ensures var last := cfg.media.NumberOfPieces() - 1;
      BytesRight(cfg, states[i])
      <==> cfg.media.HasTrailingPiece() || last !in states[i].owned || last in states[0].owned
  {
    ReachableBytes(cfg, states, events, i);
    hide Enabled, Apply, Agrees, WithinCaps, Conserved, Media.NumberOfPieces, OwnedBytes;
  }
}
