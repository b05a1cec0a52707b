/**
 The rarest-first strategy: buckets of pieces by the number of connected peers that have them, the
 inverse list of rarities, the handlers that move pieces between buckets, and the choice of a block.
 */
module RarestFirst {
  import opened Lists
  import opened Tiling
  import opened Bitfields
  import opened RequestIndex
  import opened PartSelection
  import opened PartSelectionStrategy

  /** The connected peers and the pieces each of them has. */
  type Swarm = map<nat, set<nat>>

  ghost function HoldersOf(swarm: Swarm, p: nat): set<nat> {
    set q | q in swarm && p in swarm[q]
  }

  /** How many connected peers have the piece. */
  ghost function PeerCount(swarm: Swarm, p: nat): nat {
    |HoldersOf(swarm, p)|
  }

  ghost function BucketOf(rarities: seq<nat>, i: nat): set<nat> {
    set p | 0 <= p < |rarities| && rarities[p] == i
  }

  /** The buckets partition the pieces and are the exact inverse of the list of rarities. */
  ghost predicate Inverse(buckets: seq<set<nat>>, rarities: seq<nat>) {
    && (forall p :: 0 <= p < |rarities| ==> rarities[p] < |buckets|)
    && (forall i :: 0 <= i < |buckets| ==> buckets[i] == BucketOf(rarities, i))
  }

  /** Needed pieces are rated by their peer count, all others by the number that stands for "here". */
  ghost predicate Exact(rarities: seq<nat>, maxPeers: nat, needed: set<nat>, swarm: Swarm) {
    forall p: nat :: p < |rarities| ==>
      rarities[p] == if p in needed then PeerCount(swarm, p) else maxPeers + 1
  }

  /** The rarities with every piece of `moved` one step up. */
  ghost function Raised(rarities: seq<nat>, moved: set<nat>): (r: seq<nat>)
    ensures |r| == |rarities|
    ensures forall p :: 0 <= p < |rarities| ==> r[p] == rarities[p] + if p in moved then 1 else 0
  {
    seq(|rarities|, p requires 0 <= p < |rarities| => rarities[p] + if p in moved then 1 else 0)
  }

  ghost function Lowered(rarities: seq<nat>, moved: set<nat>): (r: seq<nat>)
    requires forall p :: 0 <= p < |rarities| && p in moved ==> rarities[p] > 0
    ensures |r| == |rarities|
    ensures forall p :: 0 <= p < |rarities| ==> r[p] == rarities[p] - if p in moved then 1 else 0
  {
    seq(|rarities|, p requires 0 <= p < |rarities| => rarities[p] - if p in moved then 1 else 0)
  }

  // ----- Counting -----

  lemma CountAtMostPeers(swarm: Swarm, p: nat)
    ensures PeerCount(swarm, p) <= |swarm|
  {
    SubsetSize(HoldersOf(swarm, p), swarm.Keys);
  }

  lemma {:induction false} SubsetSize<T>(a: set<T>, b: set<T>)
    requires a <= b
    ensures |a| <= |b|
  {
    assert b == a + (b - a);
  }

  /** A peer that had no pieces before announces some. */
  lemma CountAfterBitfield(swarm: Swarm, q: nat, has: set<nat>, p: nat)
    requires q in swarm ==> swarm[q] == {}
    ensures PeerCount(swarm[q := has], p) == PeerCount(swarm, p) + if p in has then 1 else 0
    ensures PeerCount(swarm, p) < |swarm[q := has]|
  {
    var after := swarm[q := has];
    if p in has {
      assert HoldersOf(after, p) == HoldersOf(swarm, p) + {q};
    } else {
      assert HoldersOf(after, p) == HoldersOf(swarm, p);
    }
    SubsetSize(HoldersOf(swarm, p) + {q}, after.Keys);
  }

  lemma CountAfterHave(swarm: Swarm, q: nat, piece: nat, p: nat)
    requires q in swarm
    ensures PeerCount(swarm[q := swarm[q] + {piece}], p)
         == PeerCount(swarm, p) + if p == piece && piece !in swarm[q] then 1 else 0
  {
    var after := swarm[q := swarm[q] + {piece}];
    if p == piece && piece !in swarm[q] {
      assert HoldersOf(after, p) == HoldersOf(swarm, p) + {q};
    } else {
      assert HoldersOf(after, p) == HoldersOf(swarm, p);
    }
  }

  lemma CountAfterClose(swarm: Swarm, q: nat, p: nat)
    requires q in swarm
    ensures PeerCount(swarm, p) == PeerCount(swarm - {q}, p) + if p in swarm[q] then 1 else 0
  {
    var after := swarm - {q};
    if p in swarm[q] {
      assert HoldersOf(swarm, p) == HoldersOf(after, p) + {q};
    } else {
      assert HoldersOf(swarm, p) == HoldersOf(after, p);
    }
  }

  // ----- What each step does to exactness -----

  /** The pieces that a bitfield moves up: those in a bucket below maxPeers that the peer has. */
  ghost function MovedUp(rarities: seq<nat>, maxPeers: nat, has: set<nat>): set<nat> {
    set p | 0 <= p < |rarities| && rarities[p] < maxPeers && p in has
  }

  ghost function MovedDown(rarities: seq<nat>, maxPeers: nat, has: set<nat>): set<nat> {
    set p | 0 <= p < |rarities| && 1 <= rarities[p] <= maxPeers && p in has
  }

  lemma BitfieldKeepsExact(rarities: seq<nat>, maxPeers: nat, needed: set<nat>, swarm: Swarm, q: nat, has: set<nat>)
    requires Exact(rarities, maxPeers, needed, swarm)
    requires (q in swarm ==> swarm[q] == {}) && |swarm[q := has]| <= maxPeers
    ensures Exact(Raised(rarities, MovedUp(rarities, maxPeers, has)), maxPeers, needed, swarm[q := has])
  {
    hide PeerCount;
    forall p: nat | p < |rarities|
      ensures Raised(rarities, MovedUp(rarities, maxPeers, has))[p]
           == if p in needed then PeerCount(swarm[q := has], p) else maxPeers + 1
    {
      CountAfterBitfield(swarm, q, has, p);
    }
  }

  lemma CloseKeepsExact(rarities: seq<nat>, maxPeers: nat, needed: set<nat>, swarm: Swarm, q: nat)
    requires Exact(rarities, maxPeers, needed, swarm) && q in swarm && |swarm| <= maxPeers
    ensures Exact(Lowered(rarities, MovedDown(rarities, maxPeers, swarm[q])), maxPeers, needed, swarm - {q})
  {
    hide PeerCount;
    forall p: nat | p < |rarities|
      ensures Lowered(rarities, MovedDown(rarities, maxPeers, swarm[q]))[p]
           == if p in needed then PeerCount(swarm - {q}, p) else maxPeers + 1
    {
      CountAfterClose(swarm, q, p);
      CountAtMostPeers(swarm, p);
    }
  }

  lemma CompletionKeepsExact(rarities: seq<nat>, maxPeers: nat, needed: set<nat>, swarm: Swarm, piece: nat)
    requires Exact(rarities, maxPeers, needed, swarm) && piece < |rarities|
    ensures Exact(rarities[piece := maxPeers + 1], maxPeers, needed - {piece}, swarm)
  {
    hide PeerCount;
  }

  /** What a HAVE does to the rarities. */
  ghost function AfterHave(rarities: seq<nat>, maxPeers: nat, piece: nat): seq<nat>
    requires piece < |rarities|
  {
    if rarities[piece] >= maxPeers then rarities else rarities[piece := rarities[piece] + 1]
  }

  /**
   A HAVE keeps the index exact if and only if the piece is not needed, or the peer had not announced
   it before, or every slot for peers already counts it. A repeated HAVE is counted twice otherwise.
   */
  lemma HaveKeepsExactIff(rarities: seq<nat>, maxPeers: nat, needed: set<nat>, swarm: Swarm, q: nat, piece: nat)
    requires Exact(rarities, maxPeers, needed, swarm) && q in swarm && |swarm| <= maxPeers && piece < |rarities|
    ensures Exact(AfterHave(rarities, maxPeers, piece), maxPeers, needed, swarm[q := swarm[q] + {piece}])
       <==> piece !in needed || piece !in swarm[q] || PeerCount(swarm, piece) == maxPeers
  {
    var after := swarm[q := swarm[q] + {piece}];
    var rated := AfterHave(rarities, maxPeers, piece);
    forall p: nat ensures PeerCount(after, p) == PeerCount(swarm, p) + if p == piece && piece !in swarm[q] then 1 else 0 {
      CountAfterHave(swarm, q, piece, p);
    }
    CountAtMostPeers(swarm, piece);
    CountAtMostPeers(after, piece);
    assert |after| == |swarm| by { assert after.Keys == swarm.Keys; }
    hide PeerCount;
    assert Exact(rated, maxPeers, needed, after) ==>
      rated[piece] == if piece in needed then PeerCount(after, piece) else maxPeers + 1;
  }

  /** Two peers allowed, one connected, which announces piece 0 twice: the piece is rated 2 instead of 1. */
  lemma RepeatedHaveExample()
    ensures Exact([1], 2, {0}, map[7 := {0}])
    ensures !Exact(AfterHave([1], 2, 0), 2, {0}, map[7 := {0}][7 := {0} + {0}])
  {
    var swarm: Swarm := map[7 := {0}];
    assert HoldersOf(swarm, 0) == {7};
    HaveKeepsExactIff([1], 2, {0}, swarm, 7, 0);
  }

  // ----- Runs of the index -----

  datatype Rating = Rating(rarities: seq<nat>, maxPeers: nat, needed: set<nat>, swarm: Swarm)

  datatype RatingEvent =
    | BitfieldFrom(peer: nat, has: set<nat>)
    | HaveFrom(peer: nat, piece: nat)
    | PeerClosed(peer: nat)
    | PieceCompleted(piece: nat)
    | MaxPeersShrunk(maxPeers: nat)

  ghost predicate RatingOk(s: Rating) {
    Exact(s.rarities, s.maxPeers, s.needed, s.swarm) && |s.swarm| <= s.maxPeers
  }

  /** One bitfield per connection, no HAVE repeated for a piece, and never more peers than allowed. */
  ghost predicate CanHappen(s: Rating, e: RatingEvent) {
    match e
    case BitfieldFrom(q, has) => (q in s.swarm ==> s.swarm[q] == {}) && |s.swarm[q := has]| <= s.maxPeers
    case HaveFrom(q, piece) => q in s.swarm && piece < |s.rarities| && piece !in s.swarm[q]
    case PeerClosed(q) => q in s.swarm
    case PieceCompleted(piece) => piece < |s.rarities|
    case MaxPeersShrunk(maxPeers) => |s.swarm| <= maxPeers < s.maxPeers
  }

  /** The rarities counted from scratch. */
  ghost function Recounted(n: nat, maxPeers: nat, needed: set<nat>, swarm: Swarm): seq<nat> {
    seq(n, p requires 0 <= p < n => if p in needed then PeerCount(swarm, p) else maxPeers + 1)
  }

  ghost function AfterEvent(s: Rating, e: RatingEvent): Rating
    requires CanHappen(s, e)
  {
    match e
    case BitfieldFrom(q, has) =>
      s.(rarities := Raised(s.rarities, MovedUp(s.rarities, s.maxPeers, has)), swarm := s.swarm[q := has])
    case HaveFrom(q, piece) =>
      s.(rarities := AfterHave(s.rarities, s.maxPeers, piece), swarm := s.swarm[q := s.swarm[q] + {piece}])
    case PeerClosed(q) =>
      s.(rarities := Lowered(s.rarities, MovedDown(s.rarities, s.maxPeers, s.swarm[q])), swarm := s.swarm - {q})
    case PieceCompleted(piece) =>
      s.(rarities := s.rarities[piece := s.maxPeers + 1], needed := s.needed - {piece})
    case MaxPeersShrunk(maxPeers) =>
      s.(rarities := Recounted(|s.rarities|, maxPeers, s.needed, s.swarm), maxPeers := maxPeers)
  }

  lemma EventKeepsRating(s: Rating, e: RatingEvent)
    requires RatingOk(s) && CanHappen(s, e)
    ensures RatingOk(AfterEvent(s, e))
  {
    match e
    case BitfieldFrom(q, has) =>
      hide Exact;
      BitfieldKeepsExact(s.rarities, s.maxPeers, s.needed, s.swarm, q, has);
    case HaveFrom(q, piece) =>
      hide Exact;
      HaveKeepsExactIff(s.rarities, s.maxPeers, s.needed, s.swarm, q, piece);
      assert s.swarm[q := s.swarm[q] + {piece}].Keys == s.swarm.Keys;
    case PeerClosed(q) =>
      hide Exact;
      CloseKeepsExact(s.rarities, s.maxPeers, s.needed, s.swarm, q);
      SubsetSize((s.swarm - {q}).Keys, s.swarm.Keys);
    case PieceCompleted(piece) =>
      hide Exact;
      CompletionKeepsExact(s.rarities, s.maxPeers, s.needed, s.swarm, piece);
    case MaxPeersShrunk(maxPeers) =>
      hide PeerCount;
  }

  ghost predicate IsRatingRun(states: seq<Rating>, events: seq<RatingEvent>) {
    && |states| == |events| + 1 && RatingOk(states[0])
    && forall i :: 0 <= i < |events| ==> RatingFollows(states[i], events[i], states[i + 1])
  }

  ghost predicate RatingFollows(s: Rating, e: RatingEvent, t: Rating) {
    CanHappen(s, e) && t == AfterEvent(s, e)
  }

  /** In every state of every run the rarity of a needed piece is its number of holders. */
  lemma {:induction false} EveryReachableRatingExact(states: seq<Rating>, events: seq<RatingEvent>, i: nat)
    requires IsRatingRun(states, events) && i < |states|
    ensures RatingOk(states[i])
  {
    if i > 0 {
      hide RatingOk, CanHappen;
      EveryReachableRatingExact(states, events, i - 1);
      assert RatingFollows(states[i - 1], events[i - 1], states[i - 1 + 1]);
      EventKeepsRating(states[i - 1], events[i - 1]);
    }
  }

  // ----- The buckets -----

  lemma MoveKeepsInverse(buckets: seq<set<nat>>, rarities: seq<nat>, p: nat, to: nat)
    requires Inverse(buckets, rarities) && p < |rarities| && to < |buckets| && to != rarities[p]
    ensures var from := rarities[p];
            Inverse(buckets[to := buckets[to] + {p}][from := buckets[from] - {p}], rarities[p := to])
  {
    var from, moved := rarities[p], rarities[p := to];
    var after := buckets[to := buckets[to] + {p}][from := buckets[from] - {p}];
    forall i | 0 <= i < |buckets| ensures after[i] == BucketOf(moved, i) {
      assert buckets[i] == BucketOf(rarities, i);
    }
  }

  /** The buckets hold every piece exactly once. */
  lemma BucketsPartition(buckets: seq<set<nat>>, rarities: seq<nat>, p: nat)
    requires Inverse(buckets, rarities)
    ensures p < |rarities| ==> rarities[p] < |buckets| && p in buckets[rarities[p]]
    ensures forall i :: 0 <= i < |buckets| && p in buckets[i] ==> p < |rarities| && i == rarities[p]
  {
    if p < |rarities| {
      assert p in BucketOf(rarities, rarities[p]);
    }
    forall i | 0 <= i < |buckets| && p in buckets[i] ensures p < |rarities| && i == rarities[p] {
      assert p in BucketOf(rarities, i);
    }
  }

  // ----- The choice -----

  /** The peer may be asked for some block of the needed piece. */
  ghost predicate Askable(cfg: Settings, s: Index, q: nat, p: nat) {
    p in s.needed && FirstAllowed(cfg, s, q, p, s.needed[p].possible).Some?
  }

  /** A request for some block of the piece is outstanding with the peer. */
  ghost predicate InFlight(s: Index, q: nat, p: nat) {
    q in s.byPeer && exists r :: r in s.byPeer[q] && r.piece == p
  }

  /** The piece of the latest outstanding request to the peer whose piece can be asked for again. */
  ghost predicate LatestAskable(cfg: Settings, s: Index, q: nat, p: nat) {
    && q in s.byPeer
    && exists k :: 0 <= k < |s.byPeer[q]| && s.byPeer[q][k].piece == p
         && forall j :: k < j < |s.byPeer[q]| ==> !Askable(cfg, s, q, s.byPeer[q][j].piece)
  }

  /** The first allowed block of an askable piece. */
  ghost predicate AsksFor(cfg: Settings, s: Index, q: nat, r: Request) {
    && Askable(cfg, s, q, r.piece)
    && r == RequestFor(q, r.piece, FirstAllowed(cfg, s, q, r.piece, s.needed[r.piece].possible).value)
  }

  /** A needed piece that the peer has and may be asked for. */
  ghost predicate Candidate(cfg: Settings, s: Index, swarm: Swarm, q: nat, p: nat) {
    q in swarm && p in swarm[q] && Askable(cfg, s, q, p)
  }

  /**
   The direct definition of the choice: continue the latest piece in flight that allows it, else take a
   candidate with the fewest holders, else (length 0) there is nothing to ask for.
   */
  ghost predicate RarestChoice(cfg: Settings, s: Index, swarm: Swarm, q: nat, r: Request) {
    if exists p :: InFlight(s, q, p) && Askable(cfg, s, q, p) then
      InFlight(s, q, r.piece) && LatestAskable(cfg, s, q, r.piece) && AsksFor(cfg, s, q, r)
    else if exists p :: Candidate(cfg, s, swarm, q, p) then
      && Candidate(cfg, s, swarm, q, r.piece) && AsksFor(cfg, s, q, r)
      && forall p :: Candidate(cfg, s, swarm, q, p) ==> PeerCount(swarm, r.piece) <= PeerCount(swarm, p)
    else r.length == 0
  }

  /**
   While the piece of the last request can be asked for again, it is continued; and there is only one piece
   to continue with.
   */
  lemma LatestGoesOn(cfg: Settings, s: Index, swarm: Swarm, q: nat, r: Request, other: Request)
    requires q in s.byPeer && s.byPeer[q] != []
    requires RarestChoice(cfg, s, swarm, q, r) && RarestChoice(cfg, s, swarm, q, other)
    ensures var last := s.byPeer[q][|s.byPeer[q]| - 1].piece; Askable(cfg, s, q, last) ==> r.piece == last
    ensures (exists p :: InFlight(s, q, p) && Askable(cfg, s, q, p)) ==> r == other
  {
    var last := s.byPeer[q][|s.byPeer[q]| - 1];
    assert InFlight(s, q, last.piece);
    hide Askable;
  }

  /** With no piece to continue, no needed piece that the peer has and may be asked for is rarer than the choice. */
  lemma RarestWins(cfg: Settings, s: Index, swarm: Swarm, q: nat, r: Request, p: nat)
    requires RarestChoice(cfg, s, swarm, q, r) && Candidate(cfg, s, swarm, q, p)
    requires forall x :: InFlight(s, q, x) ==> !Askable(cfg, s, q, x)
    ensures r.piece in swarm[q]
    ensures |set h | h in swarm && r.piece in swarm[h]| <= |set h | h in swarm && p in swarm[h]|
  {
    hide Askable, AsksFor;
    assert HoldersOf(swarm, p) == set h | h in swarm && p in swarm[h];
    assert HoldersOf(swarm, r.piece) == set h | h in swarm && r.piece in swarm[h];
  }

  /** Whatever is chosen is an allowed request for a possible block, and never one of length 0. */
  lemma ChosenIsAllowed(cfg: Settings, s: Index, q: nat, r: Request)
    requires PiecesOk(s.needed) && AsksFor(cfg, s, q, r)
    ensures r.length > 0 && r.peer == q && Allowed(cfg, s, r)
    ensures exists b :: b in s.needed[r.piece].possible && r == RequestFor(q, r.piece, b)
  {
    assert PieceOk(r.piece, s.needed[r.piece]);
    hide Block.Length, Allowed;
  }

  /** A candidate sits in the bucket of its peer count, which is between 1 and maxPeers. */
  lemma CandidateInBucket(
      rarities: seq<nat>, maxPeers: nat, cfg: Settings, s: Index, swarm: Swarm, q: nat, p: nat)
    requires Exact(rarities, maxPeers, s.needed.Keys, swarm) && |swarm| <= maxPeers
    requires Candidate(cfg, s, swarm, q, p) && p < |rarities|
    ensures 1 <= rarities[p] == PeerCount(swarm, p) <= maxPeers
  {
    assert p in s.needed.Keys;
    hide Askable;
    CountAtMostPeers(swarm, p);
    assert q in HoldersOf(swarm, p);
  }

  lemma InFlightNeeded(s: Index, q: nat)
    requires Agrees(s) && q in s.byPeer
    ensures forall r :: r in s.byPeer[q] ==> r.piece in s.needed
  {
    forall r | r in s.byPeer[q] ensures r.piece in s.needed {
      assert PeerOk(q, s.byPeer[q]) && Listed(s, r) && Pending(s, r);
    }
  }

  lemma RequestPeer(cfg: Settings, s: Index, q: nat, r: Request)
    requires AsksFor(cfg, s, q, r)
    ensures r.peer == q && Askable(cfg, s, q, r.piece)
  {
  }

  class RarityIndex {
    var maxPeers: nat
    var piecesByRarity: array<set<nat>>
    var raritiesByPiece: array<nat>

    ghost predicate Valid()
      reads this, piecesByRarity, raritiesByPiece
    {
      && piecesByRarity.Length == maxPeers + 2
      && Inverse(piecesByRarity[..], raritiesByPiece[..])
    }

    /** Before any peer is connected, needed pieces have no holder and the others are here. */
    constructor (maxPeers: nat, pieceCount: nat, needed: set<nat>)
      ensures Valid() && this.maxPeers == maxPeers && raritiesByPiece.Length == pieceCount
      ensures fresh(piecesByRarity) && fresh(raritiesByPiece)
      ensures raritiesByPiece[..] == Recounted(pieceCount, maxPeers, needed, map[])
    {
      this.maxPeers := maxPeers;
      piecesByRarity := new set<nat>[maxPeers + 2](_ => {});
      raritiesByPiece := new nat[pieceCount](_ => 0);
      new;
      var i := 0;
      while i < pieceCount
        invariant 0 <= i <= pieceCount == raritiesByPiece.Length && piecesByRarity.Length == maxPeers + 2
        invariant this.maxPeers == maxPeers && fresh(piecesByRarity) && fresh(raritiesByPiece)
        invariant Inverse(piecesByRarity[..], raritiesByPiece[..i])
        invariant forall p :: 0 <= p < i ==> raritiesByPiece[p] == if p in needed then 0 else maxPeers + 1
      {
        Insert(i, if i in needed then 0 else maxPeers + 1);
        i := i + 1;
      }
      assert raritiesByPiece[..] == raritiesByPiece[..i];
      forall p: nat ensures PeerCount(map[], p) == 0 {
        assert HoldersOf(map[], p) == {};
      }
    }

    /** Put the next piece into its bucket while the buckets are being filled. */
    method Insert(i: nat, rarity: nat)
      requires piecesByRarity.Length == maxPeers + 2 && i < raritiesByPiece.Length && rarity <= maxPeers + 1
      requires Inverse(piecesByRarity[..], raritiesByPiece[..i])
      modifies piecesByRarity, raritiesByPiece
      ensures Inverse(piecesByRarity[..], raritiesByPiece[..i + 1])
      ensures raritiesByPiece[i] == rarity
      ensures forall p :: 0 <= p < i ==> raritiesByPiece[p] == old(raritiesByPiece[p])
    {
      ghost var buckets, rated := piecesByRarity[..], raritiesByPiece[..i];
      InsertKeepsInverse(buckets, rated, rarity);
      hide Inverse;
      piecesByRarity[rarity] := piecesByRarity[rarity] + {i};
      raritiesByPiece[i] := rarity;
      assert piecesByRarity[..] == buckets[rarity := buckets[rarity] + {i}];
      assert raritiesByPiece[..i + 1] == rated + [rarity];
    }

    /** Move one piece from its bucket into another. */
    method Move(piece: nat, to: nat)
      requires Valid() && piece < raritiesByPiece.Length
      requires to < piecesByRarity.Length && to != raritiesByPiece[piece]
      modifies piecesByRarity, raritiesByPiece
      ensures Valid() && raritiesByPiece[..] == old(raritiesByPiece[..])[piece := to]
    {
      var from := raritiesByPiece[piece];
      MoveKeepsInverse(piecesByRarity[..], raritiesByPiece[..], piece, to);
      ghost var buckets, rated := piecesByRarity[..], raritiesByPiece[..];
      hide Inverse;
      assert rated[piece] == from;
      piecesByRarity[to] := piecesByRarity[to] + {piece};
      raritiesByPiece[piece] := to;
      piecesByRarity[from] := piecesByRarity[from] - {piece};
      assert piecesByRarity[..] == buckets[to := buckets[to] + {piece}][from := buckets[from] - {piece}];
      assert raritiesByPiece[..] == rated[piece := to];
    }

    /** Phase one of both peer events: bucket by bucket, the pieces the peer has. */
    method Gather(has: set<nat>, first: nat) returns (toMove: array<set<nat>>)
      requires Valid() && first <= 1
      ensures fresh(toMove) && toMove.Length == maxPeers
      ensures forall i :: 0 <= i < maxPeers ==> toMove[i] == BucketOf(raritiesByPiece[..], first + i) * has
    {
      toMove := new set<nat>[maxPeers](_ => {});
      for i := 0 to maxPeers
        invariant forall k :: 0 <= k < i ==> toMove[k] == BucketOf(raritiesByPiece[..], first + k) * has
      {
        assert piecesByRarity[..][first + i] == BucketOf(raritiesByPiece[..], first + i);
        toMove[i] := piecesByRarity[first + i] * has;
      }
    }

    /** Phase two for one bucket: its gathered pieces, in any order, go to the next bucket up. */
    method MoveAllUp(i: nat, gathered: set<nat>)
      requires Valid() && i + 1 < piecesByRarity.Length && gathered <= BucketOf(raritiesByPiece[..], i)
      modifies piecesByRarity, raritiesByPiece
      ensures Valid() && raritiesByPiece[..] == Raised(old(raritiesByPiece[..]), gathered)
    {
      ghost var start := raritiesByPiece[..];
      hide Inverse;
      var rest := gathered;
      while rest != {}
        invariant rest <= gathered && Valid()
        invariant raritiesByPiece[..] == Raised(start, gathered - rest)
      {
        var p :| p in rest;
        assert p in BucketOf(start, i) && raritiesByPiece[..][p] == i;
        Move(p, i + 1);
        assert Raised(start, gathered - rest)[p := i + 1] == Raised(start, gathered - (rest - {p}));
        rest := rest - {p};
      }
      assert gathered - rest == gathered;
    }

    /** A newly connected peer announced its pieces. */
    method ProcessPeerBitfieldReceivedEvent(has: set<nat>)
      requires Valid()
      modifies piecesByRarity, raritiesByPiece
      ensures Valid()
      ensures raritiesByPiece[..] == Raised(old(raritiesByPiece[..]), MovedUp(old(raritiesByPiece[..]), maxPeers, has))
    {
      ghost var start := raritiesByPiece[..];
      var toMove := Gather(has, 0);
      hide Inverse;
      for i := 0 to maxPeers
        invariant Valid() && forall k :: 0 <= k < maxPeers ==> toMove[k] == BucketOf(start, k) * has
        invariant raritiesByPiece[..] == Raised(start, MovedUp(start, i, has))
      {
        RaisedBelow(start, i, has);
        MoveAllUp(i, toMove[i]);
      }
    }

    /** Phase two of a closed connection, for one bucket. */
    method MoveAllDown(i: nat, gathered: set<nat>)
      requires Valid() && 1 <= i < piecesByRarity.Length && gathered <= BucketOf(raritiesByPiece[..], i)
      modifies piecesByRarity, raritiesByPiece
      ensures Valid() && raritiesByPiece[..] == Lowered(old(raritiesByPiece[..]), gathered)
    {
      ghost var start := raritiesByPiece[..];
      hide Inverse;
      var rest := gathered;
      while rest != {}
        invariant rest <= gathered && Valid()
        invariant raritiesByPiece[..] == Lowered(start, gathered - rest)
      {
        var p :| p in rest;
        assert p in BucketOf(start, i) && raritiesByPiece[..][p] == i;
        Move(p, i - 1);
        assert Lowered(start, gathered - rest)[p := i - 1] == Lowered(start, gathered - (rest - {p}));
        rest := rest - {p};
      }
      assert gathered - rest == gathered;
    }

    /** A connection was closed: the inverse of the bitfield event. */
    method ProcessPeerConnectionCloseEvent(has: set<nat>)
      requires Valid()
      modifies piecesByRarity, raritiesByPiece
      ensures Valid()
      ensures raritiesByPiece[..] == Lowered(old(raritiesByPiece[..]), MovedDown(old(raritiesByPiece[..]), maxPeers, has))
    {
      ghost var start := raritiesByPiece[..];
      var toMove := Gather(has, 1);
      hide Inverse;
      for i := 1 to maxPeers + 1
        invariant Valid() && forall k :: 0 <= k < maxPeers ==> toMove[k] == BucketOf(start, 1 + k) * has
        invariant raritiesByPiece[..] == Lowered(start, MovedDown(start, i - 1, has))
      {
        LoweredBelow(start, i, has);
        MoveAllDown(i, toMove[i - 1]);
      }
    }

    /** A peer announced one more piece. */
    method ProcessPeerHaveEvent(pieceIndex: nat, downloadCompleted: bool)
      requires Valid() && pieceIndex < raritiesByPiece.Length
      modifies piecesByRarity, raritiesByPiece
      ensures Valid()
      ensures raritiesByPiece[..] == if downloadCompleted then old(raritiesByPiece[..])
                                     else AfterHave(old(raritiesByPiece[..]), maxPeers, pieceIndex)
    {
      if downloadCompleted {
        return;
      }
      var currentRarity := raritiesByPiece[pieceIndex];
      if currentRarity >= maxPeers {
        return;
      }
      Move(pieceIndex, currentRarity + 1);
    }

    /** A piece is available locally from now on. */
    method ProcessCompletedPiece(pieceIndex: nat)
      requires Valid() && pieceIndex < raritiesByPiece.Length
      modifies piecesByRarity, raritiesByPiece
      ensures Valid() && raritiesByPiece[..] == old(raritiesByPiece[..])[pieceIndex := maxPeers + 1]
    {
      var currentRarity := raritiesByPiece[pieceIndex];
      if currentRarity <= maxPeers {
        Move(pieceIndex, maxPeers + 1);
      }
    }

    /** Step one of the choice: a block of a piece already in flight, looking at the latest request first. */
    method ContinuePiece(strategy: Strategy, peer: nat) returns (block: Option<Request>)
      requires peer in strategy.requestedBlocks
      requires forall r :: r in strategy.requestedBlocks[peer] ==> r.piece in strategy.neededPieces
      ensures block.None? ==> forall p :: InFlight(strategy.Idx(), peer, p) ==> !Askable(strategy.cfg, strategy.Idx(), peer, p)
      ensures block.Some? ==>
        InFlight(strategy.Idx(), peer, block.value.piece) && AsksFor(strategy.cfg, strategy.Idx(), peer, block.value)
      ensures block.Some? ==> LatestAskable(strategy.cfg, strategy.Idx(), peer, block.value.piece)
    {
      var requests := strategy.requestedBlocks[peer];
      var k := |requests|;
      while k > 0
        invariant 0 <= k <= |requests|
        invariant forall j :: k <= j < |requests| ==> !Askable(strategy.cfg, strategy.Idx(), peer, requests[j].piece)
      {
        k := k - 1;
        var first := strategy.FirstAllowedBlock(peer, requests[k].piece);
        hide FirstAllowed;
        if first.Some? {
          assert strategy.Idx().byPeer[peer][k] == requests[k];
          return Some(RequestFor(peer, requests[k].piece, first.value));
        }
      }
      return None;
    }

    /** No piece of the bucket that the peer has may be asked for. */
    ghost predicate NothingIn(strategy: Strategy, peer: nat, has: set<nat>, i: nat)
      requires i < piecesByRarity.Length
      reads this, piecesByRarity, strategy
    {
      forall p :: p in piecesByRarity[i] && p in has ==> !Askable(strategy.cfg, strategy.Idx(), peer, p)
    }

    ghost predicate OnlyNeeded(strategy: Strategy, i: nat, n: nat)
      requires i < piecesByRarity.Length
      reads this, piecesByRarity, strategy
    {
      forall p :: p in piecesByRarity[i] ==> p < n && p in strategy.neededPieces
    }

    /** The candidates of one bucket, in piece order, each with its first allowed block. */
    method BucketCandidates(strategy: Strategy, peer: nat, has: set<nat>, i: nat, n: nat) returns (blocks: seq<Request>)
      requires i < piecesByRarity.Length && peer in strategy.requestedBlocks && OnlyNeeded(strategy, i, n)
      ensures forall r :: r in blocks ==>
        r.piece in piecesByRarity[i] && r.piece in has && AsksFor(strategy.cfg, strategy.Idx(), peer, r)
      ensures blocks == [] ==> NothingIn(strategy, peer, has, i)
    {
      blocks := [];
      for p := 0 to n
        invariant forall r :: r in blocks ==>
          r.piece in piecesByRarity[i] && r.piece in has && AsksFor(strategy.cfg, strategy.Idx(), peer, r)
        invariant blocks == [] ==>
          forall q :: q in piecesByRarity[i] && q in has && q < p ==> !Askable(strategy.cfg, strategy.Idx(), peer, q)
      {
        if p in piecesByRarity[i] && p in has {
          var first := strategy.FirstAllowedBlock(peer, p);
          hide FirstAllowed;
          if first.Some? {
            blocks := blocks + [RequestFor(peer, p, first.value)];
          }
        }
      }
    }

    /** Step two of the choice: the first bucket with a candidate decides; `draw` picks one of them. */
    method RarestCandidate(strategy: Strategy, peer: nat, has: set<nat>, draw: nat, n: nat)
      returns (block: Option<Request>, i: nat)
      requires piecesByRarity.Length == maxPeers + 2 && peer in strategy.requestedBlocks
      requires forall k :: 1 <= k <= maxPeers ==> OnlyNeeded(strategy, k, n)
      ensures 1 <= i <= maxPeers + 1
      ensures forall k :: 1 <= k < i ==> NothingIn(strategy, peer, has, k)
      ensures block.None? ==> i == maxPeers + 1
      ensures block.Some? ==>
        && i <= maxPeers && block.value.piece in piecesByRarity[i] && block.value.piece in has
        && AsksFor(strategy.cfg, strategy.Idx(), peer, block.value)
    {
      hide Askable, AsksFor, NothingIn, OnlyNeeded;
      i := 1;
      while i <= maxPeers
        invariant 1 <= i <= maxPeers + 1
        invariant forall k :: 1 <= k < i ==> NothingIn(strategy, peer, has, k)
      {
        if |piecesByRarity[i]| > 0 {
          var possibleBlocks := BucketCandidates(strategy, peer, has, i, n);
          if |possibleBlocks| != 0 {
            var chosen := possibleBlocks[draw % |possibleBlocks|];
            assert chosen in possibleBlocks;
            return Some(chosen), i;
          }
        } else {
          EmptyBucket(strategy, peer, has, i);
        }
        i := i + 1;
      }
      return None, i;
    }

    lemma EmptyBucket(strategy: Strategy, peer: nat, has: set<nat>, i: nat)
      requires i < piecesByRarity.Length && |piecesByRarity[i]| == 0
      ensures NothingIn(strategy, peer, has, i)
    {
    }

    /** The rarest-first choice of the block to ask a peer for; a length of 0 says that there is none. */
    method GetHighestPriorityBlockForPeer(strategy: Strategy, peer: nat, swarm: Swarm, draw: nat) returns (block: Request)
      requires Valid() && strategy.cfg.media.Valid() && raritiesByPiece.Length == strategy.cfg.media.NumberOfPieces()
      requires Agrees(strategy.Idx()) && KeysBelow(strategy.Idx(), raritiesByPiece.Length)
      requires peer in strategy.requestedBlocks && peer in swarm && |swarm| <= maxPeers
      requires Exact(raritiesByPiece[..], maxPeers, strategy.neededPieces.Keys, swarm)
      ensures block.peer == peer && RarestChoice(strategy.cfg, strategy.Idx(), swarm, peer, block)
    {
      InFlightNeeded(strategy.Idx(), peer);
      hide Agrees, Askable, AsksFor, InFlight, LatestAskable, Exact, KeysBelow, Inverse, NothingIn, OnlyNeeded, Candidate;
      var n := raritiesByPiece.Length;
      var continued := ContinuePiece(strategy, peer);
      if continued.Some? {
        RequestPeer(strategy.cfg, strategy.Idx(), peer, continued.value);
        return continued.value;
      }
      forall k | 1 <= k <= maxPeers ensures OnlyNeeded(strategy, k, n) {
        BucketsNeeded(strategy, swarm, k);
      }
      var rarest, i := RarestCandidate(strategy, peer, swarm[peer], draw, n);
      forall p | Candidate(strategy.cfg, strategy.Idx(), swarm, peer, p)
        ensures i <= PeerCount(swarm, p) <= maxPeers
      {
        CandidateNotBelow(strategy, swarm, peer, p, i);
      }
      if rarest.Some? {
        RequestPeer(strategy.cfg, strategy.Idx(), peer, rarest.value);
        RarestIsMinimal(strategy, swarm, peer, rarest.value.piece, i);
        return rarest.value;
      }
      return Request(peer, 0, 0, 0);
    }

    /** If the buckets below i hold nothing for the peer, every candidate has at least i holders. */
    lemma CandidateNotBelow(strategy: Strategy, swarm: Swarm, peer: nat, p: nat, i: nat)
      requires Valid() && Exact(raritiesByPiece[..], maxPeers, strategy.neededPieces.Keys, swarm)
      requires KeysBelow(strategy.Idx(), raritiesByPiece.Length) && |swarm| <= maxPeers && i <= maxPeers + 1
      requires Candidate(strategy.cfg, strategy.Idx(), swarm, peer, p)
      requires forall k :: 1 <= k < i ==> NothingIn(strategy, peer, swarm[peer], k)
      ensures i <= PeerCount(swarm, p) <= maxPeers
    {
      hide Askable, Exact, PeerCount, KeysBelow, Inverse;
      CandidateBucket(strategy, swarm, peer, p);
      assert PeerCount(swarm, p) < i ==> NothingIn(strategy, peer, swarm[peer], PeerCount(swarm, p));
    }

    /** A piece chosen from bucket i is a candidate with exactly i holders. */
    lemma RarestIsMinimal(strategy: Strategy, swarm: Swarm, peer: nat, p: nat, i: nat)
      requires Valid() && Exact(raritiesByPiece[..], maxPeers, strategy.neededPieces.Keys, swarm)
      requires KeysBelow(strategy.Idx(), raritiesByPiece.Length) && |swarm| <= maxPeers
      requires peer in swarm && 1 <= i <= maxPeers && p in piecesByRarity[i] && p in swarm[peer]
      requires Askable(strategy.cfg, strategy.Idx(), peer, p)
      ensures Candidate(strategy.cfg, strategy.Idx(), swarm, peer, p) && PeerCount(swarm, p) == i
    {
      hide Askable, Exact, PeerCount, KeysBelow, Inverse;
      CandidateBucket(strategy, swarm, peer, p);
      BucketsPartition(piecesByRarity[..], raritiesByPiece[..], p);
      assert p in piecesByRarity[..][i] && p in piecesByRarity[..][PeerCount(swarm, p)];
    }

    /** Buckets 1..maxPeers hold needed pieces only, so looking a piece up never fails. */
    lemma BucketsNeeded(strategy: Strategy, swarm: Swarm, k: nat)
      requires Valid() && 1 <= k <= maxPeers
      requires Exact(raritiesByPiece[..], maxPeers, strategy.neededPieces.Keys, swarm)
      ensures OnlyNeeded(strategy, k, raritiesByPiece.Length)
    {
      hide PeerCount;
      assert piecesByRarity[..][k] == BucketOf(raritiesByPiece[..], k);
    }

    lemma CandidateBucket(strategy: Strategy, swarm: Swarm, peer: nat, p: nat)
      requires Valid() && Exact(raritiesByPiece[..], maxPeers, strategy.neededPieces.Keys, swarm)
      requires KeysBelow(strategy.Idx(), raritiesByPiece.Length) && |swarm| <= maxPeers
      requires Candidate(strategy.cfg, strategy.Idx(), swarm, peer, p)
      ensures p < raritiesByPiece.Length
      ensures 1 <= PeerCount(swarm, p) <= maxPeers && p in piecesByRarity[PeerCount(swarm, p)]
    {
      hide FirstAllowed;
      assert p in strategy.Idx().needed;
      hide Askable, Exact, PeerCount;
      CandidateInBucket(raritiesByPiece[..], maxPeers, strategy.cfg, strategy.Idx(), swarm, peer, p);
      BucketsPartition(piecesByRarity[..], raritiesByPiece[..], p);
    }

    /** Fewer peers are allowed: new buckets, filled by counting over the list of peers again. */
    method ShrinkMaxPeers(newMaxPeers: nat, needed: set<nat>, swarm: Swarm, peerList: seq<nat>)
      requires Valid() && newMaxPeers < maxPeers && |swarm| <= newMaxPeers
      requires Distinct(peerList) && Elements(peerList) == swarm.Keys
      modifies this, raritiesByPiece
      ensures Valid() && maxPeers == newMaxPeers && fresh(piecesByRarity) && raritiesByPiece == old(raritiesByPiece)
      ensures raritiesByPiece[..] == Recounted(raritiesByPiece.Length, newMaxPeers, needed, swarm)
    {
      maxPeers := newMaxPeers;
      piecesByRarity := new set<nat>[newMaxPeers + 2](_ => {});
      hide PeerCount;
      var i := 0;
      while i < raritiesByPiece.Length
        invariant 0 <= i <= raritiesByPiece.Length && piecesByRarity.Length == newMaxPeers + 2
        invariant maxPeers == newMaxPeers && fresh(piecesByRarity) && raritiesByPiece == old(raritiesByPiece)
        invariant Inverse(piecesByRarity[..], raritiesByPiece[..i])
        invariant forall p :: 0 <= p < i ==>
          raritiesByPiece[p] == if p in needed then PeerCount(swarm, p) else newMaxPeers + 1
      {
        hide Inverse;
        if i in needed {
          var rarity := CountHolders(i, swarm, peerList);
          CountAtMostPeers(swarm, i);
          Insert(i, rarity);
        } else {
          Insert(i, newMaxPeers + 1);
        }
        i := i + 1;
      }
      assert raritiesByPiece[..] == raritiesByPiece[..i];
    }
  }

  /** Bucket i is untouched while the buckets below it are moved up. */
  lemma RaisedBelow(start: seq<nat>, i: nat, has: set<nat>)
    ensures BucketOf(start, i) * has <= BucketOf(Raised(start, MovedUp(start, i, has)), i)
    ensures Raised(Raised(start, MovedUp(start, i, has)), BucketOf(start, i) * has)
         == Raised(start, MovedUp(start, i + 1, has))
  {
  }

  lemma LoweredBelow(start: seq<nat>, i: nat, has: set<nat>)
    requires i >= 1
    ensures BucketOf(start, i) * has <= BucketOf(Lowered(start, MovedDown(start, i - 1, has)), i)
    ensures Lowered(Lowered(start, MovedDown(start, i - 1, has)), BucketOf(start, i) * has)
         == Lowered(start, MovedDown(start, i, has))
  {
  }

  /** Count the peers of the list that have the piece. */
  method CountHolders(p: nat, swarm: Swarm, peerList: seq<nat>) returns (rarity: nat)
    requires Distinct(peerList) && Elements(peerList) == swarm.Keys
    ensures rarity == PeerCount(swarm, p)
  {
    rarity := 0;
    assert Elements(peerList[..0]) == {};
    hide Distinct, Elements;
    for k := 0 to |peerList|
      invariant rarity == |HoldersOf(swarm, p) * Elements(peerList[..k])|
    {
      PrefixStep(peerList, k);
      HoldersStep(swarm, p, Elements(peerList[..k]), peerList[k]);
      if p in swarm[peerList[k]] {
        rarity := rarity + 1;
      }
    }
    assert peerList[..|peerList|] == peerList;
    assert HoldersOf(swarm, p) * swarm.Keys == HoldersOf(swarm, p);
  }

  lemma PrefixStep(s: seq<nat>, k: nat)
    requires Distinct(s) && k < |s|
    ensures Elements(s[..k + 1]) == Elements(s[..k]) + {s[k]} && s[k] !in Elements(s[..k]) && s[k] in Elements(s)
  {
    assert s[..k + 1] == s[..k] + [s[k]];
  }

  lemma HoldersStep(swarm: Swarm, p: nat, counted: set<nat>, q: nat)
    requires q in swarm && q !in counted
    ensures |HoldersOf(swarm, p) * (counted + {q})|
         == |HoldersOf(swarm, p) * counted| + if p in swarm[q] then 1 else 0
  {
    if p in swarm[q] {
      assert HoldersOf(swarm, p) * (counted + {q}) == HoldersOf(swarm, p) * counted + {q};
    } else {
      assert HoldersOf(swarm, p) * (counted + {q}) == HoldersOf(swarm, p) * counted;
    }
  }

  lemma InsertKeepsInverse(buckets: seq<set<nat>>, rarities: seq<nat>, rarity: nat)
    requires Inverse(buckets, rarities) && rarity < |buckets|
    ensures Inverse(buckets[rarity := buckets[rarity] + {|rarities|}], rarities + [rarity])
  {
    var after, rated := buckets[rarity := buckets[rarity] + {|rarities|}], rarities + [rarity];
    forall i | 0 <= i < |buckets| ensures after[i] == BucketOf(rated, i) {
      assert buckets[i] == BucketOf(rarities, i);
    }
  }
}
