/**
 The bookkeeping of outstanding block requests, as values: every request is stored under its piece,
 under its peer, in the piece's multiset of asked peers, and as a pending timeout. This module
 defines the steps the event handlers take on that index and the agreement they all keep.
 */
module RequestIndex {
  import opened Words
  import opened Lists
  import opened Tiling

  datatype Request = Request(peer: nat, piece: nat, offset: nat, length: nat) {
    /** Same piece, offset and length, whoever was asked. */
    predicate SameBlock(other: Request) {
      piece == other.piece && offset == other.offset && length == other.length
    }

    /** The entry of the list of possible blocks that the request stands for. */
    function Entry(): Block {
      Block(offset, EndOffset(offset, length))
    }
  }

  datatype PieceNeeded = PieceNeeded(possible: seq<Block>, pending: seq<Request>, requestedFrom: multiset<nat>)

  /** m_neededPieces, m_requestedBlocks, and the requests whose timeout event is scheduled. */
  datatype Index = Index(needed: map<nat, PieceNeeded>, byPeer: map<nat, seq<Request>>, timeouts: set<Request>)

  /** The peers asked in a list of requests, with multiplicity. */
  ghost function PeersOf(rs: seq<Request>): multiset<nat> {
    if rs == [] then multiset{} else multiset{rs[0].peer} + PeersOf(rs[1..])
  }

  // ----- Agreement -----

  ghost predicate Pending(s: Index, r: Request) {
    r.piece in s.needed && r in s.needed[r.piece].pending
  }

  ghost predicate Listed(s: Index, r: Request) {
    r.peer in s.byPeer && r in s.byPeer[r.peer]
  }

  /** One piece's entry by itself. */
  ghost predicate PieceOk(p: nat, pn: PieceNeeded) {
    && pn.possible != [] && Distinct(pn.possible) && Requestable(pn.possible)
    && Distinct(pn.pending)
    && pn.requestedFrom == PeersOf(pn.pending)
    && (forall r :: r in pn.pending ==> r.piece == p && r.length < U32 && r.Entry() in pn.possible)
    && OnePerBlock(pn.pending)
  }

  ghost predicate OnePerBlock(rs: seq<Request>) {
    forall r, q :: r in rs && q in rs && r.Entry() == q.Entry() ==> r == q
  }

  ghost predicate PeerOk(q: nat, rs: seq<Request>) {
    Distinct(rs) && forall r :: r in rs ==> r.peer == q
  }

  ghost predicate PiecesOk(needed: map<nat, PieceNeeded>) {
    forall p :: p in needed ==> PieceOk(p, needed[p])
  }

  ghost predicate PeersOk(byPeer: map<nat, seq<Request>>) {
    forall q :: q in byPeer ==> PeerOk(q, byPeer[q])
  }

  ghost predicate Linked(s: Index) {
    forall r :: (Pending(s, r) <==> Listed(s, r)) && (r in s.timeouts <==> Pending(s, r))
  }

  /** All four places hold the same requests, each once. */
  ghost predicate Agrees(s: Index) {
    PiecesOk(s.needed) && PeersOk(s.byPeer) && Linked(s)
  }

  // ----- Steps -----

  /** Put the request into every place (RequestBlock and SaveRequest, with its timeout scheduled). */
  function Add(s: Index, r: Request): Index
    requires r.piece in s.needed && r.peer in s.byPeer
  {
    var pn := s.needed[r.piece];
    Index(
      s.needed[r.piece := PieceNeeded(pn.possible, pn.pending + [r], pn.requestedFrom + multiset{r.peer})],
      s.byPeer[r.peer := s.byPeer[r.peer] + [r]],
      s.timeouts + {r})
  }

  /** Take the request out of every place. */
  function Drop(s: Index, r: Request): Index
    requires r.piece in s.needed && r.peer in s.byPeer
  {
    var pn := s.needed[r.piece];
    Index(
      s.needed[r.piece := PieceNeeded(pn.possible, Without(pn.pending, r), pn.requestedFrom - multiset{r.peer})],
      s.byPeer[r.peer := Without(s.byPeer[r.peer], r)],
      s.timeouts - {r})
  }

  /** A request for a block that is still possible and not yet pending. */
  ghost predicate Fresh(s: Index, r: Request) {
    && r.piece in s.needed && r.peer in s.byPeer
    && r.length < U32 && r.Entry() in s.needed[r.piece].possible
    && forall q :: q in s.needed[r.piece].pending ==> q.Entry() != r.Entry()
  }

  lemma {:induction false} PeersOfAppend(rs: seq<Request>, r: Request)
    ensures PeersOf(rs + [r]) == PeersOf(rs) + multiset{r.peer}
  {
    if rs == [] {
      assert rs + [r] == [r];
    } else {
      PeersOfAppend(rs[1..], r);
      assert (rs + [r])[1..] == rs[1..] + [r];
    }
  }

  lemma {:induction false} PeersOfWithout(rs: seq<Request>, r: Request)
    requires Distinct(rs) && r in rs
    ensures PeersOf(Without(rs, r)) == PeersOf(rs) - multiset{r.peer}
  {
    if rs[0] == r {
      WithoutAbsent(rs[1..], r);
    } else {
      PeersOfWithout(rs[1..], r);
      assert Without(rs, r)[1..] == Without(rs[1..], r);
      PeersOfCounts(rs[1..], r);
    }
  }

  lemma {:induction false} PeersOfCounts(rs: seq<Request>, r: Request)
    requires r in rs
    ensures r.peer in PeersOf(rs)
  {
    if rs[0] != r {
      PeersOfCounts(rs[1..], r);
    }
  }

  lemma AddPieceOk(p: nat, pn: PieceNeeded, r: Request)
    requires PieceOk(p, pn) && r.piece == p && r.length < U32 && r.Entry() in pn.possible
    requires forall q :: q in pn.pending ==> q.Entry() != r.Entry()
    ensures PieceOk(p, PieceNeeded(pn.possible, pn.pending + [r], pn.requestedFrom + multiset{r.peer}))
  {
    hide PeersOf, Distinct, Requestable, Request.Entry;
    PeersOfAppend(pn.pending, r);
    DistinctAppend(pn.pending, r);
  }

  lemma DropPieceOk(p: nat, pn: PieceNeeded, r: Request)
    requires PieceOk(p, pn) && r in pn.pending
    ensures PieceOk(p, PieceNeeded(pn.possible, Without(pn.pending, r), pn.requestedFrom - multiset{r.peer}))
  {
    hide PeersOf, Distinct, Requestable, Without, Request.Entry;
    PeersOfWithout(pn.pending, r);
    WithoutDistinct(pn.pending, r);
    WithoutMembers(pn.pending, r);
  }

  lemma AddMembers(s: Index, r: Request, q: Request)
    requires r.piece in s.needed && r.peer in s.byPeer
    ensures Pending(Add(s, r), q) <==> Pending(s, q) || (q.piece == r.piece && q == r)
    ensures Listed(Add(s, r), q) <==> Listed(s, q) || (q.peer == r.peer && q == r)
  {
  }

  lemma AddKeepsAgreement(s: Index, r: Request)
    requires Agrees(s) && Fresh(s, r)
    ensures Agrees(Add(s, r))
  {
    AddPieceOk(r.piece, s.needed[r.piece], r);
    assert !Listed(s, r) && PeerOk(r.peer, s.byPeer[r.peer]);
    DistinctAppend(s.byPeer[r.peer], r);
    assert PeerOk(r.peer, s.byPeer[r.peer] + [r]);
    hide PieceOk, PeerOk, Fresh;
    assert PiecesOk(Add(s, r).needed);
    assert PeersOk(Add(s, r).byPeer);
    AddKeepsLinks(s, r);
  }

  lemma AddKeepsLinks(s: Index, r: Request)
    requires Linked(s) && r.piece in s.needed && r.peer in s.byPeer
    ensures Linked(Add(s, r))
  {
    var t := Add(s, r);
    forall q ensures (Pending(t, q) <==> Listed(t, q)) && (q in t.timeouts <==> Pending(t, q)) {
      AddMembers(s, r, q);
      hide Pending, Listed;
    }
  }

  lemma DropMembers(s: Index, r: Request, q: Request)
    requires r.piece in s.needed && r.peer in s.byPeer
    ensures Pending(Drop(s, r), q) <==> Pending(s, q) && q != r
    ensures Listed(Drop(s, r), q) <==> Listed(s, q) && q != r
  {
    hide Without;
    WithoutMembers(s.byPeer[r.peer], r);
    WithoutMembers(s.needed[r.piece].pending, r);
  }

  lemma DropKeepsLinks(s: Index, r: Request)
    requires Linked(s) && r.piece in s.needed && r.peer in s.byPeer
    ensures Linked(Drop(s, r))
  {
    var t := Drop(s, r);
    forall q ensures (Pending(t, q) <==> Listed(t, q)) && (q in t.timeouts <==> Pending(t, q)) {
      DropMembers(s, r, q);
      hide Pending, Listed;
    }
  }

  lemma DropKeepsAgreement(s: Index, r: Request)
    requires Agrees(s) && Pending(s, r)
    ensures Agrees(Drop(s, r))
  {
    assert Listed(s, r);
    DropPieceOk(r.piece, s.needed[r.piece], r);
    WithoutDistinct(s.byPeer[r.peer], r);
    WithoutMembers(s.byPeer[r.peer], r);
    assert PeerOk(r.peer, Without(s.byPeer[r.peer], r));
    hide PieceOk, PeerOk, Without;
    assert PiecesOk(Drop(s, r).needed);
    assert PeersOk(Drop(s, r).byPeer);
    DropKeepsLinks(s, r);
  }

  // ----- Steps that touch no request -----

  lemma SameRequestsAgree(s: Index, t: Index)
    requires Linked(s) && PiecesOk(t.needed) && PeersOk(t.byPeer) && t.timeouts == s.timeouts
    requires forall r :: Pending(t, r) <==> Pending(s, r)
    requires forall r :: Listed(t, r) <==> Listed(s, r)
    ensures Agrees(t)
  {
    hide Pending, Listed, PiecesOk, PeersOk;
  }

  /** A block has arrived; nobody is asked for it any more. */
  function RemoveBlock(s: Index, p: nat, b: Block): Index
    requires p in s.needed
  {
    s.(needed := s.needed[p := s.needed[p].(possible := Without(s.needed[p].possible, b))])
  }

  /** A new entry for a piece (back) in the list of needed pieces. */
  function PutPiece(s: Index, p: nat, pn: PieceNeeded): Index {
    s.(needed := s.needed[p := pn])
  }

  function ErasePiece(s: Index, p: nat): Index {
    s.(needed := s.needed - {p})
  }

  function Register(s: Index, q: nat): Index {
    s.(byPeer := s.byPeer[q := []])
  }

  function Forget(s: Index, q: nat): Index {
    s.(byPeer := s.byPeer - {q})
  }

  lemma RemoveBlockPieceOk(p: nat, pn: PieceNeeded, b: Block)
    requires PieceOk(p, pn) && Without(pn.possible, b) != []
    requires forall r :: r in pn.pending ==> r.Entry() != b
    ensures PieceOk(p, pn.(possible := Without(pn.possible, b)))
  {
    hide Request.Entry, PeersOf, OnePerBlock, Without, Distinct, Block.Length;
    WithoutMembers(pn.possible, b);
    WithoutDistinct(pn.possible, b);
    var rest := Without(pn.possible, b);
    forall i | 0 <= i < |rest| ensures rest[i].first < U32 && rest[i].second < U32 && rest[i].Length() > 0 {
      assert rest[i] in rest && rest[i] in pn.possible;
    }
  }

  lemma RemoveBlockKeepsAgreement(s: Index, p: nat, b: Block)
    requires Agrees(s) && p in s.needed && Without(s.needed[p].possible, b) != []
    requires forall r :: r in s.needed[p].pending ==> r.Entry() != b
    ensures Agrees(RemoveBlock(s, p, b))
  {
    RemoveBlockPieceOk(p, s.needed[p], b);
    hide PieceOk, PeerOk, Without;
    SameRequestsAgree(s, RemoveBlock(s, p, b));
  }

  lemma PutPieceKeepsAgreement(s: Index, p: nat, pn: PieceNeeded)
    requires Agrees(s) && PieceOk(p, pn) && pn.pending == []
    requires p in s.needed ==> s.needed[p].pending == []
    ensures Agrees(PutPiece(s, p, pn))
  {
    hide PieceOk, PeerOk;
    SameRequestsAgree(s, PutPiece(s, p, pn));
  }

  lemma ErasePieceKeepsAgreement(s: Index, p: nat)
    requires Agrees(s) && p in s.needed && s.needed[p].pending == []
    ensures Agrees(ErasePiece(s, p))
  {
    hide PieceOk, PeerOk;
    SameRequestsAgree(s, ErasePiece(s, p));
  }

  lemma RegisterKeepsAgreement(s: Index, q: nat)
    requires Agrees(s) && (q in s.byPeer ==> s.byPeer[q] == [])
    ensures Agrees(Register(s, q))
  {
    hide PieceOk;
    SameRequestsAgree(s, Register(s, q));
  }

  /** An emptied list keeps the agreement if and only if nothing was outstanding with the peer. */
  lemma RegisterKeepsAgreementIff(s: Index, q: nat)
    requires Agrees(s)
    ensures Agrees(Register(s, q)) <==> (q in s.byPeer ==> s.byPeer[q] == [])
  {
    if q in s.byPeer && s.byPeer[q] != [] {
      var r := s.byPeer[q][0];
      assert PeerOk(q, s.byPeer[q]) && Listed(s, r) && Pending(s, r);
      assert Pending(Register(s, q), r) && !Listed(Register(s, q), r);
    } else {
      RegisterKeepsAgreement(s, q);
    }
    hide PieceOk, PeerOk;
  }

  lemma ForgetKeepsAgreement(s: Index, q: nat)
    requires Agrees(s) && (q in s.byPeer ==> s.byPeer[q] == [])
    ensures Agrees(Forget(s, q))
  {
    hide PieceOk, PeerOk;
    SameRequestsAgree(s, Forget(s, q));
  }

  // ----- Dropping all requests of a peer -----

  ghost function DropAll(s: Index, rs: seq<Request>): Index
    decreases |rs|
  {
    if rs == [] || rs[0].piece !in s.needed || rs[0].peer !in s.byPeer then s
    else DropAll(Drop(s, rs[0]), rs[1..])
  }

  lemma DropFirstOfPeer(s: Index, q: nat)
    requires Agrees(s) && q in s.byPeer && s.byPeer[q] != []
    ensures var r := s.byPeer[q][0];
            && r.piece in s.needed && r.peer == q
            && Agrees(Drop(s, r)) && Drop(s, r).byPeer[q] == s.byPeer[q][1..]
  {
    var rs := s.byPeer[q];
    var r := rs[0];
    assert PeerOk(q, rs) && Listed(s, r) && Pending(s, r);
    EraseIsWithout(rs, 0);
    hide Agrees, Distinct, PeerOk, Without;
    DropKeepsAgreement(s, r);
    assert rs[..0] + rs[1..] == rs[1..];
  }

  lemma {:induction false} DropAllOfPeer(s: Index, q: nat)
    requires Agrees(s) && q in s.byPeer
    ensures var t := DropAll(s, s.byPeer[q]);
            && Agrees(t) && t.needed.Keys == s.needed.Keys && t.byPeer.Keys == s.byPeer.Keys
            && t.byPeer[q] == []
    decreases |s.byPeer[q]|
  {
    hide Agrees;
    if s.byPeer[q] != [] {
      DropFirstOfPeer(s, q);
      DropAllOfPeer(Drop(s, s.byPeer[q][0]), q);
    }
  }

  lemma {:induction false} DropAllKeepsOthers(s: Index, q: nat, r: Request)
    requires Agrees(s) && q in s.byPeer
    ensures Pending(DropAll(s, s.byPeer[q]), r) <==> Pending(s, r) && r.peer != q
    decreases |s.byPeer[q]|
  {
    if s.byPeer[q] == [] {
      assert Pending(s, r) <==> Listed(s, r);
      assert Listed(s, r) ==> r.peer != q;
    } else {
      hide Agrees;
      var first := s.byPeer[q][0];
      DropFirstOfPeer(s, q);
      DropAllKeepsOthers(Drop(s, first), q, r);
      DropMembers(s, first, r);
    }
  }

  // ----- Multiplicities -----

  ghost function TimesByPiece(s: Index, r: Request): nat {
    if r.piece in s.needed then multiset(s.needed[r.piece].pending)[r] else 0
  }

  ghost function TimesByPeer(s: Index, r: Request): nat {
    if r.peer in s.byPeer then multiset(s.byPeer[r.peer])[r] else 0
  }

  lemma {:induction false} DistinctMultiplicity<T>(xs: seq<T>, x: T)
    requires Distinct(xs)
    ensures multiset(xs)[x] == if x in xs then 1 else 0
  {
    if xs != [] {
      DistinctMultiplicity(xs[1..], x);
      assert xs == [xs[0]] + xs[1..];
    }
  }

  /**
   The listing by piece and the listing by peer are the same multiset, no request occurs twice in
   either, no list holds a request of another piece or peer, and the peers of a piece's multiset are
   those of its pending requests.
   */
  lemma ListingsAreEqualMultisets(s: Index, r: Request)
    requires Agrees(s)
    ensures TimesByPiece(s, r) == TimesByPeer(s, r) == if r in s.timeouts then 1 else 0
    ensures forall p :: p in s.needed && r in s.needed[p].pending ==> p == r.piece
    ensures forall q :: q in s.byPeer && r in s.byPeer[q] ==> q == r.peer
    ensures forall p :: p in s.needed ==> s.needed[p].requestedFrom == PeersOf(s.needed[p].pending)
  {
    if r.piece in s.needed {
      assert PieceOk(r.piece, s.needed[r.piece]);
      DistinctMultiplicity(s.needed[r.piece].pending, r);
    }
    if r.peer in s.byPeer {
      assert PeerOk(r.peer, s.byPeer[r.peer]);
      DistinctMultiplicity(s.byPeer[r.peer], r);
    }
    assert Pending(s, r) <==> Listed(s, r);
  }
}
