/**
 The stateful part selection strategy: the maps that the event handlers update in place, proved
 against the steps of PartSelection and DownloadRuns.
 */
module PartSelectionStrategy {
  import opened Lists
  import opened Tiling
  import opened Bitfields
  import opened ClientProgress
  import opened RequestIndex
  import opened PartSelection
  import opened DownloadRuns
  import Floyd

  /** The peer that the scheduler serves in its i-th round. */
  ghost function Visited(peers: seq<nat>, draws: seq<nat>, i: nat): nat
    requires |draws| == |peers| && Floyd.ValidDraws(0, draws) && i < |peers|
  {
    Floyd.PermutationInRange(draws, i);
    peers[Floyd.Permutation(0, draws, |peers|)[i] - 1]
  }

  /** The peers in the random order in which the scheduler serves them. */
  ghost function VisitOrder(peers: seq<nat>, draws: seq<nat>): (order: seq<nat>)
    requires |draws| == |peers| && Floyd.ValidDraws(0, draws)
    ensures |order| == |peers|
    ensures forall i :: 0 <= i < |peers| ==> order[i] == Visited(peers, draws, i)
  {
    seq(|peers|, i requires 0 <= i < |peers| => Visited(peers, draws, i))
  }

  lemma VisitedAt(peers: seq<nat>, draws: seq<nat>, i: nat)
    requires |draws| == |peers| && Floyd.ValidDraws(0, draws) && i < |peers|
    ensures var permutation := Floyd.Permutation(0, draws, |peers|);
            && |permutation| == |peers| && 1 <= permutation[i] <= |peers|
            && VisitOrder(peers, draws)[i] == peers[permutation[i] - 1]
  {
    hide Floyd.Permutation, Floyd.ValidDraws;
    Floyd.PermutationInRange(draws, i);
    assert VisitOrder(peers, draws)[i] == Visited(peers, draws, i);
  }

  lemma EveryPeerVisited(peers: seq<nat>, draws: seq<nat>, q: nat)
    requires |draws| == |peers| && Floyd.ValidDraws(0, draws) && q in peers
    ensures q in VisitOrder(peers, draws)
  {
    Floyd.FullPermutationVisitsAll(draws);
    var k :| 0 <= k < |peers| && peers[k] == q;
    var permutation := Floyd.Permutation(0, draws, |peers|);
    assert k + 1 in permutation;
    var i :| 0 <= i < |permutation| && permutation[i] == k + 1;
    VisitedAt(peers, draws, i);
  }

  /** One call of the scheduler, over all active peers. */
  ghost function Scheduled(cfg: Settings, st: State, peers: seq<nat>, draws: seq<nat>, choking: set<nat>): State
    requires cfg.media.Valid() && |draws| == |peers| && Floyd.ValidDraws(0, draws)
  {
    if st.signalled || peers == [] then st
    else st.(index := Schedule(cfg, st.index, VisitOrder(peers, draws), |peers|, choking, cfg.media.NumberOfPieces()))
  }

  lemma ScheduledGood(cfg: Settings, st: State, peers: seq<nat>, draws: seq<nat>, choking: set<nat>)
    requires Good(cfg, st) && |draws| == |peers| && Floyd.ValidDraws(0, draws)
    ensures Good(cfg, Scheduled(cfg, st, peers, draws, choking))
  {
    hide Agrees, WithinCaps, Schedule, VisitOrder, Conserved;
    ScheduleSafe(cfg, st.index, VisitOrder(peers, draws), |peers|, choking, cfg.media.NumberOfPieces());
    ConservedByKeys(cfg, st, Scheduled(cfg, st, peers, draws, choking));
  }

  /** After the scheduler, no active, registered, unchoked peer could be asked for one more block. */
  lemma SchedulerIsMaximal(cfg: Settings, st: State, peers: seq<nat>, draws: seq<nat>, choking: set<nat>, q: nat)
    requires Good(cfg, st) && |draws| == |peers| && Floyd.ValidDraws(0, draws)
    requires !st.signalled && q in peers && q in st.index.byPeer && q !in choking
    ensures Saturated(cfg, Scheduled(cfg, st, peers, draws, choking).index, q)
  {
    GoodKeys(cfg, st);
    EveryPeerVisited(peers, draws, q);
    var order := VisitOrder(peers, draws);
    hide Agrees, WithinCaps, Conserved, Schedule, VisitOrder, Saturated, KeysBelow;
    var i :| 0 <= i < |order| && order[i] == q;
    ScheduleSaturates(cfg, st.index, order, |peers|, choking, cfg.media.NumberOfPieces(), i);
  }

  lemma VisitedIsPeer(peers: seq<nat>, draws: seq<nat>, q: nat)
    requires |draws| == |peers| && Floyd.ValidDraws(0, draws) && q in VisitOrder(peers, draws)
    ensures q in peers
  {
    var i :| 0 <= i < |peers| && VisitOrder(peers, draws)[i] == q;
    VisitedAt(peers, draws, i);
    hide VisitOrder, Floyd.ValidDraws, Floyd.Permutation;
  }

  /** A peer that chokes us has the same requests after the scheduler as before. */
  lemma SchedulerSparesChoking(cfg: Settings, st: State, peers: seq<nat>, draws: seq<nat>, choking: set<nat>, q: nat)
    requires cfg.media.Valid() && |draws| == |peers| && Floyd.ValidDraws(0, draws)
    requires q in choking && q in st.index.byPeer
    ensures var t := Scheduled(cfg, st, peers, draws, choking).index; q in t.byPeer && t.byPeer[q] == st.index.byPeer[q]
  {
    var order := VisitOrder(peers, draws);
    ScheduleAsksUnchoked(cfg, st.index, order, |peers|, choking, cfg.media.NumberOfPieces(), Request(q, 0, 0, 0));
    hide Schedule, VisitOrder, Listed, Media.NumberOfPieces;
  }

  /** Every request that the scheduler adds is to an active, registered peer that does not choke us; none is dropped. */
  lemma SchedulerAsksUnchoked(
      cfg: Settings, st: State, peers: seq<nat>, draws: seq<nat>, choking: set<nat>, r: Request)
    requires Good(cfg, st) && |draws| == |peers| && Floyd.ValidDraws(0, draws)
    ensures var t := Scheduled(cfg, st, peers, draws, choking);
      && (Pending(st.index, r) ==> Pending(t.index, r))
      && (Pending(t.index, r) && !Pending(st.index, r) ==>
            !st.signalled && r.peer in peers && r.peer in st.index.byPeer && r.peer !in choking)
  {
    hide Good, Schedule, VisitOrder, Listed, Pending, Scheduled, Media.NumberOfPieces;
    GoodKeys(cfg, st);
    var t := Scheduled(cfg, st, peers, draws, choking);
    ScheduledListing(cfg, st, peers, draws, choking, r);
    ScheduledGood(cfg, st, peers, draws, choking);
    GoodKeys(cfg, t);
    if r.peer in VisitOrder(peers, draws) {
      VisitedIsPeer(peers, draws, r.peer);
    }
  }

  lemma ScheduledListing(
      cfg: Settings, st: State, peers: seq<nat>, draws: seq<nat>, choking: set<nat>, r: Request)
    requires cfg.media.Valid() && |draws| == |peers| && Floyd.ValidDraws(0, draws)
    ensures var t := Scheduled(cfg, st, peers, draws, choking);
      && (Listed(st.index, r) ==> Listed(t.index, r))
      && (Listed(t.index, r) && !Listed(st.index, r) ==>
            !st.signalled && r.peer in VisitOrder(peers, draws) && r.peer in st.index.byPeer && r.peer !in choking)
  {
    var order := VisitOrder(peers, draws);
    ScheduleAsksUnchoked(cfg, st.index, order, |peers|, choking, cfg.media.NumberOfPieces(), r);
    assert order[..|peers|] == order;
    hide Schedule, VisitOrder, Listed, Media.NumberOfPieces;
  }

  class Strategy {
    const cfg: Settings
    const client: Client
    var neededPieces: map<nat, PieceNeeded>
    var requestedBlocks: map<nat, seq<Request>>
    var timeouts: set<Request>
    var requestBlockSize: nat
    var downloadCompleted: bool
    ghost var completions: seq<nat>

    ghost function Idx(): Index
      reads this
    {
      Index(neededPieces, requestedBlocks, timeouts)
    }

    ghost predicate Linked()
      reads this, client
    {
      cfg.media == client.media && client.Counted()
    }

    ghost function Abs(): State
      requires Linked()
      reads this, client
    {
      State(Idx(), requestBlockSize, Owned(client.bitfield, cfg.media.NumberOfPieces()), completions, downloadCompleted,
            client.bytesCompleted)
    }

    ghost predicate Valid()
      reads this, client
    {
      Linked() && Good(cfg, Abs())
    }

    constructor (cfg: Settings, client: Client, requestBlockSize: nat)
      requires cfg.media == client.media && client.Counted()
      requires ValidSettings(cfg, requestBlockSize)
      ensures this.cfg == cfg && this.client == client && Linked()
      ensures Abs() == Start(cfg, requestBlockSize, Owned(client.bitfield, cfg.media.NumberOfPieces()), client.bytesCompleted)
      ensures Valid()
    {
      this.cfg, this.client, this.requestBlockSize := cfg, client, requestBlockSize;
      neededPieces, requestedBlocks, timeouts, completions := map[], map[], {}, [];
      downloadCompleted := client.piecesCompleted == cfg.media.NumberOfPieces();
      new;
      InitializeNeededPiecesMap();
      CountIsOwned(client.bitfield, cfg.media.NumberOfPieces());
      hide Media.NumberOfPieces, Good, HasBit;
      StartIsGood(cfg, requestBlockSize, Owned(client.bitfield, cfg.media.NumberOfPieces()), client.bytesCompleted);
    }

    /** Cut every piece whose bit is clear into blocks. */
    method InitializeNeededPiecesMap()
      requires Linked() && ValidSettings(cfg, requestBlockSize)
      modifies this`neededPieces
      ensures neededPieces == AllNeeded(cfg, requestBlockSize, Owned(client.bitfield, cfg.media.NumberOfPieces()))
    {
      var n := cfg.media.NumberOfPieces();
      var missing := MissingPieces(client.bitfield, n);
      neededPieces := map[];
      for i := 0 to |missing|
        invariant forall p: nat :: p in neededPieces <==> p in missing[..i]
        invariant forall p: nat :: p in neededPieces ==>
          p < n && neededPieces[p] == GeneratePieceNeeded(cfg, requestBlockSize, p)
      {
        assert missing[i] in missing;
        var piece := MakePiece(missing[i]);
        neededPieces := neededPieces[missing[i] := piece];
      }
      assert missing[..|missing|] == missing;
    }

    method MakePiece(pieceNeeded: nat) returns (result: PieceNeeded)
      requires ValidSettings(cfg, requestBlockSize) && pieceNeeded < cfg.media.NumberOfPieces()
      ensures result == GeneratePieceNeeded(cfg, requestBlockSize, pieceNeeded)
    {
      var pieceLength :=
        if cfg.media.HasTrailingPiece() && pieceNeeded == cfg.media.NumberOfPieces() - 1
        then cfg.media.TrailingPieceLength() else cfg.media.pieceLength;
      var possibleBlocks := GenerateBlocks(pieceLength, requestBlockSize);
      result := PieceNeeded(possibleBlocks, [], multiset{});
    }

    /** The five criteria, with the scan of the pending requests that stops once the limit is reached. */
    method RequestAllowedForBlock(peer: nat, pieceIndex: nat, blockOffset: nat, blockLength: nat)
      returns (allowed: bool)
      requires peer in requestedBlocks
      ensures allowed == Allowed(cfg, Idx(), Request(peer, pieceIndex, blockOffset, blockLength))
    {
      var toFind := Request(peer, pieceIndex, blockOffset, blockLength);
      if pieceIndex !in neededPieces {
        return false;
      }
      var piece := neededPieces[pieceIndex];
      if |piece.pending| >= cfg.perPiece {
        return false;
      }
      if |requestedBlocks[peer]| >= cfg.perPeer {
        return false;
      }
      if piece.requestedFrom[peer] >= cfg.perPeerPerPiece {
        return false;
      }
      var leftRequests := cfg.perBlock;
      var i := 0;
      while leftRequests > 0 && i < |piece.pending|
        invariant 0 <= i <= |piece.pending|
        invariant leftRequests + SameBlockCount(piece.pending[..i], toFind) == cfg.perBlock
        invariant forall k :: 0 <= k < i && toFind.SameBlock(piece.pending[k]) ==> piece.pending[k].peer != peer
      {
        CountPrefix(piece.pending, i, toFind);
        if toFind.SameBlock(piece.pending[i]) {
          leftRequests := leftRequests - 1;
          if piece.pending[i].peer == peer {
            return false;
          }
        }
        i := i + 1;
      }
      CountRest(piece.pending, i, toFind);
      allowed := leftRequests > 0;
      assert i == |piece.pending| ==> piece.pending[..i] == piece.pending;
    }

    /** The first of a needed piece's blocks that may be requested from the peer. */
    method FirstAllowedBlock(peer: nat, p: nat) returns (block: Option<Block>)
      requires peer in requestedBlocks && p in neededPieces
      ensures block == FirstAllowed(cfg, Idx(), peer, p, neededPieces[p].possible)
    {
      hide Allowed, Block.Length;
      var blocks := neededPieces[p].possible;
      for j := 0 to |blocks|
        invariant FirstAllowed(cfg, Idx(), peer, p, blocks) == FirstAllowed(cfg, Idx(), peer, p, blocks[j..])
      {
        assert blocks[j..][0] == blocks[j] && blocks[j..][1..] == blocks[j + 1..];
        var allowed := RequestAllowedForBlock(peer, p, blocks[j].first, blocks[j].Length());
        if allowed {
          return Some(blocks[j]);
        }
      }
      return None;
    }

    /** The first allowed block in piece order; a length of 0 says that there is none. */
    method GetHighestPriorityBlockForPeer(peer: nat) returns (block: Request)
      requires cfg.media.Valid() && peer in requestedBlocks && PiecesOk(neededPieces)
      ensures block.peer == peer
      ensures block.length > 0 <==> Choose(cfg, Idx(), peer, 0, cfg.media.NumberOfPieces()).Some?
      ensures block.length > 0 ==> block == Choose(cfg, Idx(), peer, 0, cfg.media.NumberOfPieces()).value
    {
      block := Request(peer, 0, 0, 0);
      var n := cfg.media.NumberOfPieces();
      hide Media.NumberOfPieces, Allowed, Block.Length;
      for p := 0 to n
        invariant Choose(cfg, Idx(), peer, 0, n) == Choose(cfg, Idx(), peer, p, n)
      {
        if p in neededPieces {
          assert PieceOk(p, neededPieces[p]);
          var first := FirstAllowedBlock(peer, p);
          if first.Some? {
            return RequestFor(peer, p, first.value);
          }
        }
      }
    }

    /** Send out a request and enter it everywhere, with its timeout scheduled. */
    method RequestBlock(block: Request)
      requires block.piece in neededPieces && block.peer in requestedBlocks
      modifies this`neededPieces, this`requestedBlocks, this`timeouts
      ensures Idx() == Add(old(Idx()), block)
    {
      timeouts := timeouts + {block};
      requestedBlocks := requestedBlocks[block.peer := requestedBlocks[block.peer] + [block]];
      var piece := neededPieces[block.piece];
      piece := piece.(pending := piece.pending + [block]);
      piece := piece.(requestedFrom := piece.requestedFrom + multiset{block.peer});
      neededPieces := neededPieces[block.piece := piece];
    }

    /** One peer's share of the scheduler's work. */
    method FillPeer(peer: nat, isChoking: bool)
      requires cfg.media.Valid() && cfg.perBlock == 1 && peer in requestedBlocks
      requires Agrees(Idx()) && WithinCaps(cfg, Idx())
      modifies this`neededPieces, this`requestedBlocks, this`timeouts
      ensures Idx() == Fill(cfg, old(Idx()), peer, isChoking, cfg.media.NumberOfPieces())
    {
      var n := cfg.media.NumberOfPieces();
      while |requestedBlocks[peer]| < cfg.perPeer
        invariant peer in requestedBlocks && Agrees(Idx()) && WithinCaps(cfg, Idx())
        invariant Fill(cfg, Idx(), peer, isChoking, n) == Fill(cfg, old(Idx()), peer, isChoking, n)
        decreases cfg.perPeer - |requestedBlocks[peer]|
      {
        assert PiecesOk(neededPieces);
        hide Agrees, WithinCaps, Allowed, Choose, Fresh, Media.NumberOfPieces;
        var block := GetHighestPriorityBlockForPeer(peer);
        if block.length > 0 {
          if isChoking {
            break;
          }
          ChosenIsFresh(cfg, Idx(), peer, n);
          ChosenPeer(cfg, Idx(), peer, n);
          AddKeepsAgreement(Idx(), block);
          AddKeepsCaps(cfg, Idx(), block);
          RequestBlock(block);
        } else {
          break;
        }
      }
    }

    /** The scheduler's outer loop, over 1-based positions in the list of peers. */
    method ServeInOrder(peers: seq<nat>, requestOrder: seq<nat>, choking: set<nat>, ghost order: seq<nat>)
      requires cfg.media.Valid() && cfg.perBlock == 1 && Agrees(Idx()) && WithinCaps(cfg, Idx())
      requires |order| == |requestOrder|
      requires forall i :: 0 <= i < |order| ==> 1 <= requestOrder[i] <= |peers| && peers[requestOrder[i] - 1] == order[i]
      modifies this`neededPieces, this`requestedBlocks, this`timeouts
      ensures Idx() == Schedule(cfg, old(Idx()), order, |order|, choking, cfg.media.NumberOfPieces())
    {
      hide Agrees, WithinCaps, Media.NumberOfPieces, Fill;
      ghost var n := cfg.media.NumberOfPieces();
      for i := 0 to |requestOrder|
        invariant Idx() == Schedule(cfg, old(Idx()), order, i, choking, n)
      {
        ScheduleSafe(cfg, old(Idx()), order, i, choking, n);
        var currentPeer := peers[requestOrder[i] - 1];
        if currentPeer in requestedBlocks {
          FillPeer(currentPeer, currentPeer in choking);
        }
      }
    }

    /** Serve the active peers in random order. */
    method Scheduler(peers: seq<nat>, draws: seq<nat>, choking: set<nat>)
      requires Valid() && |draws| == |peers| < Floyd.MAX_BOUND && Floyd.ValidDraws(0, draws)
      modifies this`neededPieces, this`requestedBlocks, this`timeouts
      ensures Valid() && Abs() == Scheduled(cfg, old(Abs()), peers, draws, choking)
    {
      if downloadCompleted || |peers| == 0 {
        return;
      }
      hide Good, Agrees, WithinCaps, Schedule, VisitOrder, Media.NumberOfPieces, Floyd.Permutation, Floyd.ValidDraws;
      GoodIndex(cfg, Abs());
      ScheduledGood(cfg, Abs(), peers, draws, choking);
      VisitedAt(peers, draws, 0);
      var requestOrder := Floyd.GetPermutationP(|peers|, |peers|, draws);
      ghost var order := VisitOrder(peers, draws);
      forall i | 0 <= i < |order|
        ensures 1 <= requestOrder[i] <= |peers| && peers[requestOrder[i] - 1] == order[i]
      {
        VisitedAt(peers, draws, i);
      }
      ServeInOrder(peers, requestOrder, choking, order);
    }

    /** ProcessBitfieldReceivedEvent, for a peer with which nothing is outstanding. */
    method ProcessBitfieldReceivedEvent(peer: nat, peers: seq<nat>, draws: seq<nat>, choking: set<nat>)
      requires Valid() && |draws| == |peers| < Floyd.MAX_BOUND && Floyd.ValidDraws(0, draws)
      requires peer in requestedBlocks ==> requestedBlocks[peer] == []
      modifies this`neededPieces, this`requestedBlocks, this`timeouts
      ensures Valid()
      ensures Abs() == Scheduled(cfg, RegisterPeer(old(Abs()), peer), peers, draws, choking)
    {
      if !downloadCompleted {
        RegisterGood(cfg, Abs(), peer);
        hide Good;
        requestedBlocks := requestedBlocks[peer := []];
        assert Idx() == Register(old(Idx()), peer);
        Scheduler(peers, draws, choking);
      }
    }

    /** Take the first matching request out of its piece and out of its peer's list. */
    method RemoveRequest(block: Request)
      requires block.piece in neededPieces && block.peer in requestedBlocks
      requires Distinct(neededPieces[block.piece].pending) && Distinct(requestedBlocks[block.peer])
      modifies this`neededPieces, this`requestedBlocks
      ensures Idx() == Drop(old(Idx()), block).(timeouts := timeouts)
    {
      hide Distinct, Without;
      var piece := neededPieces[block.piece];
      var own := EraseFirst(requestedBlocks[block.peer], block);
      var rest := EraseFirst(piece.pending, block);
      requestedBlocks := requestedBlocks[block.peer := own];
      piece := piece.(requestedFrom := piece.requestedFrom - multiset{block.peer});
      piece := piece.(pending := rest);
      neededPieces := neededPieces[block.piece := piece];
    }

    /** A timeout event that is still scheduled fires. */
    method ProcessRequestTimeout(block: Request)
      requires Valid() && block in timeouts
      modifies this`neededPieces, this`requestedBlocks, this`timeouts
      ensures block.piece in old(neededPieces) && block.peer in old(requestedBlocks)
      ensures Valid() && Abs() == TimeOut(old(Abs()), block)
    {
      hide Good, Distinct, Without, Pending;
      TimeOutGood(cfg, Abs(), block);
      ListsDistinct(cfg, Abs(), block);
      timeouts := timeouts - {block};
      RemoveRequest(block);
    }

    /** Cancel the timeout of the i-th pending request of its piece and take it out everywhere. */
    method TakeOut(block: Request, i: nat)
      requires block.piece in neededPieces && block.peer in requestedBlocks
      requires i < |neededPieces[block.piece].pending| && neededPieces[block.piece].pending[i] == block
      requires Distinct(neededPieces[block.piece].pending) && Distinct(requestedBlocks[block.peer])
      modifies this`neededPieces, this`requestedBlocks, this`timeouts
      ensures Idx() == Drop(old(Idx()), block)
      ensures block.piece in neededPieces
      ensures |neededPieces[block.piece].pending| == old(|neededPieces[block.piece].pending|) - 1
    {
      EraseIsWithout(neededPieces[block.piece].pending, i);
      hide Distinct, Without;
      var piece := neededPieces[block.piece];
      timeouts := timeouts - {block};
      var own := EraseFirst(requestedBlocks[block.peer], block);
      requestedBlocks := requestedBlocks[block.peer := own];
      piece := piece.(requestedFrom := piece.requestedFrom - multiset{block.peer});
      piece := piece.(pending := piece.pending[..i] + piece.pending[i + 1..]);
      neededPieces := neededPieces[block.piece := piece];
    }

    /** Take every request for the delivered block out of all places, cancelling its timeout. */
    method RemoveAllRequests(block: Request)
      requires Agrees(Idx()) && block.piece in neededPieces && block.peer in requestedBlocks
      requires block in neededPieces[block.piece].pending
      modifies this`neededPieces, this`requestedBlocks, this`timeouts
      ensures Idx() == Drop(old(Idx()), block)
    {
      ghost var start := neededPieces[block.piece].pending;
      assert PieceOk(block.piece, neededPieces[block.piece]) && PeerOk(block.peer, requestedBlocks[block.peer]);
      WithoutMembers(start, block);
      hide Agrees, PieceOk, PeerOk, Without, Distinct, Request.Entry;
      ghost var removed := false;
      var i := 0;
      while i < |neededPieces[block.piece].pending|
        invariant block.piece in neededPieces && block.peer in requestedBlocks
        invariant 0 <= i <= |neededPieces[block.piece].pending|
        invariant !removed ==> Idx() == old(Idx()) && block !in start[..i]
        invariant removed ==> Idx() == Drop(old(Idx()), block)
        decreases |neededPieces[block.piece].pending| - i
      {
        var request := neededPieces[block.piece].pending[i];
        assert request in start;
        if block.SameBlock(request) {
          SameBlockSameEntry(block, request);
          assert request == block && !removed;
          TakeOut(request, i);
          removed := true;
        } else {
          i := i + 1;
        }
      }
    }

    /** The piece is owned from now on; the last one completes the download. */
    method ProcessCompletedPiece(pieceIndex: nat)
      requires Linked()
      requires pieceIndex < cfg.media.NumberOfPieces() && !HasBit(client.bitfield, pieceIndex)
      modifies this`downloadCompleted, this`completions, client
      ensures Linked() && completions == old(completions) + [pieceIndex]
      ensures var n := cfg.media.NumberOfPieces();
              && Owned(client.bitfield, n) == old(Owned(client.bitfield, n)) + {pieceIndex}
              && downloadCompleted == (old(downloadCompleted) || |Owned(client.bitfield, n)| == n)
      ensures client.bytesCompleted == old(client.bytesCompleted) + cfg.media.CountedLength(pieceIndex)
      ensures cfg.media.HasTrailingPiece() && old(client.Consistent()) ==> client.Consistent()
    {
      ghost var before := client.bitfield;
      var n := cfg.media.NumberOfPieces();
      hide Media.NumberOfPieces, HasBit, SetBit, BytesOwned, Count;
      client.SetPieceComplete(pieceIndex);
      completions := completions + [pieceIndex];
      CountIsOwned(client.bitfield, n);
      OwnedAfterSet(before, pieceIndex, n);
      if client.piecesCompleted == n {
        downloadCompleted := true;
      }
    }

    /** A block arrived from `peer`; `intact` is the outcome of the data check for its piece. */
    method ProcessPeerBlockCompleteEvent(
        peer: nat, pieceIndex: nat, blockOffset: nat, blockLength: nat, intact: bool,
        peers: seq<nat>, draws: seq<nat>, choking: set<nat>)
      requires Valid() && |draws| == |peers| < Floyd.MAX_BOUND && Floyd.ValidDraws(0, draws)
      modifies this, client
      ensures Valid()
      ensures var r := Request(peer, pieceIndex, blockOffset, blockLength);
              if old(Listed(Idx(), r))
              then KeysBelow(old(Idx()), cfg.media.NumberOfPieces())
                && Abs() == Scheduled(cfg, Deliver(cfg, old(Abs()), r, intact), peers, draws, choking)
              else Abs() == old(Abs())
      ensures cfg.media.HasTrailingPiece() && old(client.Consistent()) ==> client.Consistent()
    {
      var block := Request(peer, pieceIndex, blockOffset, blockLength);
      hide Good, Distinct, Without, Media.NumberOfPieces, Pending;
      GoodKeys(cfg, Abs());
      if peer !in requestedBlocks {
        return;
      }
      if block !in requestedBlocks[peer] {
        return;
      }
      DeliverGood(cfg, Abs(), block, intact);
      Receive(block, intact);
      Scheduler(peers, draws, choking);
    }

    /** The reaction to a requested block, up to the call of the scheduler. */
    method Receive(block: Request, intact: bool)
      requires Valid() && Listed(Idx(), block)
      modifies this, client
      ensures Linked() && KeysBelow(old(Idx()), cfg.media.NumberOfPieces())
      ensures Abs() == Deliver(cfg, old(Abs()), block, intact)
      ensures cfg.media.HasTrailingPiece() && old(client.Consistent()) ==> client.Consistent()
    {
      hide Good, Agrees, Distinct, Without, Media.NumberOfPieces, HasBit, Settle;
      RequestedPiece(cfg, Abs(), block);
      RemoveAllRequests(block);
      assert block.piece in neededPieces;
      SettleBlock(block, intact);
    }

    /** A HAVE for a piece still needed triggers the scheduler. */
    method ProcessPeerHaveEvent(pieceIndex: nat, peers: seq<nat>, draws: seq<nat>, choking: set<nat>)
      requires Valid() && |draws| == |peers| < Floyd.MAX_BOUND && Floyd.ValidDraws(0, draws)
      modifies this`neededPieces, this`requestedBlocks, this`timeouts
      ensures Valid()
      ensures Abs() == if pieceIndex in old(neededPieces)
                       then Scheduled(cfg, old(Abs()), peers, draws, choking) else old(Abs())
    {
      if pieceIndex in neededPieces {
        Scheduler(peers, draws, choking);
      }
    }

    /** The documented reaction to a closed connection: give up the peer's requests, then forget it. */
    method ProcessPeerConnectionCloseEvent(peer: nat)
      requires Valid()
      modifies this`neededPieces, this`requestedBlocks, this`timeouts
      ensures Valid() && Abs() == ClosePeer(old(Abs()), peer)
    {
      hide Good;
      ClosePeerGood(cfg, Abs(), peer);
      if peer in requestedBlocks {
        GoodIndex(cfg, Abs());
        hide Agrees, Distinct, Without;
        while requestedBlocks[peer] != []
          invariant peer in requestedBlocks && Agrees(Idx())
          invariant DropAll(Idx(), requestedBlocks[peer]) == DropAll(old(Idx()), old(requestedBlocks[peer]))
          decreases |requestedBlocks[peer]|
        {
          var block := requestedBlocks[peer][0];
          FirstOfPeer(Idx(), peer);
          DropFirstOfPeer(Idx(), peer);
          RemoveRequest(block);
          timeouts := timeouts - {block};
        }
        requestedBlocks := requestedBlocks - {peer};
      }
    }

    /** Cancel every request for a piece, one from the front at a time, and take the piece off the map. */
    method CancelPiece(p: nat)
      requires p in neededPieces
      modifies this`neededPieces, this`timeouts
      ensures neededPieces == old(neededPieces) - {p}
      ensures timeouts == old(timeouts) - Elements(old(neededPieces)[p].pending)
    {
      var piece := neededPieces[p];
      ghost var cancelled := {};
      while piece.pending != []
        invariant neededPieces == old(neededPieces)
        invariant timeouts == old(timeouts) - cancelled
        invariant cancelled + Elements(piece.pending) == Elements(old(neededPieces)[p].pending)
        decreases |piece.pending|
      {
        var block := piece.pending[0];
        timeouts := timeouts - {block};
        piece := piece.(requestedFrom := piece.requestedFrom - multiset{block.peer});
        assert Elements(piece.pending) == {block} + Elements(piece.pending[1..]);
        piece := piece.(pending := piece.pending[1..]);
        cancelled := cancelled + {block};
      }
      neededPieces := neededPieces - {p};
    }

    /** Cancel every request for every needed piece, in piece order. */
    method CancelAllPieces(n: nat)
      requires TimeoutsFrom(timeouts, neededPieces, 0, n)
      modifies this`neededPieces, this`timeouts
      ensures timeouts == {}
    {
      ghost var pieces := neededPieces;
      for p := 0 to n
        invariant forall q: nat :: q >= p ==> (q in pieces <==> q in neededPieces)
        invariant forall q: nat :: q >= p && q in pieces ==> neededPieces[q] == pieces[q]
        invariant TimeoutsFrom(timeouts, pieces, p, n)
      {
        if p in neededPieces {
          TimeoutsStep(timeouts, pieces, p, n);
          hide TimeoutsFrom, Elements;
          CancelPiece(p);
        }
      }
    }

    /** A changed block size cancels everything and cuts the missing pieces afresh. */
    method ProcessBlockSizeChange(blockSize: nat, peers: seq<nat>, draws: seq<nat>, choking: set<nat>)
      requires Valid() && ValidSettings(cfg, blockSize)
      requires |draws| == |peers| < Floyd.MAX_BOUND && Floyd.ValidDraws(0, draws)
      modifies this
      ensures Valid()
      ensures Abs() == Scheduled(cfg, ChangeBlockSize(cfg, old(Abs()), blockSize), peers, draws, choking)
    {
      hide Good, Media.NumberOfPieces;
      ChangeBlockSizeGood(cfg, Abs(), blockSize);
      GoodKeys(cfg, Abs());
      TimeoutsArePending(cfg, Abs());
      CancelAllPieces(cfg.media.NumberOfPieces());
      requestBlockSize := blockSize;
      requestedBlocks := map q | q in requestedBlocks :: [];
      InitializeNeededPiecesMap();
      assert Abs() == ChangeBlockSize(cfg, old(Abs()), blockSize);
      Scheduler(peers, draws, choking);
    }

    /** Mark the block as received and finish its piece if it was the last one. */
    method SettleBlock(block: Request, intact: bool)
      requires Linked() && ValidSettings(cfg, requestBlockSize)
      requires block.piece in neededPieces && block.piece < cfg.media.NumberOfPieces()
      requires !HasBit(client.bitfield, block.piece)
      modifies this`neededPieces, this`downloadCompleted, this`completions, client
      ensures Linked() && Abs() == Settle(cfg, old(Abs()), block, intact)
      ensures cfg.media.HasTrailingPiece() && old(client.Consistent()) ==> client.Consistent()
    {
      hide Without, Media.NumberOfPieces, HasBit, Block.Length, GeneratePieceNeeded;
      var piece := neededPieces[block.piece];
      var possible := Without(piece.possible, block.Entry());
      if possible != [] {
        neededPieces := neededPieces[block.piece := piece.(possible := possible)];
      } else if intact {
        neededPieces := neededPieces - {block.piece};
        ProcessCompletedPiece(block.piece);
      } else {
        neededPieces := neededPieces - {block.piece};
        var again := MakePiece(block.piece);
        neededPieces := neededPieces[block.piece := again];
      }
    }
  }

  lemma RequestedPiece(cfg: Settings, st: State, r: Request)
    requires Good(cfg, st) && Listed(st.index, r)
    ensures ValidSettings(cfg, st.blockSize) && KeysBelow(st.index, cfg.media.NumberOfPieces())
    ensures Agrees(st.index) && WithinCaps(cfg, st.index)
    ensures r.piece in st.index.needed && r in st.index.needed[r.piece].pending
    ensures r.piece < cfg.media.NumberOfPieces() && r.piece !in st.owned
  {
    GoodKeys(cfg, st);
    assert Pending(st.index, r);
    hide Media.NumberOfPieces;
  }

  lemma GoodIndex(cfg: Settings, st: State)
    requires Good(cfg, st)
    ensures ValidSettings(cfg, st.blockSize) && Agrees(st.index) && WithinCaps(cfg, st.index)
  {
  }

  lemma OwnedAfterSet(bf: Bitfield, p: nat, n: nat)
    requires p < n <= 8 * |bf|
    ensures Owned(SetBit(bf, p), n) == Owned(bf, n) + {p}
  {
    hide HasBit, SetBit;
    forall q: nat | q < n ensures HasBit(SetBit(bf, p), q) <==> q == p || HasBit(bf, q) {
      SetBitEffect(bf, p, q);
    }
  }

  lemma FirstOfPeer(s: Index, q: nat)
    requires Agrees(s) && q in s.byPeer && s.byPeer[q] != []
    ensures var r := s.byPeer[q][0];
            && r.peer == q && r.piece in s.needed
            && Distinct(s.needed[r.piece].pending) && Distinct(s.byPeer[q])
  {
    var r := s.byPeer[q][0];
    assert PeerOk(q, s.byPeer[q]) && Listed(s, r) && Pending(s, r) && PieceOk(r.piece, s.needed[r.piece]);
    hide Distinct;
  }

  /** Every scheduled timeout belongs to a pending request of a piece in [p, n). */
  ghost predicate TimeoutsFrom(timeouts: set<Request>, pieces: map<nat, PieceNeeded>, p: nat, n: nat) {
    forall r :: r in timeouts ==> p <= r.piece < n && r.piece in pieces && r in pieces[r.piece].pending
  }

  lemma TimeoutsStep(timeouts: set<Request>, pieces: map<nat, PieceNeeded>, p: nat, n: nat)
    requires TimeoutsFrom(timeouts, pieces, p, n) && p in pieces
    ensures TimeoutsFrom(timeouts - Elements(pieces[p].pending), pieces, p + 1, n)
  {
  }

  lemma TimeoutsArePending(cfg: Settings, st: State)
    requires Good(cfg, st)
    ensures cfg.media.Valid() && TimeoutsFrom(st.index.timeouts, st.index.needed, 0, cfg.media.NumberOfPieces())
  {
    GoodKeys(cfg, st);
    assert forall r :: r in st.index.timeouts ==> Pending(st.index, r);
    hide Media.NumberOfPieces;
  }

  lemma SameBlockSameEntry(a: Request, b: Request)
    requires a.SameBlock(b)
    ensures a.Entry() == b.Entry()
  {
  }

  lemma ListsDistinct(cfg: Settings, st: State, r: Request)
    requires Good(cfg, st) && r.piece in st.index.needed && r.peer in st.index.byPeer
    ensures Distinct(st.index.needed[r.piece].pending) && Distinct(st.index.byPeer[r.peer])
  {
    assert PieceOk(r.piece, st.index.needed[r.piece]) && PeerOk(r.peer, st.index.byPeer[r.peer]);
    hide Distinct;
  }

  /** Erase the first occurrence of x from a list. */
  method EraseFirst(list: seq<Request>, x: Request) returns (rest: seq<Request>)
    requires Distinct(list)
    ensures rest == Without(list, x)
  {
    var i := 0;
    while i < |list| && list[i] != x
      invariant 0 <= i <= |list|
      invariant x !in list[..i]
    {
      i := i + 1;
    }
    if i < |list| {
      EraseIsWithout(list, i);
      rest := list[..i] + list[i + 1..];
    } else {
      WithoutAbsent(list, x);
      rest := list;
    }
  }

  lemma {:induction false} CountAppend(a: seq<Request>, b: seq<Request>, r: Request)
    ensures SameBlockCount(a + b, r) == SameBlockCount(a, r) + SameBlockCount(b, r)
  {
    if a == [] {
      assert a + b == b;
    } else {
      CountAppend(a[1..], b, r);
      assert (a + b)[1..] == a[1..] + b;
    }
  }

  lemma CountPrefix(rs: seq<Request>, i: nat, r: Request)
    requires i < |rs|
    ensures SameBlockCount(rs[..i + 1], r) == SameBlockCount(rs[..i], r) + if r.SameBlock(rs[i]) then 1 else 0
  {
    CountAppend(rs[..i], [rs[i]], r);
    assert rs[..i + 1] == rs[..i] + [rs[i]];
    assert SameBlockCount([rs[i]], r) == (if r.SameBlock(rs[i]) then 1 else 0) + SameBlockCount([], r);
  }

  lemma CountRest(rs: seq<Request>, i: nat, r: Request)
    requires i <= |rs|
    ensures SameBlockCount(rs[..i], r) <= SameBlockCount(rs, r)
  {
    CountAppend(rs[..i], rs[i..], r);
    assert rs == rs[..i] + rs[i..];
  }
}
