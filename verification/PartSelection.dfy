/**
 The part selection strategy, as values: which block a peer may be asked for, the scheduler that
 hands out requests, and the reactions to delivered blocks, timeouts, closed connections and a
 changed block size. `PartSelectionStrategy.Strategy` in PartSelectionStrategy.dfy is the stateful form of this module.
 */
module PartSelection {
  import opened Words
  import opened Lists
  import opened Tiling
  import opened Bitfields
  import opened RequestIndex

  /** The client's settings that stay fixed; `perBlock` is left at its default of 1. */
  datatype Settings = Settings(media: Media, perPeer: nat, perPiece: nat, perPeerPerPiece: nat, perBlock: nat)

  /**
   The index together with the pieces owned, the pieces completed so far in order, whether the completion of
   the whole download was signalled, and the number of completed bytes as it is announced.
   */
  datatype State = State(
    index: Index, blockSize: nat, owned: set<nat>, completions: seq<nat>, signalled: bool, bytes: int)

  ghost predicate ValidSettings(cfg: Settings, blockSize: nat) {
    cfg.media.Valid() && 0 < blockSize && cfg.media.pieceLength + blockSize < U32 && cfg.perBlock == 1
  }

  function GeneratePieceNeeded(cfg: Settings, blockSize: nat, p: nat): PieceNeeded
    requires cfg.media.Valid() && p < cfg.media.NumberOfPieces() && blockSize > 0
  {
    PieceNeeded(BlocksFrom(0, cfg.media.LengthOf(p), blockSize), [], multiset{})
  }

  lemma GeneratedPieceOk(cfg: Settings, blockSize: nat, p: nat)
    requires ValidSettings(cfg, blockSize) && p < cfg.media.NumberOfPieces()
    ensures PieceOk(p, GeneratePieceNeeded(cfg, blockSize, p))
  {
    var n := cfg.media.LengthOf(p);
    assert 0 < n <= cfg.media.pieceLength;
    GeneratedRequestable(0, n, blockSize);
    GeneratedDistinct(0, n, blockSize);
    hide Requestable, Distinct, Media.NumberOfPieces, Media.LengthOf;
  }

  // ----- Which requests are allowed -----

  /** The pending requests of a piece for one block. */
  function SameBlockCount(rs: seq<Request>, r: Request): nat {
    if rs == [] then 0 else (if r.SameBlock(rs[0]) then 1 else 0) + SameBlockCount(rs[1..], r)
  }

  /** RequestAllowedForBlock: the five criteria. */
  ghost predicate Allowed(cfg: Settings, s: Index, r: Request) {
    && r.piece in s.needed
    && r.peer in s.byPeer
    && |s.needed[r.piece].pending| < cfg.perPiece
    && |s.byPeer[r.peer]| < cfg.perPeer
    && s.needed[r.piece].requestedFrom[r.peer] < cfg.perPeerPerPiece
    && SameBlockCount(s.needed[r.piece].pending, r) < cfg.perBlock
    && forall q :: q in s.needed[r.piece].pending && r.SameBlock(q) ==> q.peer != r.peer
  }

  /** The request for a listed block. */
  function RequestFor(q: nat, p: nat, b: Block): Request {
    Request(q, p, b.first, b.Length())
  }

  lemma {:induction false} NoneOfBlock(rs: seq<Request>, r: Request)
    ensures SameBlockCount(rs, r) == 0 <==> forall q :: q in rs ==> !r.SameBlock(q)
  {
    if rs != [] {
      NoneOfBlock(rs[1..], r);
      assert forall q :: q in rs <==> q == rs[0] || q in rs[1..];
    }
  }

  lemma {:induction false} SameBlockCountGrows(rs: seq<Request>, x: Request, r: Request)
    ensures SameBlockCount(rs, r) <= SameBlockCount(rs + [x], r)
  {
    if rs == [] {
      assert rs + [x] == [x];
    } else {
      SameBlockCountGrows(rs[1..], x, r);
      assert (rs + [x])[1..] == rs[1..] + [x];
    }
  }

  lemma EntryDeterminesLength(a: Request, b: Request)
    requires a.length < U32 && b.length < U32 && a.offset < U32 && a.Entry() == b.Entry()
    ensures a.length == b.length
  {
    EndOffsetInjective(a.offset, a.length, b.length);
  }

  lemma EndOffsetInjective(offset: nat, a: nat, b: nat)
    requires offset < U32 && a < U32 && b < U32 && EndOffset(offset, a) == EndOffset(offset, b)
    ensures a == b
  {
    assert EndOffset(offset, a) == if offset + a < U32 then offset + a else offset + a - U32;
    assert EndOffset(offset, b) == if offset + b < U32 then offset + b else offset + b - U32;
  }

  /** An allowed request for a possible block is a fresh one, as one request per block is the limit. */
  lemma AllowedIsFresh(cfg: Settings, s: Index, q: nat, p: nat, b: Block)
    requires cfg.perBlock == 1 && Agrees(s)
    requires p in s.needed && b in s.needed[p].possible && Allowed(cfg, s, RequestFor(q, p, b))
    ensures Fresh(s, RequestFor(q, p, b))
  {
    var r, pn := RequestFor(q, p, b), s.needed[p];
    assert PieceOk(p, pn) && b.first < U32 && b.second < U32;
    LengthInverse(b);
    NoneOfBlock(pn.pending, r);
    forall x | x in pn.pending ensures x.Entry() != r.Entry() {
      if x.Entry() == r.Entry() {
        EntryDeterminesLength(r, x);
        assert r.SameBlock(x);
      }
    }
  }

  /** Adding a request for any peer never turns a disallowed request into an allowed one. */
  lemma AddingNeverAllows(cfg: Settings, s: Index, x: Request, r: Request)
    requires x.piece in s.needed && x.peer in s.byPeer
    requires Allowed(cfg, Add(s, x), r)
    ensures Allowed(cfg, s, r)
  {
    if x.piece == r.piece {
      SameBlockCountGrows(s.needed[r.piece].pending, x, r);
      assert forall q :: q in s.needed[r.piece].pending ==> q in Add(s, x).needed[r.piece].pending;
    }
    hide SameBlockCount;
  }

  // ----- The choice of the base strategy: the first allowed block in piece order -----

  ghost function FirstAllowed(cfg: Settings, s: Index, q: nat, p: nat, blocks: seq<Block>): (r: Option<Block>)
    ensures r.Some? ==> r.value in blocks && Allowed(cfg, s, RequestFor(q, p, r.value))
    ensures r.None? ==> forall b :: b in blocks ==> !Allowed(cfg, s, RequestFor(q, p, b))
  {
    if blocks == [] then None
    else if Allowed(cfg, s, RequestFor(q, p, blocks[0])) then Some(blocks[0])
    else FirstAllowed(cfg, s, q, p, blocks[1..])
  }

  ghost function Choose(cfg: Settings, s: Index, q: nat, from: nat, n: nat): (r: Option<Request>)
    requires from <= n
    ensures r.Some? ==>
      && r.value.peer == q && from <= r.value.piece < n && r.value.piece in s.needed
      && Allowed(cfg, s, r.value)
      && exists b :: b in s.needed[r.value.piece].possible && r.value == RequestFor(q, r.value.piece, b)
    ensures r.None? ==> forall p, b ::
      from <= p < n && p in s.needed && b in s.needed[p].possible ==> !Allowed(cfg, s, RequestFor(q, p, b))
    decreases n - from
  {
    if from == n then None
    else if from in s.needed && FirstAllowed(cfg, s, q, from, s.needed[from].possible).Some? then
      Some(RequestFor(q, from, FirstAllowed(cfg, s, q, from, s.needed[from].possible).value))
    else Choose(cfg, s, q, from + 1, n)
  }

  // ----- The scheduler -----

  /** Requests for one peer until it is full, no block is left for it, or it turns out to choke us. */
  ghost function Fill(cfg: Settings, s: Index, q: nat, choking: bool, n: nat): Index
    requires q in s.byPeer
    decreases cfg.perPeer - |s.byPeer[q]|
  {
    if |s.byPeer[q]| >= cfg.perPeer then s
    else
      var r := Choose(cfg, s, q, 0, n);
      if r.None? || choking then s else Fill(cfg, Add(s, r.value), q, choking, n)
  }

  /** The first k peers of the visiting order have been served; unregistered peers are passed over. */
  ghost function Schedule(cfg: Settings, s: Index, order: seq<nat>, k: nat, choking: set<nat>, n: nat): Index
    requires k <= |order|
  {
    if k == 0 then s
    else
      var t := Schedule(cfg, s, order, k - 1, choking, n);
      var q := order[k - 1];
      if q in t.byPeer then Fill(cfg, t, q, q in choking, n) else t
  }

  ghost predicate WithinCaps(cfg: Settings, s: Index) {
    && (forall p :: p in s.needed ==> |s.needed[p].pending| <= cfg.perPiece)
    && (forall p, q :: p in s.needed ==> s.needed[p].requestedFrom[q] <= cfg.perPeerPerPiece)
    && (forall q :: q in s.byPeer ==> |s.byPeer[q]| <= cfg.perPeer)
  }

  lemma AddKeepsCaps(cfg: Settings, s: Index, r: Request)
    requires WithinCaps(cfg, s) && Allowed(cfg, s, r)
    ensures WithinCaps(cfg, Add(s, r))
  {
    hide SameBlockCount;
  }

  lemma DropKeepsCaps(cfg: Settings, s: Index, r: Request)
    requires WithinCaps(cfg, s) && r.piece in s.needed && r.peer in s.byPeer
    ensures WithinCaps(cfg, Drop(s, r))
  {
    WithoutMembers(s.needed[r.piece].pending, r);
    WithoutMembers(s.byPeer[r.peer], r);
    hide Without;
  }

  lemma {:induction false} DropAllKeepsCaps(cfg: Settings, s: Index, rs: seq<Request>)
    requires WithinCaps(cfg, s)
    ensures WithinCaps(cfg, DropAll(s, rs))
    decreases |rs|
  {
    hide WithinCaps;
    if rs != [] && rs[0].piece in s.needed && rs[0].peer in s.byPeer {
      DropKeepsCaps(cfg, s, rs[0]);
      DropAllKeepsCaps(cfg, Drop(s, rs[0]), rs[1..]);
    }
  }

  /** No block is left that could be requested from q. */
  ghost predicate Saturated(cfg: Settings, s: Index, q: nat) {
    forall p, b :: p in s.needed && b in s.needed[p].possible ==> !Allowed(cfg, s, RequestFor(q, p, b))
  }

  lemma AddKeepsSaturated(cfg: Settings, s: Index, x: Request, q: nat)
    requires x.piece in s.needed && x.peer in s.byPeer && Saturated(cfg, s, q)
    ensures Saturated(cfg, Add(s, x), q)
  {
    var t := Add(s, x);
    forall p, b | p in t.needed && b in t.needed[p].possible ensures !Allowed(cfg, t, RequestFor(q, p, b)) {
      assert p in s.needed && b in s.needed[p].possible;
      if Allowed(cfg, t, RequestFor(q, p, b)) {
        AddingNeverAllows(cfg, s, x, RequestFor(q, p, b));
      }
      hide Allowed;
    }
  }

  ghost predicate KeysBelow(s: Index, n: nat) {
    forall p :: p in s.needed ==> p < n
  }

  ghost predicate SameKeys(s: Index, t: Index) {
    s.needed.Keys == t.needed.Keys && s.byPeer.Keys == t.byPeer.Keys
  }

  lemma ChosenIsFresh(cfg: Settings, s: Index, q: nat, n: nat)
    requires cfg.perBlock == 1 && Agrees(s) && q in s.byPeer && Choose(cfg, s, q, 0, n).Some?
    ensures var r := Choose(cfg, s, q, 0, n).value; Allowed(cfg, s, r) && Fresh(s, r)
  {
    hide Agrees, Allowed, Fresh;
    var r := Choose(cfg, s, q, 0, n).value;
    var b :| b in s.needed[r.piece].possible && r == RequestFor(q, r.piece, b);
    AllowedIsFresh(cfg, s, q, r.piece, b);
  }

  lemma {:induction false} FillSafe(cfg: Settings, s: Index, q: nat, choking: bool, n: nat)
    requires cfg.perBlock == 1 && Agrees(s) && WithinCaps(cfg, s) && q in s.byPeer
    ensures var t := Fill(cfg, s, q, choking, n); Agrees(t) && WithinCaps(cfg, t) && SameKeys(s, t)
    decreases cfg.perPeer - |s.byPeer[q]|
  {
    hide Agrees, WithinCaps, Allowed, Choose;
    var r := Choose(cfg, s, q, 0, n);
    if |s.byPeer[q]| < cfg.perPeer && r.Some? && !choking {
      ChosenIsFresh(cfg, s, q, n);
      ChosenPeer(cfg, s, q, n);
      AddKeepsAgreement(s, r.value);
      AddKeepsCaps(cfg, s, r.value);
      FillSafe(cfg, Add(s, r.value), q, choking, n);
    }
  }

  lemma ChosenPeer(cfg: Settings, s: Index, q: nat, n: nat)
    requires Choose(cfg, s, q, 0, n).Some?
    ensures var r := Choose(cfg, s, q, 0, n).value; r.peer == q && r.piece in s.needed
  {
  }

  lemma {:induction false} FillSaturates(cfg: Settings, s: Index, q: nat, n: nat)
    requires KeysBelow(s, n) && q in s.byPeer
    ensures Saturated(cfg, Fill(cfg, s, q, false, n), q)
    decreases cfg.perPeer - |s.byPeer[q]|
  {
    if |s.byPeer[q]| < cfg.perPeer {
      var r := Choose(cfg, s, q, 0, n);
      if r.Some? {
        hide Allowed, Saturated;
        FillSaturates(cfg, Add(s, r.value), q, n);
      }
    }
  }

  lemma {:induction false} FillKeepsSaturated(cfg: Settings, s: Index, q: nat, choking: bool, n: nat, other: nat)
    requires q in s.byPeer && Saturated(cfg, s, other)
    ensures Saturated(cfg, Fill(cfg, s, q, choking, n), other)
    decreases cfg.perPeer - |s.byPeer[q]|
  {
    hide Saturated, Choose, Allowed;
    var r := Choose(cfg, s, q, 0, n);
    if |s.byPeer[q]| < cfg.perPeer && r.Some? && !choking {
      ChosenPeer(cfg, s, q, n);
      AddKeepsSaturated(cfg, s, r.value, other);
      FillKeepsSaturated(cfg, Add(s, r.value), q, choking, n, other);
    }
  }

  lemma {:induction false} ScheduleSafe(cfg: Settings, s: Index, order: seq<nat>, k: nat, choking: set<nat>, n: nat)
    requires cfg.perBlock == 1 && Agrees(s) && WithinCaps(cfg, s) && k <= |order|
    ensures var t := Schedule(cfg, s, order, k, choking, n); Agrees(t) && WithinCaps(cfg, t) && SameKeys(s, t)
  {
    hide Agrees, WithinCaps, Fill;
    if k > 0 {
      ScheduleSafe(cfg, s, order, k - 1, choking, n);
      var t := Schedule(cfg, s, order, k - 1, choking, n);
      if order[k - 1] in t.byPeer {
        FillSafe(cfg, t, order[k - 1], order[k - 1] in choking, n);
      }
    }
  }

  /**
   When the scheduler returns, every visited, registered, unchoked peer has its fill: no needed block
   is left that it may still be asked for, even though later peers were served after it.
   */
  lemma {:induction false} ScheduleSaturates(
      cfg: Settings, s: Index, order: seq<nat>, k: nat, choking: set<nat>, n: nat, i: nat)
    requires cfg.perBlock == 1 && Agrees(s) && WithinCaps(cfg, s) && KeysBelow(s, n)
    requires i < k <= |order| && order[i] in s.byPeer && order[i] !in choking
    ensures Saturated(cfg, Schedule(cfg, s, order, k, choking, n), order[i])
  {
    hide Agrees, WithinCaps, Fill, Saturated;
    var t := Schedule(cfg, s, order, k - 1, choking, n);
    var q := order[k - 1];
    ScheduleSafe(cfg, s, order, k - 1, choking, n);
    if i == k - 1 {
      FillSaturates(cfg, t, q, n);
    } else {
      ScheduleSaturates(cfg, s, order, k - 1, choking, n, i);
      if q in t.byPeer {
        FillKeepsSaturated(cfg, t, q, q in choking, n, order[i]);
      }
    }
  }

  /** A saturated peer has its maximum of requests, or no needed block passes the other criteria. */
  lemma SaturatedMeansFullOrExhausted(cfg: Settings, s: Index, q: nat)
    requires q in s.byPeer && Saturated(cfg, s, q)
    ensures |s.byPeer[q]| >= cfg.perPeer
      || forall p, b :: p in s.needed && b in s.needed[p].possible ==>
           var r, pn := RequestFor(q, p, b), s.needed[p];
           || |pn.pending| >= cfg.perPiece
           || pn.requestedFrom[q] >= cfg.perPeerPerPiece
           || SameBlockCount(pn.pending, r) >= cfg.perBlock
           || exists x :: x in pn.pending && r.SameBlock(x) && x.peer == q
  {
    hide SameBlockCount;
  }

  // ----- Which blocks are asked for -----

  /** The block at `k` may be asked for, and none before it. */
  ghost predicate FirstAt(cfg: Settings, s: Index, q: nat, p: nat, blocks: seq<Block>, k: nat) {
    && k < |blocks| && Allowed(cfg, s, RequestFor(q, p, blocks[k]))
    && forall j :: 0 <= j < k ==> !Allowed(cfg, s, RequestFor(q, p, blocks[j]))
  }

  /** The first allowed block of a list has no allowed block before it. */
  lemma {:induction false} FirstAllowedIsFirst(cfg: Settings, s: Index, q: nat, p: nat, blocks: seq<Block>)
    requires FirstAllowed(cfg, s, q, p, blocks).Some?
    ensures exists k: nat :: FirstAt(cfg, s, q, p, blocks, k) && blocks[k] == FirstAllowed(cfg, s, q, p, blocks).value
  {
    hide Allowed, RequestFor;
    if Allowed(cfg, s, RequestFor(q, p, blocks[0])) {
      assert FirstAt(cfg, s, q, p, blocks, 0);
    } else {
      var rest := blocks[1..];
      FirstAllowedIsFirst(cfg, s, q, p, rest);
      var k: nat :| FirstAt(cfg, s, q, p, rest, k) && rest[k] == FirstAllowed(cfg, s, q, p, rest).value;
      assert forall j :: 0 < j < |blocks| ==> blocks[j] == rest[j - 1];
      assert FirstAt(cfg, s, q, p, blocks, k + 1);
    }
  }

  /** The base strategy asks for the first allowed block of the first piece that has one. */
  lemma {:induction false} ChooseIsFirst(cfg: Settings, s: Index, q: nat, from: nat, n: nat)
    requires from <= n && Choose(cfg, s, q, from, n).Some?
    ensures var r := Choose(cfg, s, q, from, n).value;
      && r.piece in s.needed
      && (forall p, b :: from <= p < r.piece && p in s.needed && b in s.needed[p].possible ==>
            !Allowed(cfg, s, RequestFor(q, p, b)))
      && exists k: nat ::
           var blocks := s.needed[r.piece].possible;
           FirstAt(cfg, s, q, r.piece, blocks, k) && r == RequestFor(q, r.piece, blocks[k])
    decreases n - from
  {
    hide Allowed, FirstAllowed;
    if from in s.needed && FirstAllowed(cfg, s, q, from, s.needed[from].possible).Some? {
      FirstAllowedIsFirst(cfg, s, q, from, s.needed[from].possible);
    } else {
      if from in s.needed {
        NoneAllowed(cfg, s, q, from, s.needed[from].possible);
      }
      ChooseIsFirst(cfg, s, q, from + 1, n);
    }
  }

  lemma {:induction false} NoneAllowed(cfg: Settings, s: Index, q: nat, p: nat, blocks: seq<Block>)
    requires FirstAllowed(cfg, s, q, p, blocks).None?
    ensures forall b :: b in blocks ==> !Allowed(cfg, s, RequestFor(q, p, b))
  {
    hide Allowed, RequestFor;
    if blocks != [] {
      NoneAllowed(cfg, s, q, p, blocks[1..]);
    }
  }

  /** A peer that chokes us is not asked. */
  lemma ChokingNotAsked(cfg: Settings, s: Index, q: nat, n: nat)
    requires q in s.byPeer
    ensures Fill(cfg, s, q, true, n) == s
  {
    hide Choose;
  }

  /** Filling adds requests for this peer only, and drops none. */
  lemma {:induction false} FillAddsOwn(cfg: Settings, s: Index, q: nat, choking: bool, n: nat, r: Request)
    requires q in s.byPeer
    ensures Listed(s, r) ==> Listed(Fill(cfg, s, q, choking, n), r)
    ensures Listed(Fill(cfg, s, q, choking, n), r) && !Listed(s, r) ==> r.peer == q && !choking
    ensures forall other :: other in s.byPeer && other != q ==>
      other in Fill(cfg, s, q, choking, n).byPeer && Fill(cfg, s, q, choking, n).byPeer[other] == s.byPeer[other]
    ensures Fill(cfg, s, q, choking, n).byPeer.Keys == s.byPeer.Keys
    decreases cfg.perPeer - |s.byPeer[q]|
  {
    hide Choose, Allowed;
    var x := Choose(cfg, s, q, 0, n);
    if |s.byPeer[q]| < cfg.perPeer && x.Some? && !choking {
      ChosenPeer(cfg, s, q, n);
      AddMembers(s, x.value, r);
      FillAddsOwn(cfg, Add(s, x.value), q, choking, n, r);
      hide Listed;
    }
  }

  /** Only visited, registered peers that do not choke us are asked, and no request is dropped. */
  lemma {:induction false} ScheduleAsksUnchoked(
      cfg: Settings, s: Index, order: seq<nat>, k: nat, choking: set<nat>, n: nat, r: Request)
    requires k <= |order|
    ensures var t := Schedule(cfg, s, order, k, choking, n);
      && t.byPeer.Keys == s.byPeer.Keys
      && (Listed(s, r) ==> Listed(t, r))
      && (Listed(t, r) && !Listed(s, r) ==> r.peer in order[..k] && r.peer in s.byPeer && r.peer !in choking)
      && forall q :: q in s.byPeer && q in choking ==> t.byPeer[q] == s.byPeer[q]
  {
    hide Fill;
    if k > 0 {
      ScheduleAsksUnchoked(cfg, s, order, k - 1, choking, n, r);
      var t, q := Schedule(cfg, s, order, k - 1, choking, n), order[k - 1];
      if q in t.byPeer {
        FillAddsOwn(cfg, t, q, q in choking, n, r);
        if q in choking {
          ChokingNotAsked(cfg, t, q, n);
        }
      }
      assert order[..k] == order[..k - 1] + [q];
      hide Listed;
    }
  }
}
