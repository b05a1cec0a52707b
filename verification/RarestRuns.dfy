/**
 Runs of a download with the rarest-first strategy: the request bookkeeping and the rarity index side by
 side, moved by the same events, and the choice of a block in every state they reach.
 */
module RarestRuns {
  import opened Lists
  import opened Bitfields
  import opened RequestIndex
  import opened PartSelection
  import opened DownloadRuns
  import opened RarestFirst
  import opened PartSelectionStrategy

  datatype Joint = Joint(download: State, rating: Rating)

  datatype JointEvent =
    | BitfieldArrived(peer: nat, has: set<nat>)
    | HaveArrived(peer: nat, piece: nat)
    | BlockAsked(r: Request)
    | BlockDelivered(r: Request, intact: bool)
    | RequestTimedOut(r: Request)
    | ConnectionClosed(peer: nat)
    | SizeChanged(blockSize: nat)
    | LimitShrunk(maxPeers: nat)

  /** The event of the bookkeeping, if it has a part in it. */
  function DownloadPart(e: JointEvent): seq<Event> {
    match e
    case BitfieldArrived(q, _) => [Registered(q)]
    case HaveArrived(_, _) => []
    case BlockAsked(r) => [Asked(r)]
    case BlockDelivered(r, intact) => [Delivered(r, intact)]
    case RequestTimedOut(r) => [TimedOut(r)]
    case ConnectionClosed(q) => [Closed(q)]
    case SizeChanged(blockSize) => [BlockSizeChanged(blockSize)]
    case LimitShrunk(_) => []
  }

  ghost predicate DownloadEnabled(cfg: Settings, st: State, e: JointEvent) {
    DownloadPart(e) != [] ==> Enabled(cfg, st, DownloadPart(e)[0])
  }

  ghost function DownloadAfter(cfg: Settings, st: State, e: JointEvent): State
    requires Good(cfg, st) && DownloadEnabled(cfg, st, e)
  {
    if DownloadPart(e) == [] then st else Apply(cfg, st, DownloadPart(e)[0])
  }

  /** The event of the index; a delivery concerns it if it completes a piece. */
  ghost function RatingPart(before: State, after: State, e: JointEvent): seq<RatingEvent> {
    match e
    case BitfieldArrived(q, has) => [BitfieldFrom(q, has)]
    case HaveArrived(q, piece) => [HaveFrom(q, piece)]
    case BlockDelivered(r, _) => if after.owned == before.owned then [] else [PieceCompleted(r.piece)]
    case ConnectionClosed(q) => [PeerClosed(q)]
    case LimitShrunk(maxPeers) => [MaxPeersShrunk(maxPeers)]
    case _ => []
  }

  /** The bookkeeping and the index agree on the pieces still needed, and on who is connected. */
  ghost predicate JointOk(cfg: Settings, s: Joint) {
    && Good(cfg, s.download) && RatingOk(s.rating)
    && s.rating.needed == s.download.index.needed.Keys
    && |s.rating.rarities| == cfg.media.NumberOfPieces()
    && s.download.index.byPeer.Keys <= s.rating.swarm.Keys
  }

  /** One step of both; the index is not touched by an event it has no part in. */
  ghost predicate Steps(cfg: Settings, s: Joint, e: JointEvent, t: Joint) {
    JointOk(cfg, s) ==>
      && DownloadEnabled(cfg, s.download, e) && t.download == DownloadAfter(cfg, s.download, e)
      && RatingSteps(s.rating, RatingPart(s.download, t.download, e), t.rating)
  }

  ghost predicate RatingSteps(s: Rating, parts: seq<RatingEvent>, t: Rating) {
    if parts == [] then t == s else CanHappen(s, parts[0]) && t == AfterEvent(s, parts[0])
  }

  lemma SettleKeys(cfg: Settings, st: State, r: Request, intact: bool)
    requires ValidSettings(cfg, st.blockSize) && r.piece in st.index.needed && r.piece < cfg.media.NumberOfPieces()
    requires r.piece !in st.owned
    ensures var t := Settle(cfg, st, r, intact);
      && t.index.byPeer.Keys == st.index.byPeer.Keys
      && t.index.needed.Keys == if t.owned == st.owned then st.index.needed.Keys else st.index.needed.Keys - {r.piece}
  {
    hide Media.NumberOfPieces, Without, GeneratePieceNeeded, Request.Entry;
  }

  lemma DeliveryCompletes(cfg: Settings, st: State, r: Request, intact: bool)
    requires Good(cfg, st)
    ensures ValidSettings(cfg, st.blockSize) && KeysBelow(st.index, cfg.media.NumberOfPieces())
    ensures var t := Deliver(cfg, st, r, intact);
      && t.index.byPeer.Keys == st.index.byPeer.Keys
      && if t.owned == st.owned then t.index.needed.Keys == st.index.needed.Keys
         else r.piece < cfg.media.NumberOfPieces() && t.index.needed.Keys == st.index.needed.Keys - {r.piece}
  {
    GoodKeys(cfg, st);
    assert Conserved(cfg, st);
    hide Good, Settle, Drop, Media.NumberOfPieces;
    if Listed(st.index, r) && r.piece in st.index.needed {
      SettleKeys(cfg, st.(index := Drop(st.index, r)), r, intact);
      DropKeys(st.index, r);
    }
    hide Conserved;
  }

  lemma DropKeys(s: Index, r: Request)
    requires r.piece in s.needed && r.peer in s.byPeer
    ensures Drop(s, r).needed.Keys == s.needed.Keys && Drop(s, r).byPeer.Keys == s.byPeer.Keys
  {
    hide Without;
  }

  lemma RatingKept(s: Rating, parts: seq<RatingEvent>, t: Rating)
    requires RatingOk(s) && RatingSteps(s, parts, t)
    ensures RatingOk(t) && |t.rarities| == |s.rarities|
    ensures t.needed == if parts != [] && parts[0].PieceCompleted? then s.needed - {parts[0].piece} else s.needed
    ensures t.swarm.Keys == if parts == [] then s.swarm.Keys
                            else match parts[0]
                                 case BitfieldFrom(q, _) => s.swarm.Keys + {q}
                                 case PeerClosed(q) => s.swarm.Keys - {q}
                                 case _ => s.swarm.Keys
  {
    if parts != [] {
      EventKeepsRating(s, parts[0]);
    }
    hide RatingOk;
  }

  /** What the events do to the pieces needed and to the registered peers. */
  lemma DownloadKeys(cfg: Settings, st: State, e: JointEvent)
    requires Good(cfg, st) && DownloadEnabled(cfg, st, e)
    ensures var t := DownloadAfter(cfg, st, e);
      && Good(cfg, t)
      && (!e.BlockDelivered? ==> t.index.needed.Keys == st.index.needed.Keys)
      && t.index.byPeer.Keys <= match e
                                case BitfieldArrived(q, _) => st.index.byPeer.Keys + {q}
                                case ConnectionClosed(q) => st.index.byPeer.Keys - {q}
                                case _ => st.index.byPeer.Keys
  {
    hide Good, Deliver, Enabled, Agrees, DropAll, ChangeBlockSize, Media.NumberOfPieces;
    if DownloadPart(e) != [] {
      ApplyGood(cfg, st, DownloadPart(e)[0]);
    }
    match e {
      case BitfieldArrived(q, _) => {}
      case BlockAsked(r) => AskedKeys(cfg, st, r);
      case RequestTimedOut(r) => TimedOutKeys(cfg, st, r);
      case BlockDelivered(r, intact) => DeliveryCompletes(cfg, st, r, intact);
      case ConnectionClosed(q) => ClosedKeys(cfg, st, q);
      case SizeChanged(blockSize) => SizeChangedKeys(cfg, st, blockSize);
      case _ => {}
    }
    hide Ask, TimeOut, ClosePeer;
  }

  lemma AskedKeys(cfg: Settings, st: State, r: Request)
    requires Good(cfg, st) && Enabled(cfg, st, Asked(r))
    ensures Apply(cfg, st, Asked(r)).index.needed.Keys == st.index.needed.Keys
    ensures Apply(cfg, st, Asked(r)).index.byPeer.Keys == st.index.byPeer.Keys
  {
    hide Good;
  }

  lemma TimedOutKeys(cfg: Settings, st: State, r: Request)
    requires Good(cfg, st) && Enabled(cfg, st, TimedOut(r))
    ensures Apply(cfg, st, TimedOut(r)).index.needed.Keys == st.index.needed.Keys
    ensures Apply(cfg, st, TimedOut(r)).index.byPeer.Keys == st.index.byPeer.Keys
  {
    TimeOutGood(cfg, st, r);
    DropKeys(st.index, r);
    hide Good, Drop;
  }

  lemma ClosedKeys(cfg: Settings, st: State, q: nat)
    requires Good(cfg, st)
    ensures ClosePeer(st, q).index.needed.Keys == st.index.needed.Keys
    ensures ClosePeer(st, q).index.byPeer.Keys == st.index.byPeer.Keys - {q}
  {
    if q in st.index.byPeer {
      DropAllOfPeer(st.index, q);
    }
    hide Good, DropAll;
  }

  lemma SizeChangedKeys(cfg: Settings, st: State, blockSize: nat)
    requires Good(cfg, st) && Enabled(cfg, st, BlockSizeChanged(blockSize))
    ensures ValidSettings(cfg, blockSize)
    ensures ChangeBlockSize(cfg, st, blockSize).index.needed.Keys == st.index.needed.Keys
    ensures ChangeBlockSize(cfg, st, blockSize).index.byPeer.Keys == st.index.byPeer.Keys
  {
    ChangeBlockSizeGood(cfg, st, blockSize);
    hide Good, AllNeeded;
  }

  lemma StepKeepsJoint(cfg: Settings, s: Joint, e: JointEvent, t: Joint)
    requires JointOk(cfg, s) && Steps(cfg, s, e, t)
    ensures JointOk(cfg, t)
  {
    DownloadKeys(cfg, s.download, e);
    RatingKept(s.rating, RatingPart(s.download, t.download, e), t.rating);
    if e.BlockDelivered? {
      DeliveryCompletes(cfg, s.download, e.r, e.intact);
    }
    hide Good, RatingOk, Deliver, RatingSteps, DownloadEnabled, Media.NumberOfPieces;
  }

  ghost predicate IsJointRun(cfg: Settings, states: seq<Joint>, events: seq<JointEvent>) {
    && |states| == |events| + 1 && JointOk(cfg, states[0])
    && forall i :: 0 <= i < |events| ==> Steps(cfg, states[i], events[i], states[i + 1])
  }

  /** In every reachable state the bookkeeping is good, the index exact, and both are about the same pieces. */
  lemma {:induction false} EveryReachableStateOk(cfg: Settings, states: seq<Joint>, events: seq<JointEvent>, i: nat)
    requires IsJointRun(cfg, states, events) && i < |states|
    ensures JointOk(cfg, states[i])
  {
    hide JointOk, Steps;
    if i > 0 {
      EveryReachableStateOk(cfg, states, events, i - 1);
      assert Steps(cfg, states[i - 1], events[i - 1], states[i - 1 + 1]);
      StepKeepsJoint(cfg, states[i - 1], events[i - 1], states[i]);
    }
  }

  /** A run can begin with any set of pieces owned, and no peers. */
  lemma StartIsJoint(cfg: Settings, blockSize: nat, owned: set<nat>, bytes: int, maxPeers: nat)
    requires ValidSettings(cfg, blockSize) && forall p :: p in owned ==> p < cfg.media.NumberOfPieces()
    ensures var st := Start(cfg, blockSize, owned, bytes);
      JointOk(cfg, Joint(st, Rating(Recounted(cfg.media.NumberOfPieces(), maxPeers, st.index.needed.Keys, map[]),
                                    maxPeers, st.index.needed.Keys, map[])))
  {
    StartIsGood(cfg, blockSize, owned, bytes);
    hide Good, PeerCount, Media.NumberOfPieces;
  }

  /** The objects stand for a state. */
  ghost predicate Represents(strategy: Strategy, index: RarityIndex, s: Joint)
    reads strategy, strategy.client, index, index.piecesByRarity, index.raritiesByPiece
  {
    && strategy.Linked() && strategy.Abs() == s.download
    && index.Valid() && index.maxPeers == s.rating.maxPeers && index.raritiesByPiece[..] == s.rating.rarities
  }

  /** In every reachable state the choice for a registered peer is a rarest-first choice. */
  method ChooseInRun(
      strategy: Strategy, index: RarityIndex, peer: nat, draw: nat,
      ghost states: seq<Joint>, ghost events: seq<JointEvent>, ghost i: nat, swarm: Swarm) returns (block: Request)
    requires IsJointRun(strategy.cfg, states, events) && i < |states| && Represents(strategy, index, states[i])
    requires swarm == states[i].rating.swarm && peer in strategy.requestedBlocks
    ensures block.peer == peer
    ensures RarestChoice(strategy.cfg, states[i].download.index, states[i].rating.swarm, peer, block)
    ensures block.length > 0 ==> DownloadEnabled(strategy.cfg, states[i].download, BlockAsked(block))
  {
    EveryReachableStateOk(strategy.cfg, states, events, i);
    ReadyToChoose(strategy.cfg, states[i], peer);
    hide JointOk, IsJointRun, Inverse, RarestChoice, Agrees, Exact, KeysBelow, DownloadEnabled, Media.NumberOfPieces;
    block := index.GetHighestPriorityBlockForPeer(strategy, peer, swarm, draw);
    ChoiceIsEnabled(strategy.cfg, states[i].download, swarm, peer, block);
  }

  /** All that the choice takes for granted holds. */
  lemma ReadyToChoose(cfg: Settings, s: Joint, peer: nat)
    requires JointOk(cfg, s) && peer in s.download.index.byPeer
    ensures cfg.media.Valid() && |s.rating.rarities| == cfg.media.NumberOfPieces() && Good(cfg, s.download)
    ensures Agrees(s.download.index) && KeysBelow(s.download.index, |s.rating.rarities|)
    ensures peer in s.rating.swarm && |s.rating.swarm| <= s.rating.maxPeers
    ensures Exact(s.rating.rarities, s.rating.maxPeers, s.download.index.needed.Keys, s.rating.swarm)
  {
    GoodKeys(cfg, s.download);
    hide Exact, WithinCaps, Media.NumberOfPieces;
  }

  /** What is chosen may be asked for. */
  lemma ChoiceIsEnabled(cfg: Settings, st: State, swarm: Swarm, q: nat, r: Request)
    requires Good(cfg, st) && RarestChoice(cfg, st.index, swarm, q, r)
    ensures r.length > 0 ==> DownloadEnabled(cfg, st, BlockAsked(r))
  {
    hide FirstAllowed, Allowed, Candidate, InFlight;
    if r.length > 0 {
      ChosenIsAllowed(cfg, st.index, q, r);
    }
  }
}
