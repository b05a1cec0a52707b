# A verified model of a BitTorrent-derived video swarm

This project models, in Dafny, a swarm client that downloads a file in pieces from its peers and plays it
meanwhile, and the tracker that introduces the peers to each other. It proves what the parts promise, over
every input, every cutting of a byte stream and every run of events.

`dafny verify dfyconfig.toml` checks everything.

## How it is built

Most parts come twice: once as functions on values, about which the properties are proved, and once as a
class whose methods change fields, loop and search as the program does, and are proved to compute those
functions.

What such a function means is said beside it, by lemmas that do not refer to its definition: what an event
changes and what it leaves, when exactly it does so, and what holds over whole runs.

| file | contents |
|---|---|
| Floyd.dfy | Floyd's algorithms for random permutations (P) and samples (F2), on explicit draws |
| Tiling.dfy | the list of blocks of a piece, in 32-bit arithmetic |
| Bitfields.dfy, ClientProgress.dfy | bitfields, the layout of a file, and a client's counters |
| RequestIndex.dfy, PartSelection.dfy, DownloadRuns.dfy, PartSelectionStrategy.dfy | outstanding requests in four places, the scheduler under four caps, the event handlers, whole runs, and the stateful form of it all |
| BlockAnswers.dfy | requests and the blocks sent in answer: which pieces can be completed |
| RarestFirst.dfy, RarestRuns.dfy | the rarity buckets and the rarest-first choice, and their runs together with the bookkeeping |
| WireFormat.dfy, PacketHeaders.dfy, Framing.dfy, PeerReceive.dfy, PeerSend.dfy | messages, byte streams, the receiving and the sending half of a connection, and both together |
| RollingRate.dfy | the ring buffers of transfer rates |
| HexCoding.dfy, TrackerQuery.dfy, Tracker.dfy | percent-encoding, info hashes, requests to the tracker, its swarms and its answers |
| PeerConnector.dfy | which connections are made and accepted |
| Playback.dfy | pseudo-playback with buffering and skipping |
| Lists.dfy, Words.dfy | lists without repetition, and the width of integers |

Peers are numbers, as are addresses; strings are sequences of character codes. A random draw is a parameter.
A scheduled event is a value in the state that may come about once its time has come. Callbacks are a log,
and do not call back. What a socket takes or hands out is a parameter.

## What turned out

The code keeps less than it promises in these places; each has an exact condition, and mostly an example.

- The last block of a piece is listed as (offset, length), where all others are (offset, end). The list tiles
  the piece exactly if the block size divides the piece length or exceeds it (`Tiling.TilesIffDivides`).
- Such a last entry is asked for with a length that no block has. A peer running the same program answers it with
  the rest of a whole piece, and that block is dropped as one that was not asked for. A missing piece can be
  completed by answers of this kind if and only if it is cut evenly (`BlockAnswers.CompletableIff`).
- A block is read from the wrong place of the file exactly if its piece begins behind the first 4 gigabytes
  (`PeerSend.StartIsRightIff`).
- The byte total of a client leaves out the last piece exactly if the file has no trailing piece and that piece was
  downloaded (`ClientProgress.Client.SetPieceComplete`, `DownloadRuns.EveryReachableTotalRightIff`).
- Without a trailing piece, padding bits that are set at the start are counted as pieces: the number of pieces is too
  high by exactly these, and stays so (`ClientProgress.Client.constructor`, `ClientProgress.Client.SetPieceComplete`).
  Completion, which is recognised by that number, then comes too early or never. The strategy is modelled for a right
  number of pieces.
- A repeated HAVE for a needed piece makes its rarity one too high, unless all max_peers peers have it
  (`RarestFirst.HaveKeepsExactIff`).
- A second bitfield of a peer loses its outstanding requests from its list (`RequestIndex.RegisterKeepsAgreementIff`).
- Callers that are accepted are not counted before they are connected. So the connections pass max_peers exactly
  when such a caller is connected, or an address is dialled explicitly, at a full count
  (`PeerConnector.CountKeptIff`), and that can come about exactly from the states in which more addresses than
  max_peers are connected, pending or undecided (`PeerConnector.OverflowIff`).
- The rate can include a 21st second, exactly if the present slot was last used 20 seconds ago
  (`RollingRate.SweptTotal`).
- A request to the tracker with one parameter only is taken for one with none (`TrackerQuery.RequestParsed`).
- Playback can come to a standstill with no timer left, exactly as `Playback.Stalls` says, and buffering can be
  stranded by a seek (`Playback.TimerRemainsIff`).
- A missing piece in which playback stands is left out without being counted, so more than the tolerance is left out
  exactly if the tolerance has no room for it (`Playback.WithinToleranceIff`). Likewise playback crosses it, when it
  is due behind it, as if it were there (`Playback.CrossesPresentIff`).
- Buffering never ends, whatever pieces arrive, exactly if it waits for pieces behind the end of the video: for
  the end itself, or for a range that reaches beyond it (`Playback.UntilWaitsIff`, `Playback.RangeWaitsIff`).
  Playback begins such a wait by itself if a gap near the end may be left out but too little follows it, or
  if it stands at the end already
  (`Playback.HeldForEverIff`).
- A cancel for the block in flight also spares a second queued request for the same block
  (`PeerSend.CancelSparesFront`).
- `Stop` sets the position to 0 only after playback is off, when that has no effect; `Play` does it instead.

The documentation calls the position after a seek the beginning of a piece; `SetPlaybackPosition` takes it as
given (model/client/PushPullVideoClient.cc:415-434), and so does the model. The run counts are documented as
counting the pieces to the right, starting with the given one; their word-wise scans name a type that is
not valid C++, and the model follows the documentation there. The close of a connection calls a handler that is
not in the files; the model follows its documentation.

## Model

| member | source | states |
|---|---|---|
| `Floyd.GetPermutationP` | model/common/BitTorrentUtilities.cc:44-73 | the list built by searching and inserting is the permutation that the draws stand for |
| `Floyd.PermutationShape` | model/common/BitTorrentUtilities.cc:44-73 | for every valid draw sequence: m distinct values of 1..n |
| `Floyd.DrawsRecovered` | model/common/BitTorrentUtilities.cc:44-73 | the draws can be read off the arrangement: different draws give different arrangements |
| `Floyd.ArrangementReached` | model/common/BitTorrentUtilities.cc:44-73 | every arrangement of m distinct values of 1..n is produced by some draws; with `DrawsRecovered` a bijection |
| `Floyd.PermutationInRange` | model/client/PartSelectionStrategyBase.cc:654-657 | with m = n the scheduler's indices into the list of active peers are in bounds |
| `Floyd.FullPermutationVisitsAll` | model/client/PartSelectionStrategyBase.cc:711-714 | with m = n every number of 1..n occurs, so every active peer has its turn |
| `Floyd.GetRandomSampleF2` | model/common/BitTorrentUtilities.cc:75-96 | the set built by the loop is the sample the draws stand for, of min(m, n) draws |
| `Floyd.SampleIsUnorderedPermutation` | model/common/BitTorrentUtilities.cc:44-96 | both algorithms select the same values from the same draws; P only orders them |
| `Floyd.SampleShape` | model/common/BitTorrentUtilities.cc:75-96 | for every valid draw sequence exactly min(m, n) values, all in 1..n |
| `Floyd.EachSubsetEquallyOften` | model/common/BitTorrentUtilities.cc:75-96 | every subset of 1..n of the right size is produced by exactly k! draw sequences: all are reached, and uniformly |
| `Tiling.GenerateBlocks` | model/client/PartSelectionStrategyBase.cc:170-197 | the loop ends and yields the recursively defined list of entries, including the last one as it is written |
| `Tiling.TilesIffDivides` | model/client/PartSelectionStrategyBase.cc:170-197 | the entries are consecutive, of positive length and cover [0, pieceLength) if and only if the block size divides the piece length or exceeds it |
| `Tiling.TailEntryExample` | model/client/PartSelectionStrategyBase.cc:170-197 | a piece and a block size for which the last entry is (offset, length) instead of (offset, end) |
| `Tiling.CorrectedTiles` | model/client/PartSelectionStrategyBase.h:260-262 | with the last entry read as it is written, the blocks tile every piece for every block size, as documented |
| `Tiling.GeneratedRequestable` | model/client/PartSelectionStrategyBase.cc:170-197 | no entry has length 0 in 32-bit arithmetic, so length 0 can mean that there is no block |
| `Tiling.GeneratedDistinct` | model/client/PartSelectionStrategyBase.cc:170-197 | no entry occurs twice |
| `Tiling.LengthInverse` | model/client/PartSelectionStrategyBase.cc:438-444 | an entry is found again from the offset and the wrapped length with which it was requested |
| `Bitfields.CountBits` | model/client/PushPullClient.cc:224-246 | Kernighan's count with its shortcut for full bytes counts exactly the set bits, most significant first |
| `Bitfields.MissingPieces` | model/client/PartSelectionStrategyBase.cc:199-221 | the shifting scan lists exactly the pieces below N whose bit is clear, in ascending order |
| `Bitfields.CountIsOwned` | model/client/PushPullClient.cc:224-249 | the count of set bits is the number of pieces owned |
| `Bitfields.AllBytes` | model/common/MediaData.cc:168-176 | the pieces of a complete bitfield add up to the file length, with and without a trailing piece |
| `Bitfields.SetBitEffect` | model/client/PushPullClient.cc:517-519 | setting a piece's bit changes that bit and no other |
| `ClientProgress.Client.constructor` | model/client/PushPullClient.cc:212-258 | steps 3d and 3e: piece and byte counters agree with the bitfield exactly if there is a trailing piece or no padding bit was set before, and otherwise the number of pieces is too high by the padding bits; no piece's bit changes |
| `ClientProgress.Client.SetPieceComplete` | model/client/PushPullClient.cc:517-531 | sets one bit and counts one piece, so an error of the count stays; the byte total stays right exactly if there is a trailing piece or the piece is not the last |
| `ClientProgress.FillPadding` | model/client/PushPullClient.cc:212-222 | sets exactly the bits behind the last piece |
| `ClientProgress.LastPieceTest` | model/client/PushPullClient.cc:252-258 | shifting the last byte by the padding and testing its parity tests the last piece's bit |
| `ClientProgress.StartBytes` | model/client/PushPullClient.cc:249-258 | counting all pieces at full length and correcting for an owned trailing piece gives the sum of the owned pieces' lengths |
| `RequestIndex.AddKeepsAgreement` | model/client/PartSelectionStrategyBase.cc:223-265 | a fresh request put in every place keeps the agreement of per-piece list, per-peer list, multiset of peers and timeouts |
| `RequestIndex.DropKeepsAgreement` | model/client/PartSelectionStrategyBase.cc:267-391 | taking a pending request out of every place keeps the agreement |
| `RequestIndex.RemoveBlockKeepsAgreement` | model/client/PartSelectionStrategyBase.cc:435-444 | marking a block received keeps the agreement if no request for it is pending |
| `RequestIndex.RegisterKeepsAgreementIff` | model/client/PartSelectionStrategyBase.cc:393-401 | a bitfield, which empties the peer's list, keeps the agreement if and only if nothing was outstanding with the peer |
| `RequestIndex.DropAllKeepsOthers` | model/client/PartSelectionStrategyBase.h:367-368 | giving up a peer's requests removes exactly those pending with it |
| `RequestIndex.ListingsAreEqualMultisets` | model/client/PartSelectionStrategyBase.cc:88-391 | in agreeing states the requests listed by piece equal those listed by peer as multisets, each once, each with one timeout, and `m_requestedFrom` is the multiset of their peers |
| `PartSelection.AllowedIsFresh` | model/client/PartSelectionStrategyBase.cc:548-603 | an allowed request is for a block that nobody is asked for, at one request per block |
| `PartSelection.AddingNeverAllows` | model/client/PartSelectionStrategyBase.cc:548-603 | adding a request for any peer never turns a disallowed request into an allowed one |
| `PartSelection.ScheduleSafe` | model/client/PartSelectionStrategyBase.cc:642-709 | serving the peers in any order keeps the agreement and all four caps |
| `PartSelection.ScheduleSaturates` | model/client/PartSelectionStrategyBase.cc:642-709 | after serving, every visited, registered, unchoked peer is saturated, whoever was served after it |
| `PartSelection.SaturatedMeansFullOrExhausted` | model/client/PartSelectionStrategyBase.cc:548-709 | a saturated peer has its maximum of requests, or no needed block passes the other criteria |
| `PartSelection.FirstAllowedIsFirst` | model/client/PartSelectionStrategyBase.cc:617-639 | the block found in a list may be asked for, and none in front of it |
| `PartSelection.ChooseIsFirst` | model/client/PartSelectionStrategyBase.cc:605-640 | the base strategy chooses the first block that may be asked for: no block of an earlier needed piece may, and none in front of it in its own |
| `PartSelection.ChokingNotAsked` | model/client/PartSelectionStrategyBase.cc:674-686 | filling the list of a peer that chokes us leaves everything as it is |
| `PartSelection.ScheduleAsksUnchoked` | model/client/PartSelectionStrategyBase.cc:654-707 | a run of the scheduler drops no request, adds requests only to registered peers of the order that do not choke us, and leaves the lists of choking peers as they are |
| `DownloadRuns.PiecesConserved` | model/client/PartSelectionStrategyBase.cc:199-221 | needed plus owned pieces make up the file; completion is signalled exactly if none is needed |
| `DownloadRuns.StartIsGood` | model/client/PartSelectionStrategyBase.cc:199-221 | the first state agrees, is within the caps and conserves the pieces |
| `DownloadRuns.AskGood` | model/client/PartSelectionStrategyBase.cc:223-265 | asking a peer for a fresh, allowed block keeps the invariant |
| `DownloadRuns.TimeOutGood` | model/client/PartSelectionStrategyBase.cc:501-515 | a timeout whose event is live finds its request, removes exactly it and keeps the invariant |
| `DownloadRuns.ClosePeerGood` | model/client/PartSelectionStrategyBase.cc:485-499 | after a close exactly the peer's requests are gone, and the invariant is kept |
| `DownloadRuns.DeliverGood` | model/client/PartSelectionStrategyBase.cc:412-483 | a delivery, intact or not, removes exactly its request and keeps the invariant; what it makes of the piece is in the next five |
| `DownloadRuns.DeliveryOwnsIff` | model/client/PartSelectionStrategyBase.cc:412-479 | a piece is owned after a delivery if and only if it was before, or the block was asked for, was the only possible one left of its piece, and the piece passed the check of its data |
| `DownloadRuns.DeliveryRemovesBlock` | model/client/PartSelectionStrategyBase.cc:438-447 | a block asked for that is not the last one disappears from the possible blocks of its piece, no other does, and nothing is owned or signalled |
| `DownloadRuns.CorruptPieceStartsAgain` | model/client/PartSelectionStrategyBase.cc:446-479 | a last block whose piece fails the check leaves owned pieces, completions, signal and byte total alone; the piece has all its blocks possible again and nothing pending, and no other piece changes |
| `DownloadRuns.SoundPieceCompletes` | model/client/PartSelectionStrategyBase.cc:446-471 | a last block whose piece passes the check records the piece as owned and completed, and no other needed piece changes |
| `DownloadRuns.UnaskedIgnored` | model/client/PartSelectionStrategyBase.cc:416-433 | a block without a timeout of its own, so not asked for, changes nothing |
| `DownloadRuns.OwnedOnlyByDelivery` | model/client/PartSelectionStrategyBase.cc:412-483 | no event but the intact delivery of the last possible block makes a piece owned |
| `DownloadRuns.OwnedWasDelivered` | model/client/PartSelectionStrategyBase.cc:412-483 | over whole runs: a piece owned now and not at first had, at an earlier step, its last possible block delivered and its data found intact |
| `DownloadRuns.RegisterEffect` | model/client/PartSelectionStrategyBase.cc:393-401 | a registered peer has an empty list, and no other request, piece or timeout changes; after completion nobody is registered |
| `DownloadRuns.AskEffect` | model/client/PartSelectionStrategyBase.cc:223-265 | exactly one request is added, in all four places, and no block changes |
| `DownloadRuns.ChangeBlockSizeEffect` | model/client/PartSelectionStrategyBase.cc:88-155 | nothing is outstanding and the same pieces are needed, each cut into blocks of the new size |
| `DownloadRuns.LastBlockLeavesNoRequest` | model/client/PartSelectionStrategyBase.cc:438-479 | a piece whose last possible block has arrived has no request left |
| `DownloadRuns.ChangeBlockSizeGood` | model/client/PartSelectionStrategyBase.cc:88-155 | a changed block size cancels every request, needs the same pieces and keeps the invariant |
| `DownloadRuns.EveryReachableTotalRightIff` | model/client/PushPullClient.cc:517-531 | in every state of every run that began with the right number of bytes, it is right if and only if the file has a trailing piece, or the last piece is missing, or was owned from the start |
| `DownloadRuns.EveryReachableStateGood` | model/client/PartSelectionStrategyBase.cc:88-546 | in every state of every run: agreement, caps, no block asked for twice, conservation of pieces, each piece completed at most once, completion signalled exactly at the end; owned pieces stay owned |
| `PartSelectionStrategy.SchedulerIsMaximal` | model/client/PartSelectionStrategyBase.cc:642-714 | for every draw sequence the scheduler leaves every registered unchoked peer saturated |
| `PartSelectionStrategy.SchedulerSparesChoking` | model/client/PartSelectionStrategyBase.cc:674-686 | a registered peer that chokes us has exactly the same requests after the scheduler as before, for all draws |
| `PartSelectionStrategy.SchedulerAsksUnchoked` | model/client/PartSelectionStrategyBase.cc:642-709 | every request pending after the scheduler and not before is with an active, registered peer that does not choke us, and before completion; none is dropped |
| `PartSelectionStrategy.Strategy.constructor` | model/client/PartSelectionStrategyBase.cc:199-221 | starts with all missing pieces needed, cut into blocks, and nothing requested |
| `PartSelectionStrategy.Strategy.InitializeNeededPiecesMap` | model/client/PartSelectionStrategyBase.cc:199-221 | the map holds exactly the missing pieces, each with its generated blocks |
| `PartSelectionStrategy.Strategy.RequestAllowedForBlock` | model/client/PartSelectionStrategyBase.cc:548-603 | the early-exit checks decide exactly the conjunction of the caps |
| `PartSelectionStrategy.Strategy.GetHighestPriorityBlockForPeer` | model/client/PartSelectionStrategyBase.cc:605-640 | finds the first allowed block in piece and list order, length 0 exactly if there is none |
| `PartSelectionStrategy.Strategy.RequestBlock` | model/client/PartSelectionStrategyBase.cc:223-265 | puts the request in all four places and nothing else |
| `PartSelectionStrategy.Strategy.FillPeer` | model/client/PartSelectionStrategyBase.cc:666-707 | the loop for one peer asks greedily, not at all if the peer chokes us (`PartSelection.ChokingNotAsked`), and ends |
| `PartSelectionStrategy.Strategy.Scheduler` | model/client/PartSelectionStrategyBase.cc:642-709 | the loops over the peers in drawn order give the schedule of the draws, of which `SchedulerIsMaximal`, `SchedulerSparesChoking` and `SchedulerAsksUnchoked` say what it holds, and a valid state |
| `PartSelectionStrategy.Strategy.ProcessBitfieldReceivedEvent` | model/client/PartSelectionStrategyBase.cc:393-401 | registers the peer with no requests and schedules; for a peer with requests outstanding see `RegisterKeepsAgreementIff` |
| `PartSelectionStrategy.Strategy.RemoveRequest` | model/client/PartSelectionStrategyBase.cc:267-325 | the searches through both lists remove exactly the request from them and from the multiset |
| `PartSelectionStrategy.Strategy.RemoveAllRequests` | model/client/PartSelectionStrategyBase.cc:327-391 | removes the delivered block's request everywhere and cancels its timeout |
| `PartSelectionStrategy.Strategy.ProcessRequestTimeout` | model/client/PartSelectionStrategyBase.cc:501-515 | the handler finds its request and removes exactly it |
| `PartSelectionStrategy.Strategy.ProcessCompletedPiece` | model/client/PartSelectionStrategyBase.cc:517-546 | owns the piece, counts its bytes, and signals completion exactly if no piece is needed any more; with a trailing piece the byte total stays right |
| `PartSelectionStrategy.Strategy.ProcessPeerBlockCompleteEvent` | model/client/PartSelectionStrategyBase.cc:412-483 | a delivery is settled (`DownloadRuns.DeliveryOwnsIff` and the lemmas behind it say how, whether the data is intact or not), then requests are scheduled; with a trailing piece the byte total stays right |
| `PartSelectionStrategy.Strategy.SettleBlock` | model/client/PartSelectionStrategyBase.cc:438-479 | marks the block received; with the last block completes an intact piece and enters a corrupt one again; with a trailing piece the byte total stays right |
| `PartSelectionStrategy.Strategy.ProcessPeerHaveEvent` | model/client/PartSelectionStrategyBase.cc:403-410 | schedules exactly if the announced piece is needed |
| `PartSelectionStrategy.Strategy.ProcessPeerConnectionCloseEvent` | model/client/PartSelectionStrategyBase.h:367-368 | drops the peer's requests and their timeouts, and nothing else |
| `PartSelectionStrategy.Strategy.ProcessBlockSizeChange` | model/client/PartSelectionStrategyBase.cc:88-155 | cancels all requests and timeouts, cuts the needed pieces afresh and schedules |
| `BlockAnswers.AnsweredInFullIff` | model/client/PushPullPeer.cc:378-393 | a listed block is answered in the length asked for if and only if its entry was written as a block |
| `BlockAnswers.AllAnsweredIff` | model/client/PushPullPeer.cc:378-393 | every request for a piece is answered by the block asked for if and only if the block size divides the piece length or exceeds it |
| `BlockAnswers.TailAnswerExample` | model/client/PushPullPeer.cc:378-393 | a request of the strategy for one byte that is answered by four |
| `BlockAnswers.EveryReachableStateCut` | model/client/PartSelectionStrategyBase.cc:170-197 | in every run the blocks still possible are among those the piece was cut into |
| `BlockAnswers.PendingIsAnswered` | model/client/PartSelectionStrategyBase.cc:412-436 | every pending request of an evenly cut piece is answered by exactly the block it waits for |
| `BlockAnswers.UnevenPieceNeverCompletes` | model/client/PartSelectionStrategyBase.cc:412-483 | in no run in which all blocks come from `SendBlock` is a piece completed that is never cut evenly, nor the download |
| `BlockAnswers.CompletionRun` | model/client/PartSelectionStrategyBase.cc:412-483 | a run that completes an evenly cut piece, asking for one block after the other |
| `BlockAnswers.CompletableIff` | model/client/PartSelectionStrategyBase.cc:412-483 | a missing piece can be completed in such runs if and only if it is cut evenly |
| `RarestFirst.BitfieldKeepsExact` | model/client/strategies/RarestFirstPartSelectionStrategy.cc:87-120 | moving up the pieces of a new peer keeps every rarity equal to the number of holders |
| `RarestFirst.CloseKeepsExact` | model/client/strategies/RarestFirstPartSelectionStrategy.cc:148-181 | moving down the pieces of a closed peer does |
| `RarestFirst.CompletionKeepsExact` | model/client/strategies/RarestFirstPartSelectionStrategy.cc:255-278 | moving a completed piece to the last bucket does |
| `RarestFirst.HaveKeepsExactIff` | model/client/strategies/RarestFirstPartSelectionStrategy.cc:122-146 | a HAVE does if and only if the piece is not needed, or the peer did not have it before, or all max_peers peers have it |
| `RarestFirst.RepeatedHaveExample` | model/client/strategies/RarestFirstPartSelectionStrategy.cc:122-146 | a repeated HAVE after which a piece with one holder is rated 2 |
| `RarestFirst.EveryReachableRatingExact` | model/client/strategies/RarestFirstPartSelectionStrategy.cc:40-278 | in every run without repeated HAVEs and with at most max_peers peers, each needed piece is rated by its holders, all others by max_peers + 1 |
| `RarestFirst.BucketsPartition` | model/client/strategies/RarestFirstPartSelectionStrategy.cc:40-62 | every piece is in exactly one bucket |
| `RarestFirst.RarityIndex.constructor` | model/client/strategies/RarestFirstPartSelectionStrategy.cc:40-62 | needed pieces start in bucket 0, the others in the last one |
| `RarestFirst.RarityIndex.ProcessPeerBitfieldReceivedEvent` | model/client/strategies/RarestFirstPartSelectionStrategy.cc:87-120 | the two-phase loop moves every piece of the peer up by one, once |
| `RarestFirst.RarityIndex.ProcessPeerConnectionCloseEvent` | model/client/strategies/RarestFirstPartSelectionStrategy.cc:148-181 | the two-phase loop moves every needed piece of the peer down by one, once |
| `RarestFirst.RarityIndex.ProcessPeerHaveEvent` | model/client/strategies/RarestFirstPartSelectionStrategy.cc:122-146 | moves one piece one bucket up, unless the download is complete or the piece is not needed |
| `RarestFirst.RarityIndex.ProcessCompletedPiece` | model/client/strategies/RarestFirstPartSelectionStrategy.cc:255-278 | moves the piece to the last bucket; buckets stay the inverse of the rarities |
| `RarestFirst.RarityIndex.ShrinkMaxPeers` | model/client/strategies/RarestFirstPartSelectionStrategy.cc:213-248 | fewer peers: the buckets are rebuilt by counting and are exact again |
| `RarestFirst.RarityIndex.ContinuePiece` | model/client/strategies/RarestFirstPartSelectionStrategy.cc:294-323 | finds an allowed block of a piece in flight from the peer, that of the latest request whose piece has one; none only if no piece in flight has one |
| `RarestFirst.RarityIndex.RarestCandidate` | model/client/strategies/RarestFirstPartSelectionStrategy.cc:325-375 | the first bucket with a candidate decides, and one of its candidates is returned |
| `RarestFirst.RarityIndex.RarestIsMinimal` | model/client/strategies/RarestFirstPartSelectionStrategy.cc:325-375 | the chosen piece has the fewest holders of all needed pieces the peer has with an allowed block |
| `RarestFirst.RarityIndex.BucketsNeeded` | model/client/strategies/RarestFirstPartSelectionStrategy.cc:325-375 | buckets 1..max_peers hold needed pieces only, so the unchecked look-ups find their piece |
| `RarestFirst.RarityIndex.GetHighestPriorityBlockForPeer` | model/client/strategies/RarestFirstPartSelectionStrategy.cc:280-378 | the choice is a piece in flight or a rarest candidate, as specified by a direct argmin, and length 0 exactly if there is none |
| `RarestFirst.LatestGoesOn` | model/client/strategies/RarestFirstPartSelectionStrategy.cc:294-323 | while the piece of the last request can be asked for again it is continued; what to continue with is unique |
| `RarestFirst.RarestWins` | model/client/strategies/RarestFirstPartSelectionStrategy.cc:325-378 | with nothing to continue, no needed piece that the peer has and may be asked for has fewer holders than the chosen one |
| `RarestRuns.EveryReachableStateOk` | model/client/strategies/RarestFirstPartSelectionStrategy.cc:40-378 | in every run of the strategy with its index the bookkeeping is good, the index exact, and both are about the same needed pieces |
| `RarestRuns.StartIsJoint` | model/client/strategies/RarestFirstPartSelectionStrategy.cc:40-62 | such a run can begin with any set of pieces |
| `RarestRuns.ChooseInRun` | model/client/strategies/RarestFirstPartSelectionStrategy.cc:280-378 | in every state of every such run the choice for a registered peer meets the direct definition and may be asked for |
| `RarestFirst.ChosenIsAllowed` | model/client/strategies/RarestFirstPartSelectionStrategy.cc:280-378 | whatever is chosen is an allowed request for a possible block, never of length 0 |
| `WireFormat.ParseSerialized` | model/client/PushPullPacket.cc:110-507 | decoding undoes encoding for every well-formed message |
| `WireFormat.SerializeParsed` | model/client/PushPullPacket.cc:110-507 | encoding undoes decoding: a body stands for one message only |
| `WireFormat.DeclaredLengthIsBody` | model/client/PushPullPeer.cc:216-416 | the length each sender declares is the number of bytes that follow it |
| `WireFormat.BytesOfStates` | model/client/PushPullPacket.cc:95-165 | keep-alive, choke, unchoke, interested and not interested, byte by byte |
| `WireFormat.BytesOfNumbers` | model/client/PushPullPacket.cc:95-355 | have, request and cancel, byte by byte: length 5 or 13, type 4, 6 or 8, and the numbers in their order |
| `WireFormat.BytesOfData` | model/client/PushPullPacket.cc:95-527 | bitfield, piece and extension message, byte by byte: length, type 5, 7 or 20, fields and data |
| `WireFormat.ReadAfterWrite` | model/client/PushPullPacket.cc:110-120 | 32-bit numbers in network byte order are read back as written |
| `WireFormat.NetworkOrder` | model/client/PushPullPacket.cc:110-120 | four bytes are the ones written for a number if and only if they are its base-256 digits, the highest first |
| `WireFormat.WriteAfterRead` | model/client/PushPullPacket.cc:110-120 | and written back as read |
| `PacketHeaders.NumberHeader.Serialize` | model/client/PushPullPacket.cc:191-194 | a length or have header is written as its number |
| `PacketHeaders.NumberHeader.Deserialize` | model/client/PushPullPacket.cc:196-200 | and read as its number, 4 bytes in all |
| `PacketHeaders.BlockHeader.Serialize` | model/client/PushPullPacket.cc:302-307 | a request or cancel is written as its three numbers |
| `PacketHeaders.BlockHeader.Deserialize` | model/client/PushPullPacket.cc:309-316 | its fields are read in the same order, 12 bytes in all |
| `PacketHeaders.BitfieldHeader.CopyBitFieldFrom` | model/client/PushPullPacket.cc:242-248 | copies the whole bitfield, up to 255 bytes |
| `PacketHeaders.BitfieldHeader.CopyBitFieldTo` | model/client/PushPullPacket.cc:250-256 | copies it back and leaves the rest of the target alone |
| `PacketHeaders.ReadBack` | model/client/PushPullPacket.cc:302-316 | what is written is read back, and the reader stands behind it |
| `PacketHeaders.RequestPacket` | model/client/PushPullPeer.cc:216-251 | the three headers together are the serialised request |
| `PacketHeaders.CancelPacket` | model/client/PushPullPeer.cc:253-267 | the three headers together are the serialised cancel |
| `PacketHeaders.HavePacket` | model/client/PushPullPeer.cc:323-337 | the three headers together are the serialised have |
| `PacketHeaders.BitfieldPacket` | model/client/PushPullPeer.cc:299-316 | the three headers together are the serialised bitfield |
| `PacketHeaders.ExtensionPacket` | model/client/PushPullPeer.cc:395-411 | the headers and the content together are the serialised extension message |
| `Framing.DecodeSerialized` | model/client/PushPullPeer.cc:682-857 | a stream of well-formed messages and an incomplete one decodes to exactly these, and the incomplete one is left |
| `Framing.DecodeContinues` | model/client/PushPullPeer.cc:682-857 | decoding goes on where it stopped, whatever arrives next |
| `Framing.StreamConserved` | model/client/PushPullPeer.cc:682-857 | a decodable stream is its messages serialised again and its remainder: no byte is lost or added |
| `Framing.PrefixDecodable` | model/client/PushPullPeer.cc:682-857 | every prefix of such a stream decodes to a prefix of its messages |
| `PeerReceive.ReadTwice` | model/client/PushPullPeer.cc:658-861 | reading two chunks one after the other is reading them at once |
| `PeerReceive.CuttingDoesNotMatter` | model/client/PushPullPeer.cc:658-861 | however the bytes are cut into chunks, the result is that of one read |
| `PeerReceive.MessagesDispatchedInOrder` | model/client/PushPullPeer.cc:658-861 | for every sequence of messages and every cutting, exactly these are handled in order and exactly the undecoded bytes are kept |
| `PeerReceive.ChokingIsLastChoke` | model/client/PushPullPeer.cc:740-766 | after any messages the peer chokes us if and only if the last choke or unchoke among them is a choke, or there is none and it did before |
| `PeerReceive.InterestIsLastInterest` | model/client/PushPullPeer.cc:767-784 | likewise the peer is interested if and only if the last message about it said so, or there is none and it was |
| `PeerReceive.PiecesAreTheLastSaid` | model/client/PushPullPeer.cc:785-814 | the peer has a piece if and only if a have, or a bitfield with it, came behind which there is no bitfield without it, or none came and it had it before |
| `PeerReceive.MessagesAreReported` | model/client/PushPullPeer.cc:785-848 | the events for haves, requests, cancels, blocks and extension messages are exactly the messages of these kinds, in order, with their fields |
| `PeerReceive.ChangesAreNoticed` | model/client/PushPullPeer.cc:740-784 | a change of choking or interest is told exactly where the value changes, and to what |
| `PeerReceive.BlocksAreCounted` | model/client/PushPullPeer.cc:603-656 | the bytes of all blocks are counted, and the buffer holds the last block |
| `PeerReceive.PeerReceiver.HandlePiece` | model/client/PushPullPeer.cc:608-656 | reports missing data exactly if the payload is incomplete; otherwise takes exactly the payload and raises one event |
| `PeerReceive.PeerReceiver.Dispatch` | model/client/PushPullPeer.cc:726-857 | reads one message off the buffer and reacts to it by the function that `ChokingIsLastChoke` and the five lemmas behind it describe; a piece is always complete there |
| `PeerReceive.PeerReceiver.HandleRead` | model/client/PushPullPeer.cc:658-861 | takes in all chunks and handles all complete messages, in their order, by the same function; ends, as every iteration takes bytes off the buffer |
| `PeerSend.IndicatorsMatchRequests` | model/client/PushPullPeer.cc:863-988 | the k-th true indicator stands at the place of the k-th request |
| `PeerSend.IndicatorsCountRequests` | model/client/PushPullPeer.cc:863-988 | there are as many requests as true indicators |
| `PeerSend.PartAll` | model/client/PushPullPeer.cc:936-952 | the headers and the whole block are the serialised piece message |
| `PeerSend.PartIsNoFrame` | model/client/PushPullPeer.cc:863-988 | an unfinished block is no complete message for the receiver |
| `PeerSend.CancelSparesFront` | model/client/PushPullPeer.cc:551-606 | the block in flight stays; a cancel is without effect exactly if its block is not queued or is in flight |
| `PeerSend.UrgentIsNext` | model/client/PushPullPeer.cc:253-297 | an urgent message stands right behind the block in flight, or else in front, and everything else keeps its order |
| `PeerSend.CutOffReachesTheEnd` | model/client/PushPullPeer.cc:378-393 | a block inside its piece has the length asked for, any other reaches exactly to the end of the piece |
| `PeerSend.BlockIsFromFile` | model/client/PushPullPeer.cc:863-988 | the message of a block carries its piece, its offset and, byte by byte, the file from there on, below 4 gigabytes |
| `PeerSend.WithoutFirstRemovesOne` | model/client/PushPullPeer.cc:573-597 | exactly the first match is removed and the order of all others stays |
| `PeerSend.SentIsReceived` | model/client/PushPullPeer.cc:658-988 | whatever was sent and however it is cut, the other peer handles exactly the messages sent completely, in order, and waits with the rest of one block |
| `PeerSend.EnoughSpaceSendsAll` | model/client/PushPullPeer.cc:863-988 | with more space than bytes remain, nothing is left in the queue |
| `PeerSend.StuckMeansFull` | model/client/PushPullPeer.cc:863-988 | sending stops with items left only if the space does not cover what remains |
| `PeerSend.StartIsRightIff` | model/client/PushPullPeer.cc:929-934 | the block is read from its place in the file if and only if its piece begins within the first 4 gigabytes |
| `PeerSend.PeerSender.HandleSend` | model/client/PushPullPeer.cc:863-988 | ends; moves a prefix of the queue out, sends whole messages and only at the end a part of one block, accounts for every byte of space, and stops only if stuck |
| `PeerSend.PeerSender.SendPart` | model/client/PushPullPeer.cc:886-920 | sends the next part of the active block, and retires it from all three queues when it is done |
| `PeerSend.PeerSender.StartBlock` | model/client/PushPullPeer.cc:927-958 | sends the headers of the front block and makes it active |
| `PeerSend.PeerSender.SendPacket` | model/client/PushPullPeer.cc:966-980 | sends the front message and retires it |
| `PeerSend.PeerSender.RequestPiece` | model/client/PushPullPeer.cc:216-251 | the request goes to the back of the queue |
| `PeerSend.PeerSender.CancelRequest` | model/client/PushPullPeer.cc:253-297 | the cancel goes in front of all that has not been begun |
| `PeerSend.PeerSender.SendHaveMessage` | model/client/PushPullPeer.cc:323-367 | so does the have |
| `PeerSend.PeerSender.SendBlock` | model/client/PushPullPeer.cc:378-393 | the block goes to the back of all three queues, cut off at the end of its piece |
| `PeerSend.PeerSender.HandleCancel` | model/client/PushPullPeer.cc:551-606 | removes exactly the first queued match from all three lists and reports it, or changes nothing |
| `PeerSend.PeerSender.SpaceFreed` | model/client/PushPullPeer.cc:863-988 | freed space is used at once |
| `RollingRate.RecordKeepsTrack` | model/client/PushPullPeer.cc:668-676 | bytes of a second overwrite or join the slot so that every slot still accounts for its last second |
| `RollingRate.SweepKeepsTrack` | model/client/PushPullPeer.cc:463-480 | emptying slots that are too old keeps that |
| `RollingRate.SweptTotal` | model/client/PushPullPeer.cc:463-480 | the slots add up to the last 20 seconds, or to the last 21 exactly if the present slot was last used 20 seconds ago |
| `RollingRate.RateBracketed` | model/client/PushPullPeer.cc:463-499 | after every run of reads, chokes and queries, rate * 20 / 8 lies between the bytes of the seconds now-19..now and those of now-20..now |
| `RollingRate.OneSecondTooMany` | model/client/PushPullPeer.cc:463-480 | a run in which bytes from outside the 20 seconds are counted |
| `RollingRate.RateHistory.Record` | model/client/PushPullPeer.cc:990-1002 | the array update of reads and of sent data |
| `RollingRate.RateHistory.Choke` | model/client/PushPullPeer.cc:746-752 | a choke empties the present slot if it is from another second |
| `RollingRate.RateHistory.GetBps` | model/client/PushPullPeer.cc:463-499 | the rate is within the bracket, and the slots too old are emptied |
| `HexCoding.EscapeHex` | model/common/BitTorrentUtilities.cc:116-136 | the signed comparisons escape exactly the reserved characters |
| `HexCoding.EncodeInfoHash` | model/common/MediaData.cc:111-133 | the unsigned loop gives the same text as `EscapeHex`, for every byte string |
| `HexCoding.UnescapeHex` | model/common/BitTorrentUtilities.cc:146-178 | the loop decodes pairs, and gives nothing for a text that ends within an escape |
| `HexCoding.UnescapeEscape` | model/common/BitTorrentUtilities.cc:116-178 | unescaping gives back every string that was escaped |
| `HexCoding.EscapeAvoids` | model/common/BitTorrentUtilities.cc:116-136 | an escaped string holds no reserved character other than the percent sign |
| `HexCoding.ReservedIff` | model/common/BitTorrentUtilities.cc:116-136 | letters, digits, hyphen, full stop and tilde are transported as they are, and no other character |
| `HexCoding.EscapedAs` | model/common/BitTorrentUtilities.cc:116-136 | every other byte becomes a percent sign and two upper-case digits, byte by byte |
| `HexCoding.DecodeInfoHash` | model/common/BitTorrentUtilities.cc:180-205 | the loop takes escapes over in upper case and prints other characters in hexadecimal |
| `HexCoding.DecodedAs` | model/common/BitTorrentUtilities.cc:180-206 | an escape gives its two digits in upper case whatever case they were in, any other visible character its value in lower case |
| `HexCoding.UpperOf` | model/tracker/PushPullTracker.cc:278-280 | raising the case turns small letters into capitals and leaves all else |
| `HexCoding.DecodeEncodedHash` | model/common/BitTorrentUtilities.cc:180-205 | decoding an encoded hash and turning it to upper case gives its upper-case digits, two for each byte |
| `HexCoding.BinaryOfUpperHex` | model/tracker/PushPullTracker.cc:472-480 | the digits give the hash back |
| `HexCoding.BinaryInfoHash` | model/tracker/PushPullTracker.cc:472-480 | the loop that reads digits two by two |
| `HexCoding.HexCharValue` | model/common/BitTorrentUtilities.cc:98-114 | a digit's value, in either case, and no other character's |
| `TrackerQuery.ExtractInfoFromClientMessage` | model/tracker/PushPullTracker.cc:510-598 | parses as specified, scrape requests included, with the wrap-around of positions that were not found |
| `TrackerQuery.ExtractPairs` | model/tracker/PushPullTracker.cc:532-580 | the loop ends, since every iteration comes closer to the end of the path |
| `TrackerQuery.RequestParsed` | model/tracker/PushPullTracker.cc:510-598 | two or more parameters are all found, a single one is dropped |
| `TrackerQuery.ScrapeParsed` | model/tracker/PushPullTracker.cc:516-597 | a request with the word scrape in it is that event; of its parameters only the first key counts, with all that follows as its value |
| `TrackerQuery.NothingParsed` | model/tracker/PushPullTracker.cc:514-532 | without a question mark or without an equals sign nothing but a scrape is understood |
| `TrackerQuery.ContainsIff` | model/tracker/PushPullTracker.cc:520-527 | the word is found if and only if it occurs somewhere |
| `TrackerQuery.FirstCounts` | model/tracker/PushPullTracker.cc:534-597 | of several parameters with one key the first counts |
| `TrackerQuery.RequestRecovered` | model/tracker/PushPullTracker.cc:510-598 | every distinct key of an escaped request is recovered with its value, the info hash as its digits, and no other key appears |
| `TrackerQuery.InsertAllDistinct` | model/tracker/PushPullTracker.cc:510-598 | with distinct keys every parameter keeps its own value |
| `Tracker.RequestFindsItsSwarm` | model/tracker/PushPullTracker.cc:600-607 | a request finds a swarm exactly if the torrent was accepted, whatever the case of its digits |
| `Tracker.Swarms.AddInfoHash` | model/tracker/PushPullTracker.cc:600-607 | adds the upper-case key and keeps the clients of a torrent already known |
| `Tracker.Swarms.RemoveInfoHash` | model/tracker/PushPullTracker.cc:609-615 | removes exactly that key |
| `Tracker.SelectPeers` | model/tracker/PushPullTracker.cc:400-428 | the forward-only walk stays within the clients and selects those with the sampled numbers, but not the asker |
| `Tracker.SelectedOnce` | model/tracker/PushPullTracker.cc:400-428 | no client is selected twice, and at most the asking one is missing |
| `Tracker.SampleAnswered` | model/tracker/PushPullTracker.cc:400-428 | for every draw sequence the answer names each sampled client once: as many as wanted or all there are, less the asker |
| `PeerConnector.EveryReachableStateSound` | model/client/PeerConnectorStrategyBase.cc:55-810 | in every run the own address stays counted, pending and connected addresses are disjoint, and the client never dials itself |
| `PeerConnector.ApplySound` | model/client/PeerConnectorStrategyBase.cc:196-389 | every single step keeps that |
| `PeerConnector.AttemptEnds` | model/client/PeerConnectorStrategyBase.cc:636-652 | a failed or rejected attempt is not pending any more, no other address and no connection changes, and unless connected the address can be dialled again at once |
| `PeerConnector.AttemptSucceeds` | model/client/PeerConnectorStrategyBase.cc:791-796 | an established address is connected and not pending, and no other address changes |
| `PeerConnector.ConnectionEnds` | model/client/PeerConnectorStrategyBase.cc:807-810 | a closed address is not connected any more, no other address changes, and unless pending it can be dialled again at once |
| `PeerConnector.DialEffect` | model/client/PeerConnectorStrategyBase.cc:196-218 | an explicit connection is begun if and only if the address is neither connected nor pending; it is then pending, waits to be decided about, and has the given or the default port |
| `PeerConnector.AskedEffect` | model/client/PeerConnectorStrategyBase.cc:601-634 | an accepted caller waits to be decided about and is neither connected nor pending by that; any other changes nothing |
| `PeerConnector.DialManyEffect` | model/client/PeerConnectorStrategyBase.cc:220-296 | exactly the chosen addresses become pending and wait to be decided about; no connection changes |
| `PeerConnector.NewsEffect` | model/client/PeerConnectorStrategyBase.cc:812-863 | tracker answers, seeders, completion and cloud membership change no connection, pending attempt or decision |
| `PeerConnector.EverythingPendingWaits` | model/client/PeerConnectorStrategyBase.cc:196-296 | over whole runs: whatever is pending waits to be decided about, so nothing is pending once nothing waits |
| `PeerConnector.AcceptedIff` | model/client/PeerConnectorStrategyBase.cc:326-375 | a caller is accepted if and only if there is room, not both are known seeders, it is not connected, and no own attempt to a higher address is under way; and which code says what |
| `PeerConnector.OthersAreCounted` | model/client/PeerConnectorStrategyBase.cc:137-140 | the count is that of the addresses connected or pending without the own one, in 16 bits |
| `PeerConnector.RoomIff` | model/client/PeerConnectorStrategyBase.cc:220-252 | that many connections may be begun if and only if the download is not complete and neither the number asked for nor a bound is passed |
| `PeerConnector.FreshIsFirst` | model/client/PeerConnectorStrategyBase.cc:246-296 | every candidate chosen stands where all addresses in front of it are known or chosen before: the first ones are taken |
| `PeerConnector.DialSomeBounded` | model/client/PeerConnectorStrategyBase.cc:220-300 | the call returns the growth of the pending connections and leaves the count where it was or at most at the smaller bound |
| `PeerConnector.DialSomeExhausts` | model/client/PeerConnectorStrategyBase.cc:262-297 | it stops short of its bounds only if every candidate from the drawn one on is known |
| `PeerConnector.DialSomeOnlyNew` | model/client/PeerConnectorStrategyBase.cc:262-297 | it dials no known address, not its own, and none twice |
| `PeerConnector.CountKeptIff` | model/client/PeerConnectorStrategyBase.cc:196-389 | at most max_peers connections stay so in every step, unless at exactly max_peers an unknown address is dialled explicitly or an accepted caller that is not counted is connected; then they do not |
| `PeerConnector.OverflowIff` | model/client/PeerConnectorStrategyBase.cc:326-375 | the number of connections can pass max_peers without another one being begun if and only if more addresses than that are connected, pending or undecided |
| `PeerConnector.OverflowRun` | model/client/PeerConnectorStrategyBase.cc:636-652 | from such a state connecting those undecided passes the bound |
| `PeerConnector.StepKeepsBoundIff` | model/client/PeerConnectorStrategyBase.cc:196-375 | how a step moves that number of addresses |
| `PeerConnector.QuietStepKeepsBound` | model/client/PeerConnectorStrategyBase.cc:220-375 | while no accepted caller is undecided, only an explicit connection can exceed the bound |
| `PeerConnector.ConnectionsBounded` | model/client/PeerConnectorStrategyBase.cc:196-375 | in every run in which each step finds room there are at most max_peers connections |
| `PeerConnector.SwarmFits` | model/client/strategies/RarestFirstPartSelectionStrategy.cc:87-120 | then the addresses that sent a bitfield are at most max_peers, which is what the rarity index needs of its peers if no address has two peer objects |
| `PeerConnector.TwoCallersExample` | model/client/PeerConnectorStrategyBase.cc:326-375 | a run in which two callers are accepted before the first is counted, and the bound is exceeded |
| `PeerConnector.SameCallerExample` | model/client/PeerConnectorStrategyBase.cc:326-375 | a caller still undecided that is accepted a second time: two peer objects for one address |
| `PeerConnector.ExactlyOneAccepted` | model/client/PeerConnectorStrategyBase.cc:326-375 | of two crossing attempts that nothing else forbids exactly one is accepted, that of the lower address |
| `PeerConnector.ConnectedNotRepeated` | model/client/PeerConnectorStrategyBase.cc:196-375 | a connected address is neither accepted nor dialled again |
| `PeerConnector.CrossingSettles` | model/client/PeerConnectorStrategyBase.cc:636-652 | whether the connection is established first or the other attempt dropped first makes no difference |
| `PeerConnector.Connector.constructor` | model/client/PeerConnectorStrategyBase.cc:55-66 | the client starts connected to itself only |
| `PeerConnector.Connector.ConnectToPeer` | model/client/PeerConnectorStrategyBase.cc:196-218 | dials an unknown address on the given or the default port |
| `PeerConnector.Connector.ConnectToPeers` | model/client/PeerConnectorStrategyBase.cc:220-300 | dials as specified from the drawn candidate on and returns the growth of the pending set |
| `PeerConnector.Connector.Connect` | model/client/PeerConnectorStrategyBase.cc:262-297 | the loop dials exactly the first unknown candidates there is room for |
| `PeerConnector.Connector.AcceptConnection` | model/client/PeerConnectorStrategyBase.cc:326-375 | the nested tests give the specified code |
| `PeerConnector.Connector.AcceptCallback` | model/client/PeerConnectorStrategyBase.cc:601-625 | accepts only while connected to the cloud and with code 0 |
| `PeerConnector.Connector.ProcessPeerConnectionEstablishedEvent` | model/client/PeerConnectorStrategyBase.cc:791-796 | the address moves from pending to connected |
| `PeerConnector.Connector.ProcessPeerConnectionFailEvent` | model/client/PeerConnectorStrategyBase.cc:798-805 | the address is no longer pending (`PeerConnector.AttemptEnds`), and a leecher tries again |
| `PeerConnector.Connector.CheckAndDisconnectIfRejected` | model/client/PeerConnectorStrategyBase.cc:636-652 | an attempt without a connection is given up (`PeerConnector.AttemptEnds`), any other is established (`PeerConnector.AttemptSucceeds`) |
| `PeerConnector.Connector.ProcessConnectionCloseEvent` | model/client/PeerConnectorStrategyBase.cc:807-810 | the address is no longer connected; never the own one |
| `PeerConnector.Connector.ProcessPeriodicSchedule` | model/client/PeerConnectorStrategyBase.cc:391-405 | dials for what is missing, and only as a leecher that connects by itself |
| `Playback.RunIsMaximal` | model/client/PushPullVideoClient.h:258-270 | the run of present or missing pieces is as long as possible |
| `Playback.EveryReachableStateSound` | model/client/PushPullVideoClient.cc:325-893 | in every run the position stays in [0, total length], playing while buffering means paused, and at most one buffering timer runs |
| `Playback.InitialSound` | model/client/PushPullVideoClient.cc:38-59 | it holds in the first state |
| `Playback.ApplySound` | model/client/PushPullVideoClient.cc:325-893 | every single step keeps that |
| `Playback.PlayEffect` | model/client/PushPullVideoClient.cc:325-361 | playback begins at 0 and waits for exactly what the first pieces leave of the pre-buffering time; with nothing left and the first piece there it steps after the time of a piece |
| `Playback.SilentUntilPlay` | model/client/PushPullVideoClient.cc:394-413 | over whole runs: once playback is off, no command but Play starts it, moves it or sets a timer |
| `Playback.StopEffect` | model/client/PushPullVideoClient.cc:394-413 | stopping cancels all timers and leaves the position |
| `Playback.SeekEffect` | model/client/PushPullVideoClient.cc:415-434 | a seek goes to the position asked for, at the earliest to 0; beyond the end it stops playback and signals the end |
| `Playback.RelativeSeekEffect` | model/client/PushPullVideoClient.cc:436-455 | a relative seek goes to the beginning of the piece into which the changed position falls, at the earliest to 0; beyond the end it stops playback |
| `Playback.ToTheRightEffect` | model/client/PushPullVideoClient.cc:457-465 | the seek goes behind the first pieces without a gap, or by the pre-buffering time before that, to the beginning of a piece |
| `Playback.PauseEffect` | model/client/PushPullVideoClient.cc:363-376 | a pause cancels the next step and nothing else, and does nothing while buffering |
| `Playback.ResumeEffect` | model/client/PushPullVideoClient.cc:766-781 | at the end of a pause or of buffering, with the current piece there, the next step comes after the time of a piece |
| `Playback.BufferForEffect` | model/client/PushPullVideoClient.cc:467-489 | buffering for a time halts playback, replaces what was waited for, and ends after exactly that time |
| `Playback.BufferUntilEffect` | model/client/PushPullVideoClient.cc:496-546 | buffering up to a position does nothing for one that was passed, looks again after the time of a piece while a piece up to it is missing or it is not in the video, and ends a pause otherwise |
| `Playback.BufferRangeEffect` | model/client/PushPullVideoClient.cc:548-590 | buffering for a range looks again after the time of a piece while one of its pieces, counted in 32 bits, is missing, and ends a pause otherwise |
| `Playback.AdvancedMoves` | model/client/PushPullVideoClient.cc:783-893 | a step stays, or crosses to a piece that is due over available pieces behind the current one, or leaves out a gap behind the current piece within the tolerance in front of enough playback, or ends; for the current piece see the next two |
| `Playback.WithinToleranceIff` | model/client/PushPullVideoClient.h:204-213 | what a step leaves out, the current piece included, is within the tolerance if and only if that piece is there or the tolerance has room for it as well |
| `Playback.CrossesPresentIff` | model/client/PushPullVideoClient.cc:800-818 | all pieces a step crosses, the current one included, are there if and only if the current one is |
| `Playback.LeavesOutOnlyWithin` | model/client/PushPullVideoClient.cc:831-849 | only a hindered step leaves out pieces, and those it counts are within the tolerance and followed by enough playback |
| `Playback.ToleranceExample` | model/client/PushPullVideoClient.cc:831-849 | two seconds are left out at a tolerance of one |
| `Playback.NoToleranceExample` | model/client/PushPullVideoClient.cc:831-849 | a second is left out at a tolerance of nothing |
| `Playback.MissingPieceCrossedExample` | model/client/PushPullVideoClient.cc:800-818 | playback goes on through a missing piece into which it was moved |
| `Playback.NeverAheadOfTime` | model/client/PushPullVideoClient.cc:325-893 | over whole runs without seeks and skips the position never gets ahead of the time spent playing |
| `Playback.NeverBehindTime` | model/client/PushPullVideoClient.cc:783-893 | over whole runs with all pieces there, in which no time passes a due step and nobody seeks to the very end, the position of playback that is not held is less than two pieces behind the time, whatever commands are given |
| `Playback.PlaysInTime` | model/client/PushPullVideoClient.cc:783-893 | while only time passes, position and time since make up exactly the time that has passed, and playback ends exactly when that is the length of the video |
| `Playback.EveryReachableTimerSoon` | model/client/PushPullVideoClient.cc:783-893 | in every reachable state the next step and the next look are at most the time of a piece away |
| `Playback.AdvancedTimer` | model/client/PushPullVideoClient.cc:848-886 | a step sets no next step, or one after exactly the time of a piece |
| `Playback.UnhinderedStep` | model/client/PushPullVideoClient.cc:783-827 | with all pieces there a step goes exactly to the piece that is due, or ends playback behind the last one, and the next one comes after the time of a piece |
| `Playback.PiecesOnlyArrive` | model/client/PushPullVideoClient.cc:325-893 | no step changes which pieces are there but by an arrival |
| `Playback.EndsWhenDue` | model/client/PushPullVideoClient.cc:793-804 | playback ends, with all timers cancelled and the end signalled, when the piece that is due lies behind the last one |
| `Playback.StandstillIff` | model/client/PushPullVideoClient.cc:783-893 | after a step playback is on without any timer exactly under the stated condition on gap, tolerance and buffer |
| `Playback.WaitsForNeeded` | model/client/PushPullVideoClient.cc:871-880 | a hindered step that may leave out nothing looks for the needed piece after the time of a piece, unless playback stands inside that piece |
| `Playback.WaitsForPreBuffering` | model/client/PushPullVideoClient.cc:857-870 | when the gap is longer than the tolerance, a hindered step waits for exactly what the available pieces leave of the pre-buffering time, or for nothing |
| `Playback.LeavesOutIff` | model/client/PushPullVideoClient.cc:829-856 | when it is not, exactly the gap is left out, exactly if what follows lasts as long as required, with the next step after the time of a piece; otherwise what follows is waited for |
| `Playback.HinderedIff` | model/client/PushPullVideoClient.cc:806-827 | a step is hindered if and only if one of the pieces behind the current one up to the due one is missing, or, with none due, the current one |
| `Playback.StandstillExample` | model/client/PushPullVideoClient.cc:859-871 | a state in which that happens |
| `Playback.TimerRemainsIff` | model/client/PushPullVideoClient.cc:467-590 | buffering is left without a timer exactly by a look at a position that playback has passed |
| `Playback.SeekingStrands` | model/client/PushPullVideoClient.cc:496-519 | seeking beyond the awaited position while buffering leads there |
| `Playback.StrandedStays` | model/client/PushPullVideoClient.cc:363-392 | then neither the user's pause and unpause, nor time, nor pieces end it |
| `Playback.UntilWaitsIff` | model/client/PushPullVideoClient.cc:496-546 | a position not passed is waited for exactly while a piece up to it is missing, and for ever at the end of the video |
| `Playback.RangeWaitsIff` | model/client/PushPullVideoClient.cc:548-590 | a range is waited for exactly while one of its pieces is missing or does not exist |
| `Playback.CompleteVideoEndsIff` | model/client/PushPullVideoClient.cc:496-590 | with all pieces there a check not passed is met if and only if the pieces it asks for exist |
| `Playback.EndlessHasGap` | model/client/PushPullVideoClient.cc:496-590 | if they do not exist, no pieces whatever meet it |
| `Playback.BufferingEndsIff` | model/client/PushPullVideoClient.cc:496-590 | once all pieces are there, the next look ends buffering if and only if the position was not passed and the pieces asked for exist |
| `Playback.BufferingForTimeEnds` | model/client/PushPullVideoClient.cc:467-489 | buffering for a time ends, and for good with all pieces there |
| `Playback.HeldForEverStays` | model/client/PushPullVideoClient.cc:496-590 | in every run without the user's intervention playback that waits for pieces behind the end stays where it is |
| `Playback.LeaveOutCanEndIff` | model/client/PushPullVideoClient.cc:851-857 | the wait for what follows a gap can end if and only if the required playback fits behind the gap |
| `Playback.WaitForNeededCanEndIff` | model/client/PushPullVideoClient.cc:874-880 | the wait for the needed piece can end if and only if there is such a piece |
| `Playback.HeldForEverIff` | model/client/PushPullVideoClient.cc:783-893 | a step of playback leads into a wait without end exactly under the stated condition on gap, requirement and length |
| `Playback.ShortRestExample` | model/client/PushPullVideoClient.cc:851-857 | a step that waits for pieces that do not exist |
| `Playback.ShortRestGoesOn` | model/client/PushPullVideoClient.cc:548-577 | and the wait goes on when all pieces are there |
| `Playback.VideoClient.Play` | model/client/PushPullVideoClient.cc:325-361 | starts from 0, buffers what is missing of the pre-buffering time, and advances |
| `Playback.VideoClient.Pause` | model/client/PushPullVideoClient.cc:363-376 | pauses and stops the advance timer, unless buffering |
| `Playback.VideoClient.UnPause` | model/client/PushPullVideoClient.cc:378-392 | resumes and advances, unless buffering |
| `Playback.VideoClient.Stop` | model/client/PushPullVideoClient.cc:394-413 | stops playback and all timers; the position stays |
| `Playback.VideoClient.SetPlaybackPosition` | model/client/PushPullVideoClient.cc:415-434 | seeks within the video, clipped at 0, or ends playback beyond the end |
| `Playback.VideoClient.SetPlaybackPositionRelative` | model/client/PushPullVideoClient.cc:436-455 | seeks to the beginning of a piece, or ends playback |
| `Playback.VideoClient.SetPlaybackPositionToTheRight` | model/client/PushPullVideoClient.cc:457-465 | seeks behind the available run, less the pre-buffering time if asked for |
| `Playback.VideoClient.BufferFor` | model/client/PushPullVideoClient.cc:467-489 | holds playback for a time and replaces both buffering timers |
| `Playback.VideoClient.BufferUntil` | model/client/PushPullVideoClient.cc:496-546 | holds playback while a piece up to the position is missing, otherwise resumes it |
| `Playback.VideoClient.BufferRange` | model/client/PushPullVideoClient.cc:548-590 | holds playback while a piece of the range is missing, otherwise resumes it |
| `Playback.VideoClient.UnPauseAfterBuffering` | model/client/PushPullVideoClient.cc:766-781 | ends buffering and advances |
| `Playback.VideoClient.AdvancePlayback` | model/client/PushPullVideoClient.cc:783-893 | one step of playback, by the function that `UnhinderedStep`, `EndsWhenDue` and the lemmas on hindered steps describe, and that `NeverAheadOfTime` and `PlaysInTime` hold of |
| `Playback.VideoClient.SkipOrBuffer` | model/client/PushPullVideoClient.cc:829-880 | the branches for a hindered step, by the function that `WaitsForNeeded`, `WaitsForPreBuffering` and `LeavesOutIff` describe |
| `Playback.VideoClient.GetContinousPiecesFromPiece` | model/client/PushPullVideoClient.h:258-263 | the number of pieces present from a piece on |
| `Playback.VideoClient.GetContinousMissingPiecesFromPiece` | model/client/PushPullVideoClient.h:265-270 | the number of pieces missing from a piece on |

## Left out

- The handshake: connections are modelled from the connected state on. `CONN_STATE` checks of the senders are taken as passed.
- Port messages, unknown message types, bitfields of the wrong length or of more than 255 bytes, and empty extension messages: not well-formed here, so excluded by precondition.
- A `have` beyond the bitfield: the receiver would write outside of it, so it is not well-formed here.
- The comparison of received blocks with the file, and the corruption map: whether a delivered piece is intact is a parameter.
- `m_totalBytesUploaded`, metrics and logging.
- The choke handler of the part selection strategy, and telling peers of interest: not in the files, or messages without influence on the requests.
- More than one request per block: `max_requests_per_block` is at its default of 1.
- Sums of piece length and block size beyond 32 bits: excluded by precondition, as a larger sum wraps around in the block loop.
- The enlarging branch for `max_peers`, and the order in which the rarest-first handlers call those of the base class: the rarity index is modelled beside the strategy.
- `PartSelectionStrategy.Strategy.constructor`: requires the client's number of pieces to be right; when it is not, see `ClientProgress.Client.constructor`.
- `PeerConnector.SwarmFits`: counts addresses, not peer objects.
- Filling patterns of the first bitfield and step 3f of the start: the bitfield is a parameter.
- Timeout lengths and the periodic scheduling of the strategies: a timeout may come at any time after its request.
- `PeerReceive.PeerReceiver.Dispatch`: `cancel` is logged as an event; its effect on the queues is `PeerSend.PeerSender.HandleCancel`.
- `PeerSend.PeerSender.SendBlock`: requires the length of the message to fit 32 bits, which only an offset behind the end of the piece together with a length close to 2^32 violates, for pieces shorter than that. What lies in memory behind the file is some byte each.
- `PartSelectionStrategy.Strategy.RequestAllowedForBlock`: is called for registered peers only, as the scheduler does; the source would enter an empty list for others.
- `PacketHeaders.BitfieldHeader.CopyBitFieldFrom`: bitfields of 256 bytes or more are excluded; on them the 8-bit loop does not end.
- `PacketHeaders.BitfieldHeader.CopyBitFieldTo`: bitfields of 256 bytes or more are excluded; on them the 8-bit loop does not end.
- `PacketHeaders.BitfieldPacket`: bitfields of 256 bytes or more are excluded; on them the 8-bit loop does not end.
- `PeerReceive.PeerReceiver.HandleRead`: streams with the messages that are not well-formed here are excluded.
- The overflow of 64-bit byte counters and clocks.
- `RollingRate.RateHistory.constructor`: the arrays start at zero; the source leaves them uninitialised.
- `HexCoding.UnescapeHex`: what a stream makes of two characters that are not both digits is a parameter.
- `HexCoding.DecodeInfoHash`: reading behind the end of a text that ends within an escape gives NUL here; the source does not define it.
- Bencoding, HTTP, the tracker's client table with its update and removal, its permutation and its push selection, which are unfinished.
- The parsing of tracker responses: the list of candidates is a parameter of an event. The listener port is one of the settings, as the name the source uses for it is not defined in it.
- Closing connections between seeders and the tracker's announcements.
- `PeerConnector.ConnectedNotRepeated`: one address stands for one connection, as in the source; that a client has a second connection to an address is not modelled.
- Fractions of milliseconds and of milliseconds per piece in playback; `GetTimeUntilPiece`.
- The call of `Play` in `BufferUntil` and `BufferRange`, which cannot be reached.
- The random draws themselves: every sequence of draws within their bounds is considered, not its probability, except that `Floyd.EachSubsetEquallyOften` counts them.
- The Story scripts, the storage manager, the topology and the simulator.
