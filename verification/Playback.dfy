/**
 The pseudo-playback of a video that is still being downloaded: a position that is moved forwards as time
 elapses and pieces arrive, and three timers. Times are in milliseconds.
 */
module Playback {
  import opened Words
  import opened Lists

  /** The settings; a piece lasts a whole number of milliseconds. */
  datatype Config = Config(
    pieces: nat, msPerPiece: nat, preBuffering: nat, missable: bool, skipTolerance: nat, afterSkip: nat)
  {
    predicate Valid() {
      msPerPiece > 0 && pieces > 0
    }

    function PieceToTime(piece: nat): nat {
      piece * msPerPiece
    }

    function TimeToPiece(time: nat): nat
      requires Valid()
    {
      time / msPerPiece
    }

    function TotalLength(): nat {
      PieceToTime(pieces)
    }
  }

  lemma PieceTimes(c: Config, time: nat, p: nat)
    requires c.Valid()
    ensures c.PieceToTime(c.TimeToPiece(time)) <= time < c.PieceToTime(c.TimeToPiece(time) + 1)
    ensures c.TimeToPiece(c.PieceToTime(p)) == p
    ensures c.TimeToPiece(time) < p <==> time < c.PieceToTime(p)
  {
    DivisionFloor(time, c.msPerPiece);
    DivisionOfProduct(p, c.msPerPiece);
    if c.TimeToPiece(time) < p {
      ProductOrder(c.TimeToPiece(time) + 1, p, c.msPerPiece);
    } else {
      ProductOrder(p, c.TimeToPiece(time), c.msPerPiece);
    }
  }

  lemma StartOfVideo(c: Config)
    requires c.Valid()
    ensures c.PieceToTime(c.TimeToPiece(0)) == 0
  {
  }

  lemma DivisionFloor(t: nat, d: nat)
    requires d > 0
    ensures (t / d) * d <= t < (t / d + 1) * d
  {
  }

  lemma DivisionOfProduct(p: nat, d: nat)
    requires d > 0
    ensures p * d / d == p
  {
    var q := p * d / d;
    DivisionFloor(p * d, d);
    if q < p {
      ProductOrder(q + 1, p, d);
    }
  }

  lemma ProductOrder(p: nat, q: nat, d: nat)
    requires p <= q
    ensures p * d <= q * d
  {
  }

  // ----- Runs of pieces -----

  /** How many pieces from `from` on are all there, or all missing. */
  function RunFrom(have: seq<bool>, from: nat, there: bool): (n: nat)
    ensures from <= |have| ==> from + n <= |have|
    ensures from >= |have| ==> n == 0
    decreases |have| - from
  {
    if from < |have| && have[from] == there then 1 + RunFrom(have, from + 1, there) else 0
  }

  /** The run is as long as possible. */
  lemma {:induction false} RunIsMaximal(have: seq<bool>, from: nat, there: bool)
    ensures var n := RunFrom(have, from, there);
      && (forall i :: from <= i < from + n ==> i < |have| && have[i] == there)
      && (from + n < |have| ==> have[from + n] != there)
    decreases |have| - from
  {
    if from < |have| && have[from] == there {
      RunIsMaximal(have, from + 1, there);
    }
  }

  // ----- The state of playback -----

  datatype Check =
    | Until(position: nat)
    | Range(start: nat, end: nat)

  datatype Timed = Timed(at: nat, check: Check)

  datatype Note =
    | StateChanged
    | PositionWillChange
    | PositionChanged(position: nat)
    | CannotAdvance
    | Finished

  datatype Skip = Skip(oldPiece: nat, newPiece: nat)

  datatype State = State(
    now: nat,
    have: seq<bool>,
    position: nat,
    lastChange: nat,
    playing: bool,
    paused: bool,
    buffering: bool,
    pausedUntil: nat,
    advance: Option<nat>,
    check: Option<Timed>,
    elapsed: Option<nat>,
    log: seq<Note>,
    skips: seq<Skip>)
  {
    function Note(n: Note): State {
      this.(log := log + [n])
    }
  }

  function Stopped(s: State): State {
    var t := if s.playing then s.(lastChange := s.now, playing := false, paused := false).Note(StateChanged) else s;
    t.(advance := None, check := None, elapsed := None)
  }

  function PositionSet(c: Config, s: State, position: int): State {
    if position > c.TotalLength() then Stopped(s).Note(Finished)
    else if !s.playing then s
    else
      var p := if position < 0 then 0 else position;
      s.(lastChange := s.now, position := p).Note(PositionChanged(p))
  }

  function PositionMoved(c: Config, s: State, change: int): State
    requires c.Valid()
  {
    if s.position + change > c.TotalLength() then Stopped(s).Note(Finished)
    else if !s.playing then s
    else
      var p := if s.position + change < 0 then 0 else c.PieceToTime(c.TimeToPiece(s.position + change));
      s.(lastChange := s.now, position := p).Note(PositionChanged(p))
  }

  function FromTheRight(c: Config, s: State, keepPreBuffering: bool): State
    requires c.Valid()
  {
    var t := PositionSet(c, s, c.PieceToTime(RunFrom(s.have, 0, true)));
    if keepPreBuffering then PositionMoved(c, t, 0 - c.preBuffering) else t
  }

  function Paused(c: Config, s: State): State {
    if s.playing && !s.buffering then
      s.(lastChange := s.now, paused := true, pausedUntil := s.now + c.TotalLength(), advance := None).Note(StateChanged)
    else s
  }

  /** Playback is paused, unless it is, and both buffering timers are stopped. */
  function Held(c: Config, s: State): State {
    (if s.paused then s else Paused(c, s).(buffering := true)).(check := None, elapsed := None)
  }

  function BufferedFor(c: Config, s: State, period: nat): State {
    if !s.playing then s else Held(c, s).(elapsed := Some(s.now + period), pausedUntil := s.now + period)
  }

  function BufferedTo(c: Config, s: State, check: Check): State {
    Held(c, s).(check := Some(Timed(s.now + c.msPerPiece, check)), pausedUntil := s.now + c.TotalLength())
  }

  /** The request as it is checked: cut off at the end of the video. */
  function CutOff(c: Config, check: Check): Check {
    match check
    case Until(position) => Until(if position > c.TotalLength() then c.TotalLength() else position)
    case Range(start, end) => Range(if start > c.pieces then c.pieces else start, end)
  }

  /** A position that has been passed is not checked any more. */
  predicate Passed(s: State, check: Check) {
    check.Until? && check.position < s.position
  }

  /** The subtraction is one of 32-bit numbers. */
  function RangeSize(start: nat, end: nat): nat {
    (end - start) % U32
  }

  /** Whether a needed piece is missing. */
  predicate HasGap(c: Config, s: State, check: Check)
    requires c.Valid()
  {
    match check
    case Until(position) =>
      RunFrom(s.have, c.TimeToPiece(s.position), true) < c.TimeToPiece(position) - c.TimeToPiece(s.position) + 1
    case Range(start, end) => RunFrom(s.have, start, true) < RangeSize(start, end)
  }

  /** Buffering for a check, if there is something to wait for. */
  function Awaited(c: Config, s: State, check: Check): State
    requires c.Valid()
  {
    var k := CutOff(c, check);
    if !Passed(s, k) && HasGap(c, s, k) then BufferedTo(c, s, k) else s
  }

  // ----- Advancing -----

  function CurrentPiece(c: Config, s: State): nat
    requires c.Valid()
  {
    c.TimeToPiece(s.position)
  }

  /** The piece that the time since the last change asks for. */
  function NeededPiece(c: Config, s: State): nat
    requires c.Valid() && s.lastChange <= s.now
  {
    c.TimeToPiece(s.position + s.now - s.lastChange)
  }

  /** Playback has to stay where it is. */
  predicate Hindered(c: Config, s: State)
    requires c.Valid() && s.lastChange <= s.now
  {
    var current, needed := CurrentPiece(c, s), NeededPiece(c, s);
    if needed > current then RunFrom(s.have, current + 1, true) < needed - current
    else RunFrom(s.have, current, true) == 0
  }

  function Scheduled(c: Config, s: State): State {
    s.(advance := Some(s.now + c.msPerPiece))
  }

  function Skipped(c: Config, s: State, newPiece: nat): State
    requires c.Valid()
  {
    var t := PositionSet(c, s, c.PieceToTime(newPiece));
    Scheduled(c, t.(skips := t.skips + [Skip(CurrentPiece(c, s), newPiece)]))
  }

  function ToSkip(c: Config, s: State): nat
    requires c.Valid()
  {
    RunFrom(s.have, CurrentPiece(c, s) + 1, false)
  }

  /** The piece behind the gap. */
  function NextPiece(c: Config, s: State): nat
    requires c.Valid()
  {
    CurrentPiece(c, s) + ToSkip(c, s) + 1
  }

  /** How many pieces follow the gap without another one. */
  function After(c: Config, s: State): nat
    requires c.Valid()
  {
    RunFrom(s.have, NextPiece(c, s), true)
  }

  /** No piece may be left out: wait for the needed one. */
  function WaitForNeeded(c: Config, s: State): State
    requires c.Valid() && s.lastChange <= s.now
  {
    Awaited(c, s, Until(c.PieceToTime(NeededPiece(c, s)))).Note(CannotAdvance)
  }

  /** The gap is too long: wait for what is missing of the pre-buffering time. */
  function PreBuffer(c: Config, s: State): State
    requires c.Valid()
  {
    var left := c.preBuffering - c.PieceToTime(RunFrom(s.have, CurrentPiece(c, s), true));
    if left > 0 then BufferedFor(c, s, left).Note(CannotAdvance) else s
  }

  /** The gap may be left out, if what follows it lasts long enough. */
  function LeaveOut(c: Config, s: State): State
    requires c.Valid()
  {
    var next := NextPiece(c, s);
    if c.PieceToTime(After(c, s)) >= c.afterSkip then Skipped(c, s, next)
    else Awaited(c, s, Range(next, next + c.TimeToPiece(c.afterSkip))).Note(CannotAdvance)
  }

  /** What happens when playback cannot go on from the current piece. */
  function Overcome(c: Config, s: State): State
    requires c.Valid() && s.lastChange <= s.now
  {
    if !c.missable then WaitForNeeded(c, s)
    else if c.PieceToTime(ToSkip(c, s)) > c.skipTolerance then PreBuffer(c, s)
    else LeaveOut(c, s)
  }

  function Advanced(c: Config, s: State): State
    requires c.Valid() && s.lastChange <= s.now
  {
    if !s.playing || s.paused then s
    else
      var current, needed := CurrentPiece(c, s), NeededPiece(c, s);
      if needed > current && needed >= c.pieces then Stopped(s).Note(Finished)
      else if Hindered(c, s) then Overcome(c, s)
      else if needed > current then Scheduled(c, PositionSet(c, s.Note(PositionWillChange), c.PieceToTime(needed)))
      else Scheduled(c, s)
  }

  function Resumed(c: Config, s: State): State
    requires c.Valid()
  {
    if !s.playing then s
    else
      Advanced(c, s.(lastChange := s.now, paused := false, buffering := false, pausedUntil := 0, advance := None).Note(StateChanged))
  }

  function Buffered(c: Config, s: State, check: Check): State
    requires c.Valid()
  {
    var k := CutOff(c, check);
    if !s.playing || Passed(s, k) then s
    else if HasGap(c, s, k) then BufferedTo(c, s, k)
    else if s.paused then Resumed(c, s)
    else s
  }

  function UnPaused(c: Config, s: State): State
    requires c.Valid()
  {
    if s.playing && !s.buffering then
      Advanced(c, s.(lastChange := s.now, paused := false, pausedUntil := 0, advance := None).Note(StateChanged))
    else s
  }

  /** Playback from the beginning, with nothing left of an earlier one. */
  function Rewound(c: Config, s: State): State {
    PositionSet(c, s.(lastChange := s.now, playing := true, paused := false, buffering := false), 0)
    .Note(StateChanged).(check := None, elapsed := None)
  }

  function BufferedAtStart(c: Config, s: State): State {
    var left := c.preBuffering - c.PieceToTime(RunFrom(s.have, 0, true));
    if left > 0 then BufferedFor(c, s, left) else s
  }

  function Played(c: Config, s: State): (r: State)
    requires c.Valid()
  {
    Advanced(c, BufferedAtStart(c, Rewound(c, s)).(advance := None))
  }

  // ----- Runs -----

  datatype Event =
    | Play
    | Pause
    | UnPause
    | Stop
    | Seek(position: int)
    | SeekRelative(change: int)
    | SeekToTheRight(keepPreBuffering: bool)
    | BufferFor(period: nat)
    | Buffer(check: Check)
    | AdvanceDue
    | CheckDue
    | ElapsedDue
    | PieceArrives(piece: nat)
    | Tick(ms: nat)

  predicate Due(at: Option<nat>, now: nat) {
    at.Some? && at.value <= now
  }

  predicate Enabled(s: State, e: Event) {
    match e
    case AdvanceDue => Due(s.advance, s.now)
    case CheckDue => s.check.Some? && s.check.value.at <= s.now
    case ElapsedDue => Due(s.elapsed, s.now)
    case PieceArrives(p) => p < |s.have|
    case _ => true
  }

  function Apply(c: Config, s: State, e: Event): State
    requires c.Valid() && Enabled(s, e) && s.lastChange <= s.now
  {
    match e
    case Play => Played(c, s)
    case Pause => Paused(c, s)
    case UnPause => UnPaused(c, s)
    case Stop => Stopped(s)
    case Seek(position) => PositionSet(c, s, position)
    case SeekRelative(change) => PositionMoved(c, s, change)
    case SeekToTheRight(keepPreBuffering) => FromTheRight(c, s, keepPreBuffering)
    case BufferFor(period) => BufferedFor(c, s, period)
    case Buffer(check) => Buffered(c, s, check)
    case AdvanceDue => Advanced(c, s.(advance := None))
    case CheckDue => Buffered(c, s.(check := None), s.check.value.check)
    case ElapsedDue => Resumed(c, s.(elapsed := None))
    case PieceArrives(p) => s.(have := s.have[p := true])
    case Tick(ms) => s.(now := s.now + ms)
  }

  /** What holds in every reachable state. */
  ghost predicate Sound(c: Config, s: State) {
    && |s.have| == c.pieces && s.lastChange <= s.now
    && s.position <= c.TotalLength()
    && (s.playing && s.buffering ==> s.paused)
    && (s.playing && s.paused ==> s.advance.None?)
    && !(s.check.Some? && s.elapsed.Some?)
  }

  lemma PositionSetSound(c: Config, s: State, position: int)
    requires Sound(c, s)
    ensures Sound(c, PositionSet(c, s, position))
  {
    hide Config.PieceToTime;
  }

  lemma PositionMovedSound(c: Config, s: State, change: int)
    requires c.Valid() && Sound(c, s)
    ensures Sound(c, PositionMoved(c, s, change))
  {
    if s.position + change >= 0 {
      PieceTimes(c, s.position + change, 0);
    }
    hide Config.PieceToTime, Config.TimeToPiece;
  }

  lemma HeldSound(c: Config, s: State)
    requires Sound(c, s) && s.playing
    ensures Sound(c, Held(c, s)) && Held(c, s).paused && Held(c, s).advance.None?
    ensures Held(c, s).check.None? && Held(c, s).elapsed.None? && Held(c, s).playing
    ensures !s.paused ==> Held(c, s).buffering
  {
    hide Config.PieceToTime;
  }

  lemma BufferedForSound(c: Config, s: State, period: nat)
    requires Sound(c, s)
    ensures Sound(c, BufferedFor(c, s, period))
    ensures s.playing ==> BufferedFor(c, s, period).paused
  {
    if s.playing {
      HeldSound(c, s);
    }
    hide Held, Config.PieceToTime;
  }

  lemma BufferedToSound(c: Config, s: State, check: Check)
    requires Sound(c, s) && s.playing
    ensures Sound(c, BufferedTo(c, s, check)) && BufferedTo(c, s, check).paused
  {
    HeldSound(c, s);
    hide Held, Config.PieceToTime;
  }

  lemma OvercomeSound(c: Config, s: State)
    requires c.Valid() && Sound(c, s) && s.advance.None? && s.playing && !s.paused
    ensures Sound(c, Overcome(c, s))
  {
    forall check ensures Sound(c, BufferedTo(c, s, check)) { BufferedToSound(c, s, check); }
    forall period: nat ensures Sound(c, BufferedFor(c, s, period)) { BufferedForSound(c, s, period); }
    forall p ensures Sound(c, PositionSet(c, s, p)) { PositionSetSound(c, s, p); }
    hide BufferedTo, BufferedFor, HasGap, Passed, RunFrom, Config.PieceToTime, Config.TimeToPiece;
  }

  lemma AdvancedSound(c: Config, s: State)
    requires c.Valid() && Sound(c, s) && s.advance.None?
    ensures Sound(c, Advanced(c, s))
  {
    if s.playing && !s.paused {
      OvercomeSound(c, s);
      PositionSetSound(c, s.Note(PositionWillChange), c.PieceToTime(NeededPiece(c, s)));
    }
    hide Overcome, Hindered, PositionSet, Config.PieceToTime, Config.TimeToPiece;
  }

  lemma BufferedSound(c: Config, s: State, check: Check)
    requires c.Valid() && Sound(c, s)
    ensures Sound(c, Buffered(c, s, check))
  {
    var k := CutOff(c, check);
    if s.playing {
      BufferedToSound(c, s, k);
      ResumedSound(c, s);
    }
    hide BufferedTo, Resumed, HasGap, Passed, CutOff;
  }

  lemma ResumedSound(c: Config, s: State)
    requires c.Valid() && Sound(c, s)
    ensures Sound(c, Resumed(c, s))
  {
    if s.playing {
      AdvancedSound(c, s.(lastChange := s.now, paused := false, buffering := false, pausedUntil := 0, advance := None)
                       .Note(StateChanged));
    }
    hide Advanced, Config.PieceToTime;
  }

  lemma UnPausedSound(c: Config, s: State)
    requires c.Valid() && Sound(c, s)
    ensures Sound(c, UnPaused(c, s))
  {
    if s.playing && !s.buffering {
      AdvancedSound(c, s.(lastChange := s.now, paused := false, pausedUntil := 0, advance := None).Note(StateChanged));
    }
    hide Advanced, Config.PieceToTime;
  }

  lemma PlayedSound(c: Config, s: State)
    requires c.Valid() && Sound(c, s)
    ensures Sound(c, Played(c, s))
  {
    var t := Rewound(c, s);
    var left := c.preBuffering - c.PieceToTime(RunFrom(t.have, 0, true));
    BufferedForSound(c, t, if left > 0 then left else 0);
    AdvancedSound(c, BufferedAtStart(c, t).(advance := None));
    hide Advanced, BufferedFor, RunFrom, Config.PieceToTime;
  }

  lemma ApplySound(c: Config, s: State, e: Event)
    requires c.Valid() && Sound(c, s) && Enabled(s, e)
    ensures Sound(c, Apply(c, s, e))
  {
    match e {
      case Play => PlayedSound(c, s);
      case UnPause => UnPausedSound(c, s);
      case Seek(position) => PositionSetSound(c, s, position);
      case SeekRelative(change) => PositionMovedSound(c, s, change);
      case SeekToTheRight(keepPreBuffering) => {
        PositionSetSound(c, s, c.PieceToTime(RunFrom(s.have, 0, true)));
        PositionMovedSound(c, PositionSet(c, s, c.PieceToTime(RunFrom(s.have, 0, true))), 0 - c.preBuffering);
      }
      case BufferFor(period) => BufferedForSound(c, s, period);
      case Buffer(check) => BufferedSound(c, s, check);
      case AdvanceDue => AdvancedSound(c, s.(advance := None));
      case CheckDue => BufferedSound(c, s.(check := None), s.check.value.check);
      case ElapsedDue => ResumedSound(c, s.(elapsed := None));
      case _ => {}
    }
    hide Played, UnPaused, PositionSet, PositionMoved, BufferedFor, Buffered, Advanced, Resumed, Config.PieceToTime;
  }

  ghost predicate IsRun(c: Config, states: seq<State>, events: seq<Event>)
    requires c.Valid()
  {
    && |states| == |events| + 1 && Sound(c, states[0])
    && forall i :: 0 <= i < |events| ==>
         Enabled(states[i], events[i]) && states[i].lastChange <= states[i].now && states[i + 1] == Apply(c, states[i], events[i])
  }

  function Initial(c: Config, now: nat): State {
    State(now, seq(c.pieces, i => false), 0, now, false, false, false, 0, None, None, None, [], [])
  }

  lemma InitialSound(c: Config, now: nat)
    ensures Sound(c, Initial(c, now))
  {
    hide Config.PieceToTime;
  }

  /** The position stays within the video, and playing while buffering means paused, in every reachable state. */
  lemma {:induction false} EveryReachableStateSound(c: Config, states: seq<State>, events: seq<Event>, i: nat)
    requires c.Valid() && IsRun(c, states, events) && i < |states|
    ensures Sound(c, states[i])
  {
    hide Sound, Apply, Enabled;
    if i > 0 {
      EveryReachableStateSound(c, states, events, i - 1);
      ApplySound(c, states[i - 1], events[i - 1]);
    }
  }

  // ----- What a single step of playback does -----

  ghost predicate AllAre(have: seq<bool>, from: nat, to: nat, there: bool) {
    to <= |have| && forall i :: from <= i < to ==> have[i] == there
  }

  /** Playback has moved on to piece `n`, which was due; all pieces behind the current one, up to it, are there. */
  ghost predicate Crossed(c: Config, s: State, s': State, n: nat)
    requires c.Valid()
  {
    && s'.position == c.PieceToTime(n) && CurrentPiece(c, s) < n < c.pieces
    && AllAre(s.have, CurrentPiece(c, s) + 1, n + 1, true)
    && s'.position <= s.position + (s.now - s.lastChange) < s'.position + c.msPerPiece
  }

  /**
   Playback has left out the `k` pieces behind the current one, few enough, in front of `n` pieces that are
   there, and last long enough.
   */
  ghost predicate LeftOut(c: Config, s: State, s': State, k: nat, n: nat)
    requires c.Valid()
  {
    var next := CurrentPiece(c, s) + k + 1;
    && c.missable && s'.position == c.PieceToTime(next)
    && s'.skips == s.skips + [Skip(CurrentPiece(c, s), next)]
    && (k > 0 ==> AllAre(s.have, next - k, next, false)) && c.PieceToTime(k) <= c.skipTolerance
    && (n > 0 ==> AllAre(s.have, next, next + n, true)) && c.PieceToTime(n) >= c.afterSkip
  }

  lemma RunIsAll(have: seq<bool>, from: nat, there: bool)
    ensures var n := RunFrom(have, from, there); n > 0 ==> AllAre(have, from, from + n, there)
  {
    RunIsMaximal(have, from, there);
  }

  lemma SkippedLeavesOut(c: Config, s: State)
    requires c.Valid() && s.playing && c.missable
    ensures var s' := Skipped(c, s, NextPiece(c, s));
      && (s'.playing && c.PieceToTime(ToSkip(c, s)) <= c.skipTolerance && c.PieceToTime(After(c, s)) >= c.afterSkip
          ==> LeftOut(c, s, s', ToSkip(c, s), After(c, s)))
      && (!s'.playing ==> s'.position == s.position)
  {
    RunIsAll(s.have, CurrentPiece(c, s) + 1, false);
    RunIsAll(s.have, NextPiece(c, s), true);
    hide RunFrom, AllAre, Config.PieceToTime, Config.TimeToPiece;
  }

  lemma BufferingStays(c: Config, s: State, check: Check, period: nat)
    requires c.Valid()
    ensures Awaited(c, s, check).position == s.position && Awaited(c, s, check).skips == s.skips
    ensures BufferedFor(c, s, period).position == s.position && BufferedFor(c, s, period).skips == s.skips
  {
    hide HasGap, Passed, Config.PieceToTime;
  }

  lemma WaitingStays(c: Config, s: State)
    requires c.Valid() && s.lastChange <= s.now
    ensures WaitForNeeded(c, s).position == s.position && WaitForNeeded(c, s).skips == s.skips
    ensures PreBuffer(c, s).position == s.position && PreBuffer(c, s).skips == s.skips
  {
    BufferingStays(c, s, Until(c.PieceToTime(NeededPiece(c, s))), 0);
    var left := c.preBuffering - c.PieceToTime(RunFrom(s.have, CurrentPiece(c, s), true));
    BufferingStays(c, s, Until(0), if left < 0 then 0 else left);
    hide RunFrom, Awaited, BufferedFor, Config.PieceToTime, Config.TimeToPiece;
  }

  lemma OvercomeMoves(c: Config, s: State)
    requires c.Valid() && s.lastChange <= s.now && s.playing && !s.paused
    ensures var s' := Overcome(c, s);
      || (s'.position == s.position && s'.skips == s.skips)
      || (s'.playing && LeftOut(c, s, s', ToSkip(c, s), After(c, s)))
      || (!s'.playing && s'.position == s.position)
  {
    WaitingStays(c, s);
    if c.missable {
      SkippedLeavesOut(c, s);
    }
    BufferingStays(c, s, Range(NextPiece(c, s), NextPiece(c, s) + c.TimeToPiece(c.afterSkip)), 0);
    hide WaitForNeeded, PreBuffer, Awaited, Skipped, LeftOut, ToSkip, After, NextPiece, Config.PieceToTime, Config.TimeToPiece;
  }

  lemma CrossingMoves(c: Config, s: State)
    requires c.Valid() && Sound(c, s) && s.playing
    requires CurrentPiece(c, s) < NeededPiece(c, s) < c.pieces && !Hindered(c, s)
    ensures var n := NeededPiece(c, s);
            var s' := Scheduled(c, PositionSet(c, s.Note(PositionWillChange), c.PieceToTime(n)));
            Crossed(c, s, s', n) && s'.skips == s.skips
  {
    var due, n := s.position + s.now - s.lastChange, NeededPiece(c, s);
    PieceTimes(c, due, c.pieces);
    NextPieceTime(c, n);
    RunIsMaximal(s.have, CurrentPiece(c, s) + 1, true);
    hide RunFrom, Config.PieceToTime, Config.TimeToPiece;
    assert c.PieceToTime(n) <= c.TotalLength();
  }

  /**
   A step of playback either stays, or crosses to a piece over pieces that are there behind the current one
   and does not run ahead of the time that has elapsed, or leaves out a short missing run behind the current
   piece in front of a long available one, or ends.
   */
  lemma AdvancedMoves(c: Config, s: State)
    requires c.Valid() && Sound(c, s) && s.playing && !s.paused
    ensures var s' := Advanced(c, s);
      || (s'.position == s.position && s'.skips == s.skips)
      || ((exists n :: Crossed(c, s, s', n)) && s'.skips == s.skips)
      || (exists k, n :: LeftOut(c, s, s', k, n))
      || (!s'.playing && s'.position == s.position)
  {
    OvercomeMoves(c, s);
    var current, needed := CurrentPiece(c, s), NeededPiece(c, s);
    if current < needed < c.pieces && !Hindered(c, s) {
      CrossingMoves(c, s);
    }
    hide Overcome, Hindered, PositionSet, Crossed, LeftOut, Config.PieceToTime, Config.TimeToPiece;
  }

  lemma NextPieceTime(c: Config, p: nat)
    ensures c.PieceToTime(p + 1) == c.PieceToTime(p) + c.msPerPiece
  {
  }

  // ----- The current piece -----

  /** How many of the pieces are missing. */
  function MissingIn(have: seq<bool>, from: nat, to: nat): nat
    requires from <= to <= |have|
    decreases |have| - from
  {
    if from == to then 0 else (if have[from] then 0 else 1) + MissingIn(have, from + 1, to)
  }

  lemma {:induction false} AllMissing(have: seq<bool>, from: nat, to: nat)
    requires from <= to && AllAre(have, from, to, false)
    ensures MissingIn(have, from, to) == to - from
    decreases |have| - from
  {
    if from < to {
      AllMissing(have, from + 1, to);
    }
  }

  /** What a leaving-out step leaves out, the current piece included. */
  lemma MissingBeforeNext(c: Config, s: State)
    requires c.Valid() && CurrentPiece(c, s) < |s.have|
    ensures NextPiece(c, s) <= |s.have|
    ensures MissingIn(s.have, CurrentPiece(c, s), NextPiece(c, s))
         == ToSkip(c, s) + if s.have[CurrentPiece(c, s)] then 0 else 1
  {
    var current := CurrentPiece(c, s);
    RunIsMaximal(s.have, current + 1, false);
    hide RunFrom, Config.TimeToPiece;
    AllMissing(s.have, current + 1, NextPiece(c, s));
  }

  lemma OvercomeLeavesOut(c: Config, s: State)
    requires c.Valid() && s.lastChange <= s.now && Overcome(c, s).skips != s.skips
    ensures c.missable && c.PieceToTime(ToSkip(c, s)) <= c.skipTolerance && c.PieceToTime(After(c, s)) >= c.afterSkip
    ensures Overcome(c, s) == Skipped(c, s, NextPiece(c, s))
  {
    WaitingStays(c, s);
    BufferingStays(c, s, Range(NextPiece(c, s), NextPiece(c, s) + c.TimeToPiece(c.afterSkip)), 0);
    hide WaitForNeeded, PreBuffer, Awaited, Skipped, ToSkip, After, NextPiece, Config.PieceToTime, Config.TimeToPiece;
  }

  lemma SkippedRecords(c: Config, s: State, next: nat)
    requires c.Valid()
    ensures Skipped(c, s, next).skips == s.skips + [Skip(CurrentPiece(c, s), next)]
  {
    hide CurrentPiece, Config.PieceToTime;
  }

  /** A step that leaves something out is hindered, and what it counts is within the tolerance. */
  lemma LeavesOutOnlyWithin(c: Config, s: State)
    requires c.Valid() && s.lastChange <= s.now && Advanced(c, s).skips != s.skips
    ensures s.playing && !s.paused && c.missable && Hindered(c, s)
    ensures c.PieceToTime(ToSkip(c, s)) <= c.skipTolerance && c.PieceToTime(After(c, s)) >= c.afterSkip
    ensures Advanced(c, s).skips == s.skips + [Skip(CurrentPiece(c, s), NextPiece(c, s))]
  {
    hide Overcome, Skipped, ToSkip, After, NextPiece, Hindered, CurrentPiece, NeededPiece, Config.PieceToTime, Config.TimeToPiece;
    if s.playing && !s.paused && Overcome(c, s).skips != s.skips {
      OvercomeLeavesOut(c, s);
      SkippedRecords(c, s, NextPiece(c, s));
    }
  }

  /**
   The missing pieces that a step leaves out last at most the tolerance if and only if the current piece is
   there, or the tolerance has room for it besides the pieces behind it: it is left out as well, but not counted.
   */
  lemma WithinToleranceIff(c: Config, s: State)
    requires c.Valid() && Sound(c, s) && CurrentPiece(c, s) < c.pieces && Advanced(c, s).skips != s.skips
    ensures NextPiece(c, s) <= c.pieces
    ensures c.PieceToTime(MissingIn(s.have, CurrentPiece(c, s), NextPiece(c, s))) <= c.skipTolerance
       <==> s.have[CurrentPiece(c, s)] || c.PieceToTime(ToSkip(c, s) + 1) <= c.skipTolerance
  {
    LeavesOutOnlyWithin(c, s);
    MissingBeforeNext(c, s);
    hide Advanced, MissingIn, ToSkip, NextPiece, CurrentPiece, Config.PieceToTime;
  }

  /** All pieces that a step crosses, the one it comes from included, are there if and only if that one is. */
  lemma CrossesPresentIff(c: Config, s: State, s': State, n: nat)
    requires c.Valid() && Sound(c, s) && Crossed(c, s, s', n)
    ensures CurrentPiece(c, s) < c.pieces
    ensures AllAre(s.have, CurrentPiece(c, s), n + 1, true) <==> s.have[CurrentPiece(c, s)]
  {
    hide CurrentPiece, Config.PieceToTime;
  }

  /** Two of five seconds are missing at the start; `Play` leaves out both, where one second may be left out. */
  lemma ToleranceExample()
    ensures var c := Config(5, 1000, 0, true, 1000, 1000);
            var s := Initial(c, 0).(have := [false, false, true, true, true]);
      && c.Valid() && Sound(c, s)
      && Apply(c, s, Play).skips == [Skip(0, 2)] && Apply(c, s, Play).position == 2000
  {
    var have := [false, false, true, true, true];
    assert RunFrom(have, 0, true) == 0;
    assert RunFrom(have, 2, false) == 0;
    assert RunFrom(have, 1, false) == 1;
    assert RunFrom(have, 3, true) >= 1;
    assert RunFrom(have, 2, true) >= 2;
    hide RunFrom;
  }

  /** Nothing may be left out, and the first second is. */
  lemma NoToleranceExample()
    ensures var c := Config(5, 1000, 0, true, 0, 1000);
            var s := Initial(c, 0).(have := [false, true, true, true, true]);
      && c.Valid() && Sound(c, s)
      && Apply(c, s, Play).skips == [Skip(0, 1)] && Apply(c, s, Play).position == 1000
  {
    var have := [false, true, true, true, true];
    assert RunFrom(have, 0, true) == 0;
    assert RunFrom(have, 1, false) == 0;
    assert RunFrom(have, 2, true) >= 1;
    assert RunFrom(have, 1, true) >= 2;
    hide RunFrom;
  }

  /** Half a second after a seek into the middle of a missing piece, playback goes on to the next one. */
  lemma MissingPieceCrossedExample()
    ensures var c := Config(5, 1000, 0, true, 0, 1000);
            var s := Initial(c, 0).(now := 600, position := 2500, playing := true, have := [true, true, false, true, true]);
      && c.Valid() && Sound(c, s) && !s.have[CurrentPiece(c, s)]
      && Advanced(c, s).position == 3000 && Advanced(c, s).skips == [] && !Advanced(c, s).paused
  {
    var have := [true, true, false, true, true];
    assert RunFrom(have, 4, true) >= 1;
    assert RunFrom(have, 3, true) >= 2;
    hide RunFrom;
  }

  // ----- When playback comes to a standstill -----

  predicate Pending(s: State) {
    s.advance.Some? || s.check.Some? || s.elapsed.Some?
  }

  /**
   No branch of a hindered step sets a timer: pieces may be left out, but too many are missing and what is
   there already covers the pre-buffering time, or what follows the gap is short of the required time by
   less than a piece; or nothing may be left out, and the current piece, in which playback stands, is missing.
   */
  predicate Stalls(c: Config, s: State)
    requires c.Valid() && s.lastChange <= s.now
  {
    var current, needed := CurrentPiece(c, s), NeededPiece(c, s);
    && Hindered(c, s) && (needed > current ==> needed < c.pieces)
    && if !c.missable then needed == current && c.PieceToTime(current) < s.position
       else if c.PieceToTime(ToSkip(c, s)) > c.skipTolerance then
         c.preBuffering <= c.PieceToTime(RunFrom(s.have, current, true))
       else current < c.pieces && After(c, s) == c.TimeToPiece(c.afterSkip) && c.PieceToTime(After(c, s)) < c.afterSkip
  }

  lemma AwaitedPending(c: Config, s: State, check: Check)
    requires c.Valid() && Sound(c, s) && s.playing && !s.paused && !Pending(s)
    ensures var k := CutOff(c, check); var s' := Awaited(c, s, check);
      s'.playing && (Pending(s') <==> !Passed(s, k) && HasGap(c, s, k))
  {
    HeldSound(c, s);
    hide Held, HasGap, Passed, Config.PieceToTime;
  }

  /** Waiting for the needed piece is in vain only if playback has entered that piece already. */
  lemma NeededIsAwaited(c: Config, s: State)
    requires c.Valid() && Sound(c, s) && s.playing && !s.paused && Hindered(c, s)
    requires NeededPiece(c, s) > CurrentPiece(c, s) ==> NeededPiece(c, s) < c.pieces
    ensures var needed := NeededPiece(c, s); var k := CutOff(c, Until(c.PieceToTime(needed)));
      && CurrentPiece(c, s) <= needed && k == Until(c.PieceToTime(needed)) && HasGap(c, s, k)
      && (Passed(s, k) <==> needed == CurrentPiece(c, s) && c.PieceToTime(needed) < s.position)
  {
    var current, needed := CurrentPiece(c, s), NeededPiece(c, s);
    PieceTimes(c, s.position + s.now - s.lastChange, current);
    PieceTimes(c, s.position, needed);
    PieceTimes(c, c.PieceToTime(needed), c.pieces + 1);
    PieceTimes(c, s.position, c.pieces + 1);
    NextPieceTime(c, c.pieces);
    ProductOrder(needed, c.pieces, c.msPerPiece);
    assert RunFrom(s.have, current, true) <= 1 + RunFrom(s.have, current + 1, true);
    hide RunFrom, Config.PieceToTime, Config.TimeToPiece;
  }

  lemma RangeSizeOf(start: nat, n: nat)
    requires n < U32
    ensures RangeSize(start, start + n) == n
  {
  }

  /** Waiting for what follows a gap is in vain only if all the pieces asked for are there. */
  lemma RestIsAwaited(c: Config, s: State)
    requires c.Valid() && Sound(c, s) && c.TimeToPiece(c.afterSkip) < 0xFFFF_FFFF
    requires c.PieceToTime(After(c, s)) < c.afterSkip
    ensures var k := CutOff(c, Range(NextPiece(c, s), NextPiece(c, s) + c.TimeToPiece(c.afterSkip)));
      && !Passed(s, k)
      && (HasGap(c, s, k) <==> !(CurrentPiece(c, s) < c.pieces && After(c, s) == c.TimeToPiece(c.afterSkip)))
  {
    var next, after, q := NextPiece(c, s), After(c, s), c.TimeToPiece(c.afterSkip);
    PieceTimes(c, s.position, c.pieces + 1);
    NextPieceTime(c, c.pieces);
    PieceTimes(c, c.afterSkip, after);
    PieceTimes(c, c.afterSkip, q);
    RangeSizeOf(next, q);
    RangeSizeOf(c.pieces, q + 1);
    ProductOrder(q + 1, if after > q then after else q + 1, c.msPerPiece);
    assert after <= q;
    assert CurrentPiece(c, s) <= c.pieces && (CurrentPiece(c, s) == c.pieces ==> next == c.pieces + 1);
    hide RunFrom, RangeSize, Config.PieceToTime, Config.TimeToPiece;
  }

  lemma WaitForNeededPending(c: Config, s: State)
    requires c.Valid() && Sound(c, s) && s.playing && !s.paused && !Pending(s) && Hindered(c, s)
    requires NeededPiece(c, s) > CurrentPiece(c, s) ==> NeededPiece(c, s) < c.pieces
    ensures var s' := WaitForNeeded(c, s);
      && s'.playing
      && (Pending(s') <==> !(NeededPiece(c, s) == CurrentPiece(c, s) && c.PieceToTime(CurrentPiece(c, s)) < s.position))
  {
    NeededIsAwaited(c, s);
    AwaitedPending(c, s, Until(c.PieceToTime(NeededPiece(c, s))));
    hide Awaited, HasGap, Passed, CutOff, Sound, Hindered, CurrentPiece, NeededPiece, Config.PieceToTime;
  }

  lemma PreBufferPending(c: Config, s: State)
    requires c.Valid() && Sound(c, s) && s.playing && !s.paused && !Pending(s)
    ensures var s' := PreBuffer(c, s);
      && s'.playing
      && (Pending(s') <==> c.preBuffering > c.PieceToTime(RunFrom(s.have, CurrentPiece(c, s), true)))
  {
    HeldSound(c, s);
    hide Held, RunFrom, Sound, CurrentPiece, Config.PieceToTime;
  }

  lemma LeaveOutPending(c: Config, s: State)
    requires c.Valid() && Sound(c, s) && s.playing && !s.paused && !Pending(s) && c.TimeToPiece(c.afterSkip) < 0xFFFF_FFFF
    ensures var s' := LeaveOut(c, s);
      s'.playing && !Pending(s') <==>
      CurrentPiece(c, s) < c.pieces && After(c, s) == c.TimeToPiece(c.afterSkip) && c.PieceToTime(After(c, s)) < c.afterSkip
  {
    if c.PieceToTime(After(c, s)) < c.afterSkip {
      RestIsAwaited(c, s);
      AwaitedPending(c, s, Range(NextPiece(c, s), NextPiece(c, s) + c.TimeToPiece(c.afterSkip)));
    }
    hide Awaited, HasGap, Passed, CutOff, PositionSet, Sound, CurrentPiece, NextPiece, After, Config.PieceToTime, Config.TimeToPiece;
  }

  /** After a step without other timers, playback is on, with nothing that will ever move it, exactly if it stalls. */
  lemma StandstillIff(c: Config, s: State)
    requires c.Valid() && Sound(c, s) && s.playing && !s.paused && !Pending(s)
    requires c.TimeToPiece(c.afterSkip) < 0xFFFF_FFFF
    ensures var s' := Advanced(c, s); s'.playing && !Pending(s') <==> Stalls(c, s)
  {
    var current, needed := CurrentPiece(c, s), NeededPiece(c, s);
    if Hindered(c, s) && (needed > current ==> needed < c.pieces) {
      WaitForNeededPending(c, s);
      PreBufferPending(c, s);
      LeaveOutPending(c, s);
    }
    hide WaitForNeeded, PreBuffer, LeaveOut, RunFrom, Hindered, CurrentPiece, NeededPiece, ToSkip, After, PositionSet,
         Config.PieceToTime, Config.TimeToPiece;
  }

  /** With three pieces of a second each missing, and a second to be left out at most, nothing happens any more. */
  lemma StandstillExample()
    ensures var c := Config(5, 1000, 0, true, 1000, 1000);
            var s := Initial(c, 0).(now := 1000, playing := true, have := [true, false, false, false, true]);
            c.Valid() && Sound(c, s) && Stalls(c, s)
  {
    var have := [true, false, false, false, true];
    assert RunFrom(have, 4, false) == 0;
    assert RunFrom(have, 3, false) == 1;
    assert RunFrom(have, 2, false) == 2;
  }

  // ----- Buffering ends -----

  /** Who buffers has a timer that will end it, or look again. */
  predicate Waiting(s: State) {
    s.playing && s.buffering ==> s.check.Some? || s.elapsed.Some?
  }

  lemma BufferingWaits(c: Config, s: State, check: Check, period: nat)
    requires c.Valid()
    ensures Waiting(s) ==> Waiting(Awaited(c, s, check)) && Waiting(BufferedFor(c, s, period))
    ensures Waiting(BufferedTo(c, s, check))
  {
    hide HasGap, Passed, Config.PieceToTime;
  }

  lemma PositionSetWaits(c: Config, s: State, position: int)
    requires Waiting(s)
    ensures Waiting(PositionSet(c, s, position))
  {
    hide Config.PieceToTime;
  }

  lemma OvercomeWaits(c: Config, s: State)
    requires c.Valid() && s.lastChange <= s.now && Waiting(s)
    ensures Waiting(Overcome(c, s))
  {
    forall check, period ensures Waiting(Awaited(c, s, check)) && Waiting(BufferedFor(c, s, period)) {
      BufferingWaits(c, s, check, period);
    }
    forall p ensures Waiting(PositionSet(c, s, p)) { PositionSetWaits(c, s, p); }
    hide Awaited, BufferedFor, PositionSet, RunFrom, Config.PieceToTime, Config.TimeToPiece;
  }

  lemma AdvancedWaits(c: Config, s: State)
    requires c.Valid() && s.lastChange <= s.now && Waiting(s)
    ensures Waiting(Advanced(c, s))
  {
    OvercomeWaits(c, s);
    PositionSetWaits(c, s.Note(PositionWillChange), c.PieceToTime(NeededPiece(c, s)));
    hide Overcome, Hindered, PositionSet, Config.PieceToTime, Config.TimeToPiece;
  }

  /** A look at what has arrived is not followed by another one if the position has been passed meanwhile. */
  predicate GivesUp(c: Config, s: State, e: Event) {
    e.CheckDue? && s.playing && s.buffering && s.check.Some? && Passed(s, CutOff(c, s.check.value.check))
  }

  lemma BufferedWaits(c: Config, s: State, check: Check)
    requires c.Valid() && Sound(c, s)
    requires s.elapsed.None?
    ensures Waiting(Buffered(c, s, check)) <==> Waiting(s) || !Passed(s, CutOff(c, check))
  {
    var k := CutOff(c, check);
    BufferingWaits(c, s, k, 0);
    if s.playing {
      AdvancedWaits(c, s.(lastChange := s.now, paused := false, buffering := false, pausedUntil := 0, advance := None)
                       .Note(StateChanged));
    }
    hide Advanced, BufferedTo, HasGap, Passed, CutOff, Config.PieceToTime;
  }

  lemma BufferedKeepsWaiting(c: Config, s: State, check: Check)
    requires c.Valid() && Sound(c, s) && Waiting(s)
    ensures Waiting(Buffered(c, s, check))
  {
    BufferingWaits(c, s, CutOff(c, check), 0);
    if s.playing {
      AdvancedWaits(c, s.(lastChange := s.now, paused := false, buffering := false, pausedUntil := 0, advance := None)
                       .Note(StateChanged));
    }
    hide Advanced, BufferedTo, HasGap, Passed, CutOff, Config.PieceToTime;
  }

  lemma PlayedWaits(c: Config, s: State)
    requires c.Valid()
    ensures Waiting(Played(c, s))
  {
    var t := Rewound(c, s);
    var left := c.preBuffering - c.PieceToTime(RunFrom(t.have, 0, true));
    BufferingWaits(c, t, Until(0), if left > 0 then left else 0);
    AdvancedWaits(c, BufferedAtStart(c, t).(advance := None));
    hide Advanced, RunFrom, Config.PieceToTime;
  }

  /** Buffering is left without a timer exactly by a look that comes after the position has been passed. */
  lemma TimerRemainsIff(c: Config, s: State, e: Event)
    requires c.Valid() && Sound(c, s) && Waiting(s) && Enabled(s, e)
    ensures Waiting(Apply(c, s, e)) <==> !GivesUp(c, s, e)
  {
    match e {
      case Play => PlayedWaits(c, s);
      case UnPause => {
        if s.playing && !s.buffering {
          AdvancedWaits(c, s.(lastChange := s.now, paused := false, pausedUntil := 0, advance := None).Note(StateChanged));
        }
      }
      case Seek(position) => PositionSetWaits(c, s, position);
      case SeekToTheRight(keepPreBuffering) => PositionSetWaits(c, s, c.PieceToTime(RunFrom(s.have, 0, true)));
      case BufferFor(period) => BufferingWaits(c, s, Until(0), period);
      case Buffer(check) => BufferedKeepsWaiting(c, s, check);
      case AdvanceDue => AdvancedWaits(c, s.(advance := None));
      case CheckDue => BufferedWaits(c, s.(check := None), s.check.value.check);
      case ElapsedDue => {
        var t := s.(elapsed := None);
        AdvancedWaits(c, t.(lastChange := s.now, paused := false, buffering := false, pausedUntil := 0, advance := None)
                         .Note(StateChanged));
      }
      case _ => {}
    }
    hide Played, PositionSet, BufferedFor, Buffered, Advanced, CutOff, Passed, Config.PieceToTime, Config.TimeToPiece;
  }

  /** Playback is held for good: no timer is left, and a user cannot end what the program began. */
  predicate Stranded(s: State) {
    s.playing && s.paused && s.buffering && !Pending(s)
  }

  lemma StrandedStays(c: Config, s: State, e: Event)
    requires c.Valid() && s.lastChange <= s.now && Stranded(s) && Enabled(s, e)
    requires e.Pause? || e.UnPause? || e.PieceArrives? || e.Tick? || e.AdvanceDue? || e.CheckDue? || e.ElapsedDue?
    ensures Stranded(Apply(c, s, e))
  {
    hide Config.PieceToTime;
  }

  /** To seek beyond the position that is waited for strands playback at the next look. */
  lemma SeekingStrands(c: Config, s: State, p: nat, at: nat, q: nat)
    requires c.Valid() && Sound(c, s) && s.playing && s.buffering && s.check == Some(Timed(at, Until(p))) && at <= s.now
    requires p < q <= c.TotalLength()
    ensures var t := Apply(c, s, Seek(q)); Enabled(t, CheckDue) && Stranded(Apply(c, t, CheckDue))
  {
    hide HasGap, Advanced, Config.PieceToTime;
  }

  // ----- What buffering waits for -----

  lemma RunReaches(have: seq<bool>, from: nat, n: nat)
    requires from <= |have|
    ensures RunFrom(have, from, true) >= n <==> AllAre(have, from, from + n, true)
  {
    RunIsMaximal(have, from, true);
  }

  /**
   A position that playback has not passed is waited for exactly while one of the pieces up to it, and
   including its own, is missing; the end of the video is in no piece.
   */
  lemma UntilWaitsIff(c: Config, s: State, p: nat)
    requires c.Valid() && Sound(c, s) && s.position <= p
    ensures HasGap(c, s, CutOff(c, Until(p)))
       <==> p >= c.TotalLength() || !AllAre(s.have, CurrentPiece(c, s), c.TimeToPiece(p) + 1, true)
  {
    var k := if p > c.TotalLength() then c.TotalLength() else p;
    var current, last := CurrentPiece(c, s), c.TimeToPiece(k);
    PieceTimes(c, s.position, c.pieces + 1);
    NextPieceTime(c, c.pieces);
    PieceTimes(c, k, c.pieces);
    PieceTimes(c, p, c.pieces);
    PieceTimes(c, s.position, last + 1);
    RunReaches(s.have, current, last - current + 1);
    hide RunFrom, Config.PieceToTime, Config.TimeToPiece;
  }

  /** A range is waited for exactly while one of its pieces is missing, or does not exist. */
  lemma RangeWaitsIff(c: Config, s: State, a: nat, b: nat)
    requires c.Valid() && Sound(c, s)
    ensures var start := if a > c.pieces then c.pieces else a;
      HasGap(c, s, CutOff(c, Range(a, b)))
      <==> RangeSize(start, b) > c.pieces - start || !AllAre(s.have, start, start + RangeSize(start, b), true)
  {
    var start := if a > c.pieces then c.pieces else a;
    RunReaches(s.have, start, RangeSize(start, b));
    hide RunFrom, RangeSize, Config.PieceToTime;
  }

  /** The pieces that a check asks for exist. */
  predicate CanEnd(c: Config, check: Check)
    requires c.Valid()
  {
    match check
    case Until(position) => position < c.TotalLength()
    case Range(start, end) =>
      var first := if start > c.pieces then c.pieces else start;
      RangeSize(first, end) <= c.pieces - first
  }

  ghost predicate AllThere(c: Config, s: State) {
    AllAre(s.have, 0, c.pieces, true)
  }

  /** A check that has not been passed is met by the complete video if and only if its pieces exist. */
  lemma CompleteVideoEndsIff(c: Config, s: State, check: Check)
    requires c.Valid() && Sound(c, s) && AllThere(c, s) && !Passed(s, CutOff(c, check))
    ensures HasGap(c, s, CutOff(c, check)) <==> !CanEnd(c, check)
  {
    match check {
      case Until(p) => {
        UntilWaitsIff(c, s, p);
        PieceTimes(c, p, c.pieces);
      }
      case Range(a, b) => RangeWaitsIff(c, s, a, b);
    }
    hide RunFrom, RangeSize, HasGap, Config.PieceToTime, Config.TimeToPiece;
  }

  /** If they do not exist, no pieces whatever meet the check. */
  lemma EndlessHasGap(c: Config, s: State, check: Check)
    requires c.Valid() && Sound(c, s) && !CanEnd(c, check)
    ensures !Passed(s, CutOff(c, check)) && HasGap(c, s, CutOff(c, check)) && !CanEnd(c, CutOff(c, check))
  {
    match check {
      case Until(p) => UntilWaitsIff(c, s, p);
      case Range(a, b) => RangeWaitsIff(c, s, a, b);
    }
    hide RunFrom, RangeSize, HasGap, Config.PieceToTime, Config.TimeToPiece;
  }

  /** With all pieces there, resuming inside the video is the end of buffering. */
  lemma ResumedPlays(c: Config, s: State)
    requires c.Valid() && Sound(c, s) && s.playing && AllThere(c, s) && s.position < c.TotalLength()
    ensures !Resumed(c, s).buffering && !Resumed(c, s).paused && Resumed(c, s).advance.Some?
  {
    var t := s.(lastChange := s.now, paused := false, buffering := false, pausedUntil := 0, advance := None).Note(StateChanged);
    PieceTimes(c, s.position, c.pieces);
    RunReaches(t.have, CurrentPiece(c, t), 1);
    assert NeededPiece(c, t) == CurrentPiece(c, t) < c.pieces;
    hide RunFrom, Overcome, PositionSet, Config.PieceToTime, Config.TimeToPiece;
  }

  /**
   Once all pieces are there, the next look ends buffering inside the video if and only if the position
   waited for has not been passed and the pieces asked for exist.
   */
  lemma BufferingEndsIff(c: Config, s: State)
    requires c.Valid() && Sound(c, s) && s.playing && s.buffering && Enabled(s, CheckDue)
    requires AllThere(c, s) && s.position < c.TotalLength()
    ensures !Apply(c, s, CheckDue).buffering
       <==> !Passed(s, CutOff(c, s.check.value.check)) && CanEnd(c, s.check.value.check)
  {
    var check, t := s.check.value.check, s.(check := None);
    if !Passed(t, CutOff(c, check)) {
      CompleteVideoEndsIff(c, t, check);
    }
    ResumedPlays(c, t);
    BufferedToSound(c, t, CutOff(c, check));
    BufferedToBuffers(c, t, CutOff(c, check));
    hide CanEnd, HasGap, CutOff, BufferedTo, Resumed, Sound, AllThere, Config.PieceToTime;
  }

  lemma BufferedToBuffers(c: Config, s: State, check: Check)
    requires s.paused
    ensures BufferedTo(c, s, check).buffering == s.buffering && BufferedTo(c, s, check).position == s.position
    ensures BufferedTo(c, s, check) == s.(elapsed := None, check := Some(Timed(s.now + c.msPerPiece, check)),
                                          pausedUntil := s.now + c.TotalLength())
  {
    hide Config.PieceToTime;
  }

  /** Buffering for a time always ends, and for good if all pieces are there. */
  lemma BufferingForTimeEnds(c: Config, s: State)
    requires c.Valid() && Sound(c, s) && s.playing && Enabled(s, ElapsedDue)
    requires AllThere(c, s) && s.position < c.TotalLength()
    ensures !Apply(c, s, ElapsedDue).buffering && Apply(c, s, ElapsedDue).advance.Some?
  {
    ResumedPlays(c, s.(elapsed := None));
    hide Resumed, Config.PieceToTime;
  }

  /** Playback is held for pieces that do not exist. */
  predicate HeldForEver(c: Config, s: State)
    requires c.Valid()
  {
    && s.playing && s.paused && s.buffering && s.advance.None? && s.elapsed.None?
    && s.check.Some? && !CanEnd(c, s.check.value.check)
  }

  /** Neither time nor pieces nor the user's pause and unpause are intervention enough. */
  predicate NoIntervention(e: Event) {
    e.Pause? || e.UnPause? || e.PieceArrives? || e.Tick? || e.AdvanceDue? || e.CheckDue? || e.ElapsedDue?
  }

  lemma HeldForEverStep(c: Config, s: State, e: Event)
    requires c.Valid() && Sound(c, s) && HeldForEver(c, s) && Enabled(s, e) && NoIntervention(e)
    ensures HeldForEver(c, Apply(c, s, e)) && Apply(c, s, e).position == s.position
  {
    if e.CheckDue? {
      var check, t := s.check.value.check, s.(check := None);
      EndlessHasGap(c, t, check);
      BufferedToBuffers(c, t, CutOff(c, check));
      hide BufferedTo, CutOff;
    }
    hide CanEnd, HasGap, Resumed, Passed, Config.PieceToTime;
  }

  /** Then playback stays where it is for ever, whatever pieces arrive. */
  lemma {:induction false} HeldForEverStays(c: Config, states: seq<State>, events: seq<Event>, i: nat)
    requires c.Valid() && IsRun(c, states, events) && i < |states| && HeldForEver(c, states[0])
    requires forall j :: 0 <= j < i ==> NoIntervention(events[j])
    ensures HeldForEver(c, states[i]) && states[i].position == states[0].position
  {
    hide Apply, Enabled, HeldForEver, NoIntervention, Sound;
    if i > 0 {
      HeldForEverStays(c, states, events, i - 1);
      EveryReachableStateSound(c, states, events, i - 1);
      HeldForEverStep(c, states[i - 1], events[i - 1]);
    }
  }

  /** Of the waits that playback itself begins, the one for the needed piece can end unless playback is at the end. */
  lemma WaitForNeededCanEndIff(c: Config, s: State)
    requires c.Valid() && Sound(c, s)
    ensures CanEnd(c, Until(c.PieceToTime(NeededPiece(c, s)))) <==> NeededPiece(c, s) < c.pieces
  {
    PieceTimes(c, c.PieceToTime(NeededPiece(c, s)), c.pieces);
    PieceTimes(c, 0, NeededPiece(c, s));
    hide Config.PieceToTime, Config.TimeToPiece;
  }

  /** The one for what follows a gap can end if and only if the video is long enough behind the gap. */
  lemma LeaveOutCanEndIff(c: Config, s: State)
    requires c.Valid() && Sound(c, s) && c.TimeToPiece(c.afterSkip) < 0xFFFF_FFFF
    ensures var next, q := NextPiece(c, s), c.TimeToPiece(c.afterSkip);
            CanEnd(c, Range(next, next + q)) <==> next + q <= c.pieces
  {
    var next, q := NextPiece(c, s), c.TimeToPiece(c.afterSkip);
    PieceTimes(c, s.position, c.pieces + 1);
    NextPieceTime(c, c.pieces);
    RangeSizeOf(next, q);
    RangeSizeOf(c.pieces, q + 1);
    assert next <= c.pieces + 1;
    hide RunFrom, RangeSize, Config.PieceToTime, Config.TimeToPiece;
  }

  /** A hindered step waits for pieces behind the end of the video. */
  predicate WaitsBehindEnd(c: Config, s: State)
    requires c.Valid() && s.lastChange <= s.now
  {
    && Hindered(c, s) && (NeededPiece(c, s) > CurrentPiece(c, s) ==> NeededPiece(c, s) < c.pieces)
    && if !c.missable then CurrentPiece(c, s) == c.pieces
       else
         && c.PieceToTime(ToSkip(c, s)) <= c.skipTolerance && c.PieceToTime(After(c, s)) < c.afterSkip
         && NextPiece(c, s) + c.TimeToPiece(c.afterSkip) > c.pieces
  }

  lemma AwaitedHolds(c: Config, s: State, check: Check)
    requires c.Valid() && Sound(c, s) && s.playing && !s.paused && !Pending(s)
    ensures !CanEnd(c, check) ==> HeldForEver(c, Awaited(c, s, check))
    ensures CanEnd(c, check) ==> !HeldForEver(c, Awaited(c, s, check))
  {
    if !CanEnd(c, check) {
      EndlessHasGap(c, s, check);
    }
    HeldSound(c, s);
    CutOffKeepsEnd(c, check);
    hide Held, CanEnd, HasGap, Passed, CutOff, Config.PieceToTime;
  }

  lemma CutOffKeepsEnd(c: Config, check: Check)
    requires c.Valid()
    ensures CanEnd(c, CutOff(c, check)) <==> CanEnd(c, check)
  {
    hide RangeSize, Config.PieceToTime;
  }

  lemma WaitForNeededHolds(c: Config, s: State)
    requires c.Valid() && Sound(c, s) && s.playing && !s.paused && !Pending(s) && Hindered(c, s)
    requires NeededPiece(c, s) > CurrentPiece(c, s) ==> NeededPiece(c, s) < c.pieces
    ensures HeldForEver(c, WaitForNeeded(c, s)) <==> CurrentPiece(c, s) == c.pieces
  {
    NeededIsAwaited(c, s);
    WaitForNeededCanEndIff(c, s);
    AwaitedHolds(c, s, Until(c.PieceToTime(NeededPiece(c, s))));
    PieceTimes(c, s.position, c.pieces + 1);
    NextPieceTime(c, c.pieces);
    hide Awaited, CanEnd, HasGap, Passed, CutOff, Hindered, CurrentPiece, NeededPiece, Config.PieceToTime, Config.TimeToPiece;
    CurrentIs(c, s);
    assert c.TimeToPiece(s.position) <= c.pieces;
  }

  lemma CurrentIs(c: Config, s: State)
    requires c.Valid()
    ensures CurrentPiece(c, s) == c.TimeToPiece(s.position)
  {
  }

  lemma PreBufferHolds(c: Config, s: State)
    requires c.Valid() && Sound(c, s) && s.playing && !s.paused && !Pending(s)
    ensures !HeldForEver(c, PreBuffer(c, s))
  {
    hide Held, CanEnd, RunFrom, CurrentPiece, Config.PieceToTime;
  }

  lemma LeaveOutHolds(c: Config, s: State)
    requires c.Valid() && Sound(c, s) && s.playing && !s.paused && !Pending(s) && c.TimeToPiece(c.afterSkip) < 0xFFFF_FFFF
    ensures HeldForEver(c, LeaveOut(c, s)) <==>
      c.PieceToTime(After(c, s)) < c.afterSkip && NextPiece(c, s) + c.TimeToPiece(c.afterSkip) > c.pieces
  {
    LeaveOutCanEndIff(c, s);
    AwaitedHolds(c, s, Range(NextPiece(c, s), NextPiece(c, s) + c.TimeToPiece(c.afterSkip)));
    hide Awaited, CanEnd, PositionSet, Sound, CurrentPiece, NextPiece, After, Config.PieceToTime, Config.TimeToPiece;
  }

  /** A step of playback leads into a wait without end exactly if it waits for pieces behind the end. */
  lemma HeldForEverIff(c: Config, s: State)
    requires c.Valid() && Sound(c, s) && s.playing && !s.paused && !Pending(s)
    requires c.TimeToPiece(c.afterSkip) < 0xFFFF_FFFF
    ensures HeldForEver(c, Advanced(c, s)) <==> WaitsBehindEnd(c, s)
  {
    var current, needed := CurrentPiece(c, s), NeededPiece(c, s);
    if Hindered(c, s) && (needed > current ==> needed < c.pieces) {
      WaitForNeededHolds(c, s);
      PreBufferHolds(c, s);
      LeaveOutHolds(c, s);
    }
    hide WaitForNeeded, PreBuffer, LeaveOut, CanEnd, RunFrom, Hindered, CurrentPiece, NeededPiece, NextPiece, ToSkip, After,
         PositionSet, Config.PieceToTime, Config.TimeToPiece;
  }

  /** A video of five seconds, and 15 seconds of playback required behind a gap. */
  const SHORT_VIDEO := Config(5, 1000, 0, true, 1000, 15000)

  /** Playback has come to its third second, of a video whose fourth is missing. */
  function BeforeGap(): State {
    Initial(SHORT_VIDEO, 0).(now := 1000, position := 2000, playing := true, have := [true, true, true, false, true])
  }

  /** It waits for the pieces 4 to 18, although there are five. */
  lemma ShortRestExample()
    ensures SHORT_VIDEO.Valid() && Sound(SHORT_VIDEO, BeforeGap())
    ensures var t := Advanced(SHORT_VIDEO, BeforeGap());
      t.check == Some(Timed(2000, Range(4, 19))) && t.position == 2000 && t.now == 1000 && HeldForEver(SHORT_VIDEO, t)
  {
    hide RunFrom;
    RunsAroundGap();
  }

  lemma RunsAroundGap()
    ensures var have := BeforeGap().have;
            RunFrom(have, 3, true) == 0 && RunFrom(have, 3, false) == 1 && RunFrom(have, 4, true) == 1
  {
    var have := BeforeGap().have;
    assert RunFrom(have, 4, false) == 0;
    assert RunFrom(have, 5, true) == 0;
  }

  /** And it goes on to do so when it has all five. */
  lemma ShortRestGoesOn(s: State)
    requires Sound(SHORT_VIDEO, s) && HeldForEver(SHORT_VIDEO, s) && AllThere(SHORT_VIDEO, s) && Enabled(s, CheckDue)
    requires s.check.value.check == Range(4, 19)
    ensures Apply(SHORT_VIDEO, s, CheckDue).check == Some(Timed(s.now + 1000, Range(4, 19)))
    ensures Apply(SHORT_VIDEO, s, CheckDue).position == s.position && HeldForEver(SHORT_VIDEO, Apply(SHORT_VIDEO, s, CheckDue))
  {
    var t := s.(check := None);
    HeldForEverStep(SHORT_VIDEO, s, CheckDue);
    EndlessHasGap(SHORT_VIDEO, t, Range(4, 19));
    BufferedToBuffers(SHORT_VIDEO, t, Range(4, 19));
    hide HasGap, HeldForEver, BufferedTo, Resumed;
  }

  // ----- Playback and time -----

  /** How far playback could be by now. */
  function Reach(s: State): int {
    s.position + if s.playing && !s.paused then s.now - s.lastChange else 0
  }

  /** The time of a step that counts for playback. */
  function PlayingTime(s: State, e: Event): nat {
    if e.Tick? && s.playing && !s.paused then e.ms else 0
  }

  /** The time only goes back to the present, and does so whenever the position changes. */
  ghost predicate Timely(s: State, s': State) {
    s'.now == s.now && s'.lastChange >= s.lastChange && (s'.position != s.position ==> s'.lastChange == s.now)
  }

  lemma BufferingTimely(c: Config, s: State, check: Check, period: nat)
    requires c.Valid() && s.lastChange <= s.now
    ensures Timely(s, Awaited(c, s, check)) && Timely(s, BufferedFor(c, s, period)) && Timely(s, BufferedTo(c, s, check))
  {
    hide HasGap, Passed, Config.PieceToTime;
  }

  lemma OvercomeTimely(c: Config, s: State)
    requires c.Valid() && s.lastChange <= s.now
    ensures Timely(s, Overcome(c, s))
  {
    forall check, period ensures Timely(s, Awaited(c, s, check)) && Timely(s, BufferedFor(c, s, period)) {
      BufferingTimely(c, s, check, period);
    }
    hide Awaited, BufferedFor, RunFrom, Config.PieceToTime, Config.TimeToPiece;
  }

  lemma AdvancedTimely(c: Config, s: State)
    requires c.Valid() && s.lastChange <= s.now
    ensures Timely(s, Advanced(c, s))
  {
    OvercomeTimely(c, s);
    hide Overcome, Hindered, Config.PieceToTime, Config.TimeToPiece;
  }

  lemma AdvancedReach(c: Config, s: State)
    requires c.Valid() && Sound(c, s) && Advanced(c, s).skips == s.skips
    ensures Reach(Advanced(c, s)) <= Reach(s)
  {
    AdvancedTimely(c, s);
    if s.playing && !s.paused {
      AdvancedMoves(c, s);
    }
    hide Overcome, Hindered, PositionSet, AllAre, Config.PieceToTime, Config.TimeToPiece;
  }

  lemma BufferedCases(c: Config, s: State, check: Check)
    requires c.Valid()
    ensures var r := Buffered(c, s, check);
            r == s || r == BufferedTo(c, s, CutOff(c, check)) || (s.playing && r == Resumed(c, s))
  {
    hide BufferedTo, Resumed, HasGap, Passed, CutOff;
  }

  lemma BufferedReach(c: Config, s: State, check: Check)
    requires c.Valid() && Sound(c, s) && Buffered(c, s, check).skips == s.skips
    ensures Reach(Buffered(c, s, check)) <= Reach(s)
  {
    BufferedCases(c, s, check);
    BufferedToReach(c, s, CutOff(c, check));
    hide Buffered, BufferedTo, Resumed, CutOff, Reach;
    if Buffered(c, s, check) == Resumed(c, s) {
      ResumedReach(c, s);
    }
  }

  lemma BufferedToReach(c: Config, s: State, check: Check)
    requires Sound(c, s)
    ensures BufferedTo(c, s, check).position == s.position && Reach(BufferedTo(c, s, check)) <= Reach(s)
  {
    hide Config.PieceToTime;
  }

  lemma ResumedReach(c: Config, s: State)
    requires c.Valid() && Sound(c, s) && Resumed(c, s).skips == s.skips
    ensures Reach(Resumed(c, s)) <= Reach(s)
  {
    var t := s.(lastChange := s.now, paused := false, buffering := false, pausedUntil := 0, advance := None).Note(StateChanged);
    AdvancedReach(c, t);
    hide Advanced, Config.PieceToTime;
  }

  lemma UnPausedReach(c: Config, s: State)
    requires c.Valid() && Sound(c, s) && UnPaused(c, s).skips == s.skips
    ensures Reach(UnPaused(c, s)) <= Reach(s)
  {
    if s.playing && !s.buffering {
      var t := s.(lastChange := s.now, paused := false, pausedUntil := 0, advance := None).Note(StateChanged);
      AdvancedReach(c, t);
    }
    hide Advanced, Config.PieceToTime;
  }

  lemma BufferedForReach(c: Config, s: State, period: nat)
    requires Sound(c, s)
    ensures Reach(BufferedFor(c, s, period)) <= Reach(s)
  {
    hide Config.PieceToTime;
  }

  lemma StepReach(c: Config, s: State, e: Event)
    requires c.Valid() && Sound(c, s) && Enabled(s, e) && !e.Play? && !e.Seek? && !e.SeekRelative? && !e.SeekToTheRight?
    requires Apply(c, s, e).skips == s.skips
    ensures Reach(Apply(c, s, e)) <= Reach(s) + PlayingTime(s, e)
  {
    match e {
      case UnPause => UnPausedReach(c, s);
      case BufferFor(period) => BufferedForReach(c, s, period);
      case Buffer(check) => BufferedReach(c, s, check);
      case AdvanceDue => AdvancedReach(c, s.(advance := None));
      case CheckDue => BufferedReach(c, s.(check := None), s.check.value.check);
      case ElapsedDue => ResumedReach(c, s.(elapsed := None));
      case _ => {}
    }
    hide UnPaused, BufferedFor, Buffered, Advanced, Resumed, Config.PieceToTime;
  }

  function TotalPlayingTime(states: seq<State>, events: seq<Event>, i: nat): nat
    requires i <= |events| && |states| == |events| + 1
  {
    if i == 0 then 0 else TotalPlayingTime(states, events, i - 1) + PlayingTime(states[i - 1], events[i - 1])
  }

  /** Between seeks and skips, playback never gets ahead of the time that has passed while it was not paused. */
  lemma {:induction false} NeverAheadOfTime(c: Config, states: seq<State>, events: seq<Event>, i: nat)
    requires c.Valid() && IsRun(c, states, events) && i < |states|
    requires forall j :: 0 <= j < i ==>
      !events[j].Play? && !events[j].Seek? && !events[j].SeekRelative? && !events[j].SeekToTheRight?
    requires forall j :: 0 <= j < i ==> states[j + 1].skips == states[j].skips
    ensures states[i].position <= Reach(states[i]) <= Reach(states[0]) + TotalPlayingTime(states, events, i)
  {
    hide Apply, Enabled, PlayingTime;
    EveryReachableStateSound(c, states, events, i);
    if i > 0 {
      NeverAheadOfTime(c, states, events, i - 1);
      EveryReachableStateSound(c, states, events, i - 1);
      StepReach(c, states[i - 1], events[i - 1]);
    }
  }

  // ----- Playback keeps up with time -----

  /** The pieces that are due are missing: those behind the current one up to the needed one, or the current one. */
  lemma HinderedIff(c: Config, s: State)
    requires c.Valid() && Sound(c, s)
    ensures Hindered(c, s) <==>
      if NeededPiece(c, s) > CurrentPiece(c, s) then !AllAre(s.have, CurrentPiece(c, s) + 1, NeededPiece(c, s) + 1, true)
      else !(CurrentPiece(c, s) < c.pieces && s.have[CurrentPiece(c, s)])
  {
    var current, needed := CurrentPiece(c, s), NeededPiece(c, s);
    PieceTimes(c, s.position, c.pieces + 1);
    NextPieceTime(c, c.pieces);
    hide CurrentPiece, NeededPiece, Config.PieceToTime, Config.TimeToPiece;
    CurrentIs(c, s);
    RunIsMaximal(s.have, current + 1, true);
    RunIsMaximal(s.have, current, true);
    hide RunFrom;
  }

  /** The next step, if one is set, comes after the time of a piece. */
  lemma AdvancedTimer(c: Config, s: State)
    requires c.Valid() && s.lastChange <= s.now && s.advance.None?
    ensures Advanced(c, s).advance.Some? ==> Advanced(c, s).advance == Some(s.now + c.msPerPiece)
  {
    OvercomeTimer(c, s);
    hide Overcome, Hindered, RunFrom, Config.PieceToTime, Config.TimeToPiece;
  }

  lemma OvercomeTimer(c: Config, s: State)
    requires c.Valid() && s.lastChange <= s.now && s.advance.None?
    ensures Overcome(c, s).advance.Some? ==> Overcome(c, s).advance == Some(s.now + c.msPerPiece)
  {
    hide Overcome, BufferedFor, Awaited, PositionSet, NextPiece, CurrentPiece, Config.PieceToTime;
    OvercomeCases(c, s);
    forall check ensures Awaited(c, s, check).advance.None? { BufferingTimer(c, s, check, 0); }
    forall period: nat ensures BufferedFor(c, s, period).advance.None? { BufferingTimer(c, s, Until(0), period); }
    SkippedTimer(c, s, NextPiece(c, s));
    hide Skipped;
  }

  /** The ways in which a hindered step can end. */
  lemma OvercomeCases(c: Config, s: State)
    requires c.Valid() && s.lastChange <= s.now
    ensures var t := Overcome(c, s);
      || (exists check :: t == Awaited(c, s, check).Note(CannotAdvance))
      || (exists period: nat :: t == BufferedFor(c, s, period).Note(CannotAdvance))
      || t == s || t == Skipped(c, s, NextPiece(c, s))
  {
    hide Awaited, BufferedFor, Skipped, RunFrom, NeededPiece, NextPiece, After, ToSkip, CurrentPiece, Config.PieceToTime,
         Config.TimeToPiece;
  }

  lemma SkippedTimer(c: Config, s: State, next: nat)
    requires c.Valid()
    ensures Skipped(c, s, next).advance == Some(s.now + c.msPerPiece) && Skipped(c, s, next).now == s.now
    ensures Skipped(c, s, next).check.Some? ==> Skipped(c, s, next).check == s.check
  {
    hide CurrentPiece, Config.PieceToTime;
  }

  lemma BufferingTimer(c: Config, s: State, check: Check, period: nat)
    requires c.Valid() && s.advance.None?
    ensures Awaited(c, s, check).advance.None? && BufferedFor(c, s, period).advance.None?
  {
    hide HasGap, Passed, Config.PieceToTime;
  }

  /** Advance and look again are never further away than the time of a piece. */
  ghost predicate TimersSoon(c: Config, s: State) {
    && (s.advance.Some? ==> s.advance.value <= s.now + c.msPerPiece)
    && (s.check.Some? ==> s.check.value.at <= s.now + c.msPerPiece)
  }

  lemma BufferingSoon(c: Config, s: State, check: Check, period: nat)
    requires c.Valid() && TimersSoon(c, s)
    ensures TimersSoon(c, Awaited(c, s, check)) && TimersSoon(c, BufferedFor(c, s, period)) && TimersSoon(c, BufferedTo(c, s, check))
  {
    hide HasGap, Passed, Config.PieceToTime;
  }

  lemma OvercomeSoon(c: Config, s: State)
    requires c.Valid() && s.lastChange <= s.now && TimersSoon(c, s)
    ensures TimersSoon(c, Overcome(c, s))
  {
    hide Overcome, BufferedFor, Awaited, PositionSet, NextPiece, CurrentPiece, Config.PieceToTime;
    OvercomeCases(c, s);
    forall check ensures TimersSoon(c, Awaited(c, s, check)) { BufferingSoon(c, s, check, 0); }
    forall period: nat ensures TimersSoon(c, BufferedFor(c, s, period)) { BufferingSoon(c, s, Until(0), period); }
    SkippedTimer(c, s, NextPiece(c, s));
    hide Skipped;
  }

  lemma AdvancedSoon(c: Config, s: State)
    requires c.Valid() && s.lastChange <= s.now && TimersSoon(c, s)
    ensures TimersSoon(c, Advanced(c, s))
  {
    OvercomeSoon(c, s);
    hide Overcome, Hindered, RunFrom, Config.PieceToTime, Config.TimeToPiece;
  }

  lemma ResumedSoon(c: Config, s: State)
    requires c.Valid() && TimersSoon(c, s)
    ensures TimersSoon(c, Resumed(c, s)) && TimersSoon(c, UnPaused(c, s))
  {
    var t := s.(lastChange := s.now, paused := false, buffering := false, pausedUntil := 0, advance := None).Note(StateChanged);
    AdvancedSoon(c, t);
    var u := s.(lastChange := s.now, paused := false, pausedUntil := 0, advance := None).Note(StateChanged);
    AdvancedSoon(c, u);
    hide Advanced;
  }

  lemma BufferedSoon(c: Config, s: State, check: Check)
    requires c.Valid() && TimersSoon(c, s)
    ensures TimersSoon(c, Buffered(c, s, check))
  {
    hide BufferedFor, BufferedTo, Awaited, Buffered, Resumed, UnPaused, CutOff, TimersSoon;
    BufferedCases(c, s, check);
    BufferingSoon(c, s, CutOff(c, check), 0);
    ResumedSoon(c, s);
  }

  lemma PlayedSoon(c: Config, s: State)
    requires c.Valid() && TimersSoon(c, s)
    ensures TimersSoon(c, Played(c, s))
  {
    var t := Rewound(c, s);
    var left := c.preBuffering - c.PieceToTime(RunFrom(t.have, 0, true));
    BufferingSoon(c, t, Until(0), if left > 0 then left else 0);
    AdvancedSoon(c, BufferedAtStart(c, t).(advance := None));
    hide Advanced, BufferedFor, RunFrom, Config.PieceToTime;
  }

  lemma ApplySoon(c: Config, s: State, e: Event)
    requires c.Valid() && Enabled(s, e) && s.lastChange <= s.now && TimersSoon(c, s)
    ensures TimersSoon(c, Apply(c, s, e))
  {
    match e {
      case Play => PlayedSoon(c, s);
      case UnPause => ResumedSoon(c, s);
      case BufferFor(period) => BufferingSoon(c, s, Until(0), period);
      case Buffer(check) => BufferedSoon(c, s, check);
      case AdvanceDue => AdvancedSoon(c, s.(advance := None));
      case CheckDue => BufferedSoon(c, s.(check := None), s.check.value.check);
      case ElapsedDue => ResumedSoon(c, s.(elapsed := None));
      case _ => {}
    }
    hide Played, UnPaused, BufferedFor, BufferedTo, Buffered, Advanced, Resumed, CutOff, Config.PieceToTime, Config.TimeToPiece;
  }

  /** In every reachable state the next step and the next look are at most the time of a piece away. */
  lemma {:induction false} EveryReachableTimerSoon(c: Config, states: seq<State>, events: seq<Event>, i: nat)
    requires c.Valid() && IsRun(c, states, events) && i < |states| && TimersSoon(c, states[0])
    ensures TimersSoon(c, states[i])
  {
    hide Apply, Enabled, TimersSoon, Sound;
    if i > 0 {
      EveryReachableTimerSoon(c, states, events, i - 1);
      ApplySoon(c, states[i - 1], events[i - 1]);
    }
  }

  /** Playback inside the video that is not held has its next step before it could be two pieces behind. */
  ghost predicate OnTime(c: Config, s: State) {
    s.playing ==>
      && s.position < c.TotalLength()
      && (!s.paused ==> s.advance.Some? && s.now <= s.advance.value < s.lastChange + 2 * c.msPerPiece)
  }

  lemma UnhinderedStep(c: Config, s: State)
    requires c.Valid() && Sound(c, s) && s.playing && !s.paused && AllThere(c, s) && s.position < c.TotalLength()
    ensures var t, current, needed := Advanced(c, s), CurrentPiece(c, s), NeededPiece(c, s);
      if needed >= c.pieces then !t.playing
      else
        && t.playing && !t.paused && t.position < c.TotalLength() && t.now == s.now && t.have == s.have
        && t.advance == Some(s.now + c.msPerPiece) && s.now < t.lastChange + c.msPerPiece
        && t.position == if needed > current then c.PieceToTime(needed) else s.position
  {
    var due := s.position + s.now - s.lastChange;
    var current, needed := CurrentPiece(c, s), NeededPiece(c, s);
    PieceTimes(c, s.position, c.pieces);
    PieceTimes(c, due, c.pieces);
    PieceTimes(c, due, current);
    PieceTimes(c, c.PieceToTime(needed), c.pieces);
    NextPieceTime(c, current);
    HinderedIff(c, s);
    assert !Hindered(c, s) || needed >= c.pieces;
    hide Hindered, Overcome, RunFrom, Config.PieceToTime, Config.TimeToPiece;
  }

  lemma AdvancedOnTime(c: Config, s: State)
    requires c.Valid() && Sound(c, s) && AllThere(c, s)
    requires s.playing ==> s.position < c.TotalLength()
    ensures s.playing && !s.paused ==> OnTime(c, Advanced(c, s))
  {
    if s.playing && !s.paused {
      UnhinderedStep(c, s);
    }
    hide Advanced, CurrentPiece, NeededPiece, Config.PieceToTime;
  }

  lemma ResumedOnTime(c: Config, s: State)
    requires c.Valid() && Sound(c, s) && AllThere(c, s) && OnTime(c, s)
    ensures OnTime(c, Resumed(c, s)) && OnTime(c, UnPaused(c, s))
  {
    AdvancedOnTime(c, s.(lastChange := s.now, paused := false, buffering := false, pausedUntil := 0, advance := None)
                       .Note(StateChanged));
    if s.playing && !s.buffering {
      AdvancedOnTime(c, s.(lastChange := s.now, paused := false, pausedUntil := 0, advance := None).Note(StateChanged));
    }
    hide Advanced, Config.PieceToTime;
  }

  lemma PlayedOnTime(c: Config, s: State)
    requires c.Valid() && Sound(c, s) && AllThere(c, s)
    ensures OnTime(c, Played(c, s))
  {
    var t := Rewound(c, s);
    SomeLength(c);
    var left := c.preBuffering - c.PieceToTime(RunFrom(t.have, 0, true));
    BufferedForSound(c, t, if left > 0 then left else 0);
    var u := BufferedAtStart(c, t).(advance := None);
    assert u.position == 0;
    AdvancedOnTime(c, u);
    hide Advanced, RunFrom, BufferedFor, Config.PieceToTime;
  }

  lemma SomeLength(c: Config)
    requires c.Valid()
    ensures c.TotalLength() > 0
  {
    ProductOrder(1, c.pieces, c.msPerPiece);
  }

  /** Time does not pass a due step, and the user does not seek to the very end. */
  predicate Punctual(c: Config, s: State, e: Event, t: State) {
    && (e.Tick? && s.advance.Some? ==> t.now <= s.advance.value)
    && (e.Seek? || e.SeekRelative? || e.SeekToTheRight? ==> t.playing ==> t.position < c.TotalLength())
  }

  lemma SeekTimers(c: Config, s: State, position: int)
    requires s.lastChange <= s.now
    ensures var t := PositionSet(c, s, position);
      t.playing ==> s.playing && t.paused == s.paused && t.advance == s.advance && t.now == s.now && t.lastChange >= s.lastChange
  {
    hide Config.PieceToTime;
  }

  lemma RelativeSeekTimers(c: Config, s: State, change: int)
    requires c.Valid() && s.lastChange <= s.now
    ensures var t := PositionMoved(c, s, change);
      t.playing ==> s.playing && t.paused == s.paused && t.advance == s.advance && t.now == s.now && t.lastChange >= s.lastChange
  {
    hide Config.PieceToTime, Config.TimeToPiece;
  }

  lemma SeekOnTime(c: Config, s: State, e: Event)
    requires c.Valid() && Sound(c, s) && OnTime(c, s) && (e.Seek? || e.SeekRelative? || e.SeekToTheRight?)
    requires Punctual(c, s, e, Apply(c, s, e))
    ensures OnTime(c, Apply(c, s, e))
  {
    if e.Seek? {
      SeekTimers(c, s, e.position);
    } else if e.SeekRelative? {
      RelativeSeekTimers(c, s, e.change);
    } else {
      var right := c.PieceToTime(RunFrom(s.have, 0, true));
      SeekTimers(c, s, right);
      PositionSetSound(c, s, right);
      RelativeSeekTimers(c, PositionSet(c, s, right), 0 - c.preBuffering);
    }
    hide PositionSet, PositionMoved, RunFrom, Config.PieceToTime;
  }

  lemma HeldOnTime(c: Config, s: State, check: Check, period: nat)
    requires OnTime(c, s) && Sound(c, s)
    ensures OnTime(c, BufferedFor(c, s, period))
    ensures s.playing ==> OnTime(c, BufferedTo(c, s, check))
  {
    hide Config.PieceToTime;
  }

  lemma StepOnTime(c: Config, s: State, e: Event)
    requires c.Valid() && Sound(c, s) && AllThere(c, s) && OnTime(c, s) && Enabled(s, e) && Punctual(c, s, e, Apply(c, s, e))
    ensures OnTime(c, Apply(c, s, e))
  {
    match e {
      case Play => PlayedOnTime(c, s);
      case UnPause => ResumedOnTime(c, s);
      case Seek(_) => SeekOnTime(c, s, e);
      case SeekRelative(_) => SeekOnTime(c, s, e);
      case SeekToTheRight(_) => SeekOnTime(c, s, e);
      case BufferFor(period) => HeldOnTime(c, s, Until(0), period);
      case Buffer(check) => {
        BufferedCases(c, s, check);
        HeldOnTime(c, s, CutOff(c, check), 0);
        ResumedOnTime(c, s);
      }
      case AdvanceDue => AdvancedOnTime(c, s.(advance := None));
      case CheckDue => {
        var t := s.(check := None);
        BufferedCases(c, t, s.check.value.check);
        HeldOnTime(c, t, CutOff(c, s.check.value.check), 0);
        ResumedOnTime(c, t);
      }
      case ElapsedDue => ResumedOnTime(c, s.(elapsed := None));
      case _ => {}
    }
    hide Played, UnPaused, PositionSet, PositionMoved, FromTheRight, BufferedFor, BufferedTo, Buffered, Advanced, Resumed, CutOff,
         Config.PieceToTime, Config.TimeToPiece;
  }

  /** Pieces that are there stay there. */
  lemma OvercomeKeepsPieces(c: Config, s: State)
    requires c.Valid() && s.lastChange <= s.now
    ensures Overcome(c, s).have == s.have
  {
    forall check, period ensures Awaited(c, s, check).have == s.have && BufferedFor(c, s, period).have == s.have {
      BufferingKeepsPieces(c, s, check, period);
    }
    hide Awaited, BufferedFor, RunFrom, Config.PieceToTime, Config.TimeToPiece;
  }

  lemma BufferingKeepsPieces(c: Config, s: State, check: Check, period: nat)
    requires c.Valid()
    ensures Awaited(c, s, check).have == s.have && BufferedFor(c, s, period).have == s.have
    ensures BufferedTo(c, s, check).have == s.have
  {
    hide HasGap, Passed, Config.PieceToTime;
  }

  lemma AdvancedKeepsPieces(c: Config, s: State)
    requires c.Valid() && s.lastChange <= s.now
    ensures Advanced(c, s).have == s.have
  {
    OvercomeKeepsPieces(c, s);
    hide Overcome, Hindered, Config.PieceToTime, Config.TimeToPiece;
  }

  lemma ResumedKeepsPieces(c: Config, s: State)
    requires c.Valid()
    ensures Resumed(c, s).have == s.have && UnPaused(c, s).have == s.have
  {
    AdvancedKeepsPieces(c, s.(lastChange := s.now, paused := false, buffering := false, pausedUntil := 0, advance := None)
                            .Note(StateChanged));
    AdvancedKeepsPieces(c, s.(lastChange := s.now, paused := false, pausedUntil := 0, advance := None).Note(StateChanged));
    hide Advanced;
  }

  lemma BufferedKeepsPieces(c: Config, s: State, check: Check)
    requires c.Valid()
    ensures Buffered(c, s, check).have == s.have
  {
    BufferedCases(c, s, check);
    BufferingKeepsPieces(c, s, CutOff(c, check), 0);
    ResumedKeepsPieces(c, s);
    hide Buffered, BufferedTo, Resumed, CutOff;
  }

  lemma PlayedKeepsPieces(c: Config, s: State)
    requires c.Valid()
    ensures Played(c, s).have == s.have
  {
    var t := Rewound(c, s);
    var left := c.preBuffering - c.PieceToTime(RunFrom(t.have, 0, true));
    BufferingKeepsPieces(c, t, Until(0), if left > 0 then left else 0);
    BufferingTimely(c, t, Until(0), if left > 0 then left else 0);
    AdvancedKeepsPieces(c, BufferedAtStart(c, t).(advance := None));
    hide Advanced, BufferedFor, RunFrom, Config.PieceToTime;
  }

  /** The pieces change by arriving, and in no other way. */
  lemma PiecesOnlyArrive(c: Config, s: State, e: Event)
    requires c.Valid() && Enabled(s, e) && s.lastChange <= s.now
    ensures Apply(c, s, e).have == if e.PieceArrives? then s.have[e.piece := true] else s.have
  {
    match e {
      case Play => PlayedKeepsPieces(c, s);
      case UnPause => ResumedKeepsPieces(c, s);
      case BufferFor(period) => BufferingKeepsPieces(c, s, Until(0), period);
      case Buffer(check) => BufferedKeepsPieces(c, s, check);
      case AdvanceDue => AdvancedKeepsPieces(c, s.(advance := None));
      case CheckDue => BufferedKeepsPieces(c, s.(check := None), s.check.value.check);
      case ElapsedDue => ResumedKeepsPieces(c, s.(elapsed := None));
      case _ => {}
    }
    hide Played, UnPaused, BufferedFor, Buffered, Advanced, Resumed, Config.PieceToTime, Config.TimeToPiece;
  }

  /**
   Playback never falls behind: with all pieces there, as long as no time passes a step that is due and
   nobody seeks to the very end, the position is less than two pieces behind the time, whatever else happens.
   */
  lemma {:induction false} NeverBehindTime(c: Config, states: seq<State>, events: seq<Event>, i: nat)
    requires c.Valid() && IsRun(c, states, events) && i < |states|
    requires AllThere(c, states[0]) && OnTime(c, states[0])
    requires forall j :: 0 <= j < i ==> Punctual(c, states[j], events[j], states[j + 1])
    ensures AllThere(c, states[i]) && OnTime(c, states[i])
    ensures states[i].playing ==> Reach(states[i]) < states[i].position + 2 * c.msPerPiece
  {
    EveryReachableStateSound(c, states, events, i);
    hide Apply, Enabled, Punctual, Config.PieceToTime;
    if i > 0 {
      NeverBehindTime(c, states, events, i - 1);
      EveryReachableStateSound(c, states, events, i - 1);
      StepOnTime(c, states[i - 1], events[i - 1]);
      PiecesOnlyArrive(c, states[i - 1], events[i - 1]);
    }
  }

  /** Playback is at the beginning of a piece, and goes on as soon as that piece has been shown. */
  ghost predicate InStep(c: Config, s: State)
    requires c.Valid()
  {
    && s.playing && !s.paused && s.position == c.PieceToTime(CurrentPiece(c, s)) && s.position < c.TotalLength()
    && s.advance == Some(s.lastChange + c.msPerPiece) && s.lastChange <= s.now <= s.lastChange + c.msPerPiece
  }

  /** Only time passes. */
  predicate Passes(e: Event) {
    e.Tick? || e.AdvanceDue? || e.PieceArrives?
  }

  lemma ShownThrough(c: Config, s: State)
    requires c.Valid() && Sound(c, s) && AllThere(c, s) && InStep(c, s) && Enabled(s, AdvanceDue)
    ensures var t := Apply(c, s, AdvanceDue);
      if t.playing then InStep(c, t) && t.now == s.now && Reach(t) == Reach(s) && t.position == s.position + c.msPerPiece
      else Reach(s) == c.TotalLength() && t.log == s.log + [StateChanged, Finished] && t.position == s.position
  {
    var u := s.(advance := None);
    var current := CurrentPiece(c, s);
    UnhinderedStep(c, u);
    NextPieceTime(c, current);
    PieceTimes(c, s.position, current + 1);
    assert NeededPiece(c, u) == current + 1;
    PieceTimes(c, c.PieceToTime(current + 1), c.pieces);
    PieceTimes(c, s.position, c.pieces);
    AdvancedTimely(c, u);
    if current + 1 >= c.pieces {
      EndsWhenDue(c, u);
    }
    hide Advanced, RunFrom, Config.PieceToTime, Config.TimeToPiece;
  }

  /** Playback ends when the piece that is due lies behind the end of the video. */
  lemma EndsWhenDue(c: Config, s: State)
    requires c.Valid() && Sound(c, s) && s.playing && !s.paused && CurrentPiece(c, s) < NeededPiece(c, s)
    requires NeededPiece(c, s) >= c.pieces
    ensures Advanced(c, s) == s.(lastChange := s.now, playing := false, paused := false, advance := None, check := None,
                                 elapsed := None, log := s.log + [StateChanged, Finished])
  {
    hide Overcome, Hindered, Config.PieceToTime, Config.TimeToPiece;
    assert s.log + [StateChanged] + [Finished] == s.log + [StateChanged, Finished];
  }

  /**
   While nothing but time passes, and no due step is missed, the position and the time since it was reached
   make up exactly the time that has passed, to the end of the video.
   */
  lemma {:induction false} PlaysInTime(c: Config, states: seq<State>, events: seq<Event>, i: nat)
    requires c.Valid() && IsRun(c, states, events) && i < |states|
    requires AllThere(c, states[0]) && InStep(c, states[0])
    requires forall j :: 0 <= j < i ==>
      Passes(events[j]) && Punctual(c, states[j], events[j], states[j + 1]) && states[j].playing
    ensures states[i].playing ==>
      && AllThere(c, states[i]) && InStep(c, states[i])
      && Reach(states[i]) == Reach(states[0]) + states[i].now - states[0].now <= c.TotalLength()
    ensures !states[i].playing ==>
      i > 0 && events[i - 1] == AdvanceDue && Reach(states[0]) + states[i - 1].now - states[0].now == c.TotalLength()
  {
    hide Config.PieceToTime, Config.TimeToPiece, Sound, Advanced;
    if i > 0 {
      PlaysInTime(c, states, events, i - 1);
      EveryReachableStateSound(c, states, events, i - 1);
      PiecesOnlyArrive(c, states[i - 1], events[i - 1]);
      if events[i - 1] == AdvanceDue {
        ShownThrough(c, states[i - 1]);
      }
    }
    WithinVideo(c, states[i]);
  }

  lemma WithinVideo(c: Config, s: State)
    requires c.Valid()
    ensures InStep(c, s) ==> Reach(s) <= c.TotalLength()
  {
    var current := CurrentPiece(c, s);
    NextPieceTime(c, current);
    PieceTimes(c, s.position, c.pieces);
    if current < c.pieces {
      ProductOrder(current + 1, c.pieces, c.msPerPiece);
    }
  }

  // ----- What the commands come to -----

  /** Nothing is played and nothing is going to happen. */
  ghost predicate Silent(s: State) {
    !s.playing && s.advance.None? && s.check.None? && s.elapsed.None?
  }

  /** Stopping leaves the position and cancels what was going to happen. */
  lemma StopEffect(s: State)
    ensures Silent(Stopped(s)) && Stopped(s).position == s.position && Stopped(s).skips == s.skips
    ensures Stopped(s).have == s.have && Stopped(s).now == s.now
    ensures s.playing ==> Stopped(s).log == s.log + [StateChanged] && !Stopped(s).paused && Stopped(s).lastChange == s.now
    ensures !s.playing ==> Stopped(s) == s.(advance := None, check := None, elapsed := None)
  {
  }

  lemma SilentStep(c: Config, s: State, e: Event)
    requires c.Valid() && Enabled(s, e) && s.lastChange <= s.now && Silent(s) && !e.Play?
    ensures Silent(Apply(c, s, e)) && Apply(c, s, e).position == s.position && !e.AdvanceDue? && !e.CheckDue? && !e.ElapsedDue?
  {
    hide Config.PieceToTime, Config.TimeToPiece;
  }

  /** Once playback is off it stays off, and stays where it is, until it is started again. */
  lemma {:induction false} SilentUntilPlay(c: Config, states: seq<State>, events: seq<Event>, i: nat)
    requires c.Valid() && IsRun(c, states, events) && i < |states| && Silent(states[0])
    requires forall j :: 0 <= j < i ==> !events[j].Play?
    ensures Silent(states[i]) && states[i].position == states[0].position
  {
    hide Apply, Enabled, Silent, Sound;
    if i > 0 {
      SilentUntilPlay(c, states, events, i - 1);
      SilentStep(c, states[i - 1], events[i - 1]);
    }
  }

  /** A seek goes to the position asked for, not before the beginning, and beyond the end stops playback. */
  lemma SeekEffect(c: Config, s: State, position: int)
    ensures var t := PositionSet(c, s, position);
      if position > c.TotalLength() then Silent(t) && t.position == s.position && |t.log| > 0 && t.log[|t.log| - 1] == Finished
      else if !s.playing then t == s
      else
        && t == s.(lastChange := s.now, position := t.position, log := s.log + [PositionChanged(t.position)])
        && t.position == if position < 0 then 0 else position
  {
    hide Config.PieceToTime;
  }

  /** A relative seek goes to the beginning of the piece it falls into. */
  lemma RelativeSeekEffect(c: Config, s: State, change: int)
    requires c.Valid()
    ensures var t, to := PositionMoved(c, s, change), s.position + change;
      if to > c.TotalLength() then Silent(t) && t.position == s.position && |t.log| > 0 && t.log[|t.log| - 1] == Finished
      else if !s.playing then t == s
      else
        && t == s.(lastChange := s.now, position := t.position, log := s.log + [PositionChanged(t.position)])
        && t.position == c.PieceToTime(CurrentPiece(c, t))
        && (if to < 0 then t.position == 0 else t.position <= to < t.position + c.msPerPiece)
  {
    var to := s.position + change;
    StartOfVideo(c);
    if to >= 0 {
      PieceTimes(c, to, c.TimeToPiece(to));
      NextPieceTime(c, c.TimeToPiece(to));
    }
    hide Config.PieceToTime, Config.TimeToPiece;
  }

  /** Exactly `n` pieces from `from` on are all there, or all missing, and the next one is not so. */
  ghost predicate Long(have: seq<bool>, from: nat, n: nat, there: bool) {
    (n > 0 ==> AllAre(have, from, from + n, there)) && (from + n < |have| ==> have[from + n] != there)
  }

  lemma LongIsRun(have: seq<bool>, from: nat, n: nat, there: bool)
    requires Long(have, from, n, there)
    ensures RunFrom(have, from, there) == n && (from <= |have| ==> from + n <= |have|)
  {
    RunIsMaximal(have, from, there);
  }

  /** To the right means behind the last piece in front of which none is missing. */
  lemma ToTheRightEffect(c: Config, s: State, n: nat)
    requires c.Valid() && Sound(c, s) && s.playing
    requires Long(s.have, 0, n, true)
    ensures var t := FromTheRight(c, s, false); t.playing && t.position == n * c.msPerPiece && t.lastChange == s.now
    ensures var t, to := FromTheRight(c, s, true), n * c.msPerPiece - c.preBuffering;
      t.playing && if to < 0 then t.position == 0 else t.position <= to < t.position + c.msPerPiece
  {
    LongIsRun(s.have, 0, n, true);
    ProductOrder(n, c.pieces, c.msPerPiece);
    SeekEffect(c, s, c.PieceToTime(n));
    RelativeSeekEffect(c, PositionSet(c, s, c.PieceToTime(n)), 0 - c.preBuffering);
    hide RunFrom, PositionSet, PositionMoved, Config.TimeToPiece;
  }

  /** A pause stops the next step and nothing else; it has no effect on buffering. */
  lemma PauseEffect(c: Config, s: State)
    ensures !s.playing || s.buffering ==> Paused(c, s) == s
    ensures s.playing && !s.buffering ==>
      var t := Paused(c, s);
      && t.playing && t.paused && t.advance.None? && t.lastChange == s.now && t.pausedUntil == s.now + c.TotalLength()
      && t.log == s.log + [StateChanged] && t.position == s.position && !t.buffering
      && t.check == s.check && t.elapsed == s.elapsed && t.skips == s.skips && t.have == s.have && t.now == s.now
  {
    hide Config.PieceToTime;
  }

  /** Nothing moves before buffering ends. */
  ghost predicate Halted(s: State, t: State) {
    && t.playing && t.paused && t.advance.None? && t.position == s.position && t.skips == s.skips && t.have == s.have
    && t.now == s.now && t.buffering == (s.buffering || !s.paused)
    && t.log == (if s.paused then s.log else s.log + [StateChanged])
    && t.lastChange == (if s.paused then s.lastChange else s.now)
  }

  /** Buffering for a time ends when exactly that time has elapsed, whatever was waited for before. */
  lemma BufferForEffect(c: Config, s: State, period: nat)
    requires Sound(c, s)
    ensures !s.playing ==> BufferedFor(c, s, period) == s
    ensures s.playing ==>
      var t := BufferedFor(c, s, period);
      Halted(s, t) && t.elapsed == Some(s.now + period) && t.check.None? && t.pausedUntil == s.now + period
  {
    hide Config.PieceToTime;
  }

  lemma LookAgainEffect(c: Config, s: State, check: Check)
    requires Sound(c, s) && s.playing
    ensures var t := BufferedTo(c, s, check);
      Halted(s, t) && t.check == Some(Timed(s.now + c.msPerPiece, check)) && t.elapsed.None?
      && t.pausedUntil == s.now + c.TotalLength()
  {
    hide Config.PieceToTime;
  }

  /**
   Buffering up to a position: nothing for one that has been passed; a look after the time of a piece while
   one of the pieces up to it is missing, or it is not inside the video; the end of a pause otherwise.
   */
  lemma BufferUntilEffect(c: Config, s: State, p: nat)
    requires c.Valid() && Sound(c, s) && s.playing
    ensures var t, end := Buffered(c, s, Until(p)), c.TotalLength();
      if p < s.position then t == s
      else if p >= end || !AllAre(s.have, CurrentPiece(c, s), c.TimeToPiece(p) + 1, true) then
        Halted(s, t) && t.check == Some(Timed(s.now + c.msPerPiece, Until(if p > end then end else p))) && t.elapsed.None?
      else t == if s.paused then Resumed(c, s) else s
  {
    if p >= s.position {
      UntilWaitsIff(c, s, p);
    }
    LookAgainEffect(c, s, CutOff(c, Until(p)));
    hide HasGap, BufferedTo, Resumed, Halted, AllAre, Config.PieceToTime, Config.TimeToPiece;
  }

  /** Buffering for pieces, likewise; the number of pieces asked for is counted as a 32-bit number. */
  lemma BufferRangeEffect(c: Config, s: State, a: nat, b: nat)
    requires c.Valid() && Sound(c, s) && s.playing
    ensures var t, start := Buffered(c, s, Range(a, b)), if a > c.pieces then c.pieces else a;
      var n := (b - start) % U32;
      if !AllAre(s.have, start, start + n, true) then
        Halted(s, t) && t.check == Some(Timed(s.now + c.msPerPiece, Range(start, b))) && t.elapsed.None?
      else t == if s.paused then Resumed(c, s) else s
  {
    RangeWaitsIff(c, s, a, b);
    LookAgainEffect(c, s, CutOff(c, Range(a, b)));
    hide HasGap, BufferedTo, Resumed, Halted, Config.PieceToTime, Config.TimeToPiece;
  }

  /** Playback goes on at once if the current piece is there: the next step comes after the time of a piece. */
  lemma GoesOn(c: Config, s: State)
    requires c.Valid() && Sound(c, s) && s.playing && !s.paused && s.lastChange == s.now
    requires CurrentPiece(c, s) < c.pieces && s.have[CurrentPiece(c, s)]
    ensures Advanced(c, s) == s.(advance := Some(s.now + c.msPerPiece))
  {
    HinderedIff(c, s);
    assert NeededPiece(c, s) == CurrentPiece(c, s);
    hide Hindered, Overcome, Config.PieceToTime, Config.TimeToPiece;
  }

  /** The end of buffering, and of a pause. */
  lemma ResumeEffect(c: Config, s: State)
    requires c.Valid() && Sound(c, s)
    ensures !s.playing ==> Resumed(c, s) == s
    ensures !s.playing || s.buffering ==> UnPaused(c, s) == s
    ensures s.playing && CurrentPiece(c, s) < c.pieces && s.have[CurrentPiece(c, s)] ==>
      var t := s.(lastChange := s.now, paused := false, pausedUntil := 0, advance := Some(s.now + c.msPerPiece),
                  log := s.log + [StateChanged]);
      Resumed(c, s) == t.(buffering := false) && (!s.buffering ==> UnPaused(c, s) == t)
  {
    if s.playing && CurrentPiece(c, s) < c.pieces && s.have[CurrentPiece(c, s)] {
      GoesOn(c, s.(lastChange := s.now, paused := false, buffering := false, pausedUntil := 0, advance := None).Note(StateChanged));
      if !s.buffering {
        GoesOn(c, s.(lastChange := s.now, paused := false, pausedUntil := 0, advance := None).Note(StateChanged));
      }
    }
    hide Advanced, Config.PieceToTime, Config.TimeToPiece;
  }

  /**
   Playback starts at the beginning. With `n` pieces there, and the next one not, it waits for what these
   leave of the pre-buffering time, or else starts at once, if the first piece is there.
   */
  lemma PlayEffect(c: Config, s: State, n: nat)
    requires c.Valid() && Sound(c, s)
    requires Long(s.have, 0, n, true)
    ensures var t, left := Played(c, s), c.preBuffering - n * c.msPerPiece;
      && (left > 0 || n > 0 ==> t.playing && t.position == 0 && t.lastChange == s.now)
      && (left > 0 ==> t.paused && t.buffering && t.elapsed == Some(s.now + left) && t.check.None? && t.advance.None?)
      && (left <= 0 && n > 0 ==>
            !t.paused && !t.buffering && t.advance == Some(s.now + c.msPerPiece) && t.check.None? && t.elapsed.None?)
  {
    hide RunFrom, BufferedFor, BufferedAtStart, Advanced, Sound, Config.PieceToTime, Config.TimeToPiece;
    WaitsAtStart(c, s, n);
    var u := BufferedAtStart(c, Rewound(c, s)).(advance := None);
    NothingMoves(c, u);
    FirstPiece(c);
    if n * c.msPerPiece >= c.preBuffering && n > 0 {
      GoesOn(c, u);
    }
  }

  lemma NothingMoves(c: Config, s: State)
    requires c.Valid() && s.lastChange <= s.now
    ensures s.paused || !s.playing ==> Advanced(c, s) == s
  {
    hide Overcome, Hindered, Config.PieceToTime, Config.TimeToPiece;
  }

  lemma FirstPiece(c: Config)
    requires c.Valid()
    ensures c.TimeToPiece(0) == 0
  {
  }

  lemma WaitsAtStart(c: Config, s: State, n: nat)
    requires c.Valid() && Sound(c, s)
    requires Long(s.have, 0, n, true)
    ensures var u, left := BufferedAtStart(c, Rewound(c, s)).(advance := None), c.preBuffering - n * c.msPerPiece;
      && u.playing && u.position == 0 && u.lastChange == s.now && u.now == s.now && u.have == s.have && Sound(c, u) && u.check.None?
      && u.paused == u.buffering == (left > 0) && u.elapsed == (if left > 0 then Some(s.now + left) else None)
  {
    var r := Rewound(c, s);
    var left := c.preBuffering - n * c.msPerPiece;
    LongIsRun(s.have, 0, n, true);
    BufferForEffect(c, r, if left > 0 then left else 0);
    hide RunFrom, BufferedFor;
  }

  /** A step of playback finds a piece missing that is due inside the video. */
  ghost predicate Misses(c: Config, s: State)
    requires c.Valid() && s.lastChange <= s.now
  {
    s.playing && !s.paused && Hindered(c, s) && (NeededPiece(c, s) > CurrentPiece(c, s) ==> NeededPiece(c, s) < c.pieces)
  }

  lemma MissesOvercomes(c: Config, s: State)
    requires c.Valid() && Sound(c, s) && Misses(c, s)
    ensures Advanced(c, s) == Overcome(c, s)
  {
    hide Overcome, Hindered, Config.PieceToTime, Config.TimeToPiece;
  }

  /** When no piece may be left out, playback waits for the needed one, unless it stands inside that piece. */
  lemma WaitsForNeeded(c: Config, s: State)
    requires c.Valid() && Sound(c, s) && Misses(c, s) && !c.missable
    ensures var t, at := Advanced(c, s), NeededPiece(c, s) * c.msPerPiece;
      if at < s.position then t == s.Note(CannotAdvance)
      else
        && t.log == s.log + [StateChanged, CannotAdvance] && Halted(s, t.(log := s.log + [StateChanged]))
        && t.check == Some(Timed(s.now + c.msPerPiece, Until(at))) && t.elapsed.None?
  {
    var until := Until(c.PieceToTime(NeededPiece(c, s)));
    NeededIsAwaited(c, s);
    MissesOvercomes(c, s);
    LookAgainEffect(c, s, CutOff(c, until));
    hide BufferedTo, HasGap, CutOff, Sound, Hindered, NeededPiece, CurrentPiece, Advanced;
    assert s.log + [StateChanged] + [CannotAdvance] == s.log + [StateChanged, CannotAdvance];
  }

  /**
   When the `k` pieces missing behind the current one last longer than the tolerance, playback waits for what
   the `m` pieces that are there leave of the pre-buffering time.
   */
  lemma WaitsForPreBuffering(c: Config, s: State, k: nat, m: nat)
    requires c.Valid() && Sound(c, s) && Misses(c, s) && c.missable
    requires Long(s.have, CurrentPiece(c, s) + 1, k, false) && Long(s.have, CurrentPiece(c, s), m, true)
    requires k * c.msPerPiece > c.skipTolerance
    ensures var t, left := Advanced(c, s), c.preBuffering - m * c.msPerPiece;
      if left <= 0 then t == s
      else
        && t.log == s.log + [StateChanged, CannotAdvance] && Halted(s, t.(log := s.log + [StateChanged]))
        && t.elapsed == Some(s.now + left) && t.check.None?
  {
    var left := c.preBuffering - m * c.msPerPiece;
    LongIsRun(s.have, CurrentPiece(c, s) + 1, k, false);
    LongIsRun(s.have, CurrentPiece(c, s), m, true);
    MissesOvercomes(c, s);
    BufferForEffect(c, s, if left > 0 then left else 0);
    hide BufferedFor, RunFrom, Sound, Hindered, NeededPiece, CurrentPiece, Advanced;
    assert s.log + [StateChanged] + [CannotAdvance] == s.log + [StateChanged, CannotAdvance];
  }

  /**
   When they are within the tolerance, they are left out if the `n` pieces behind them last as long as is
   required; the next step then comes after the time of a piece. If not, those pieces are waited for.
   */
  lemma LeavesOutIff(c: Config, s: State, k: nat, n: nat)
    requires c.Valid() && Sound(c, s) && Misses(c, s) && c.missable && CurrentPiece(c, s) + k < c.pieces
    requires Long(s.have, CurrentPiece(c, s) + 1, k, false) && Long(s.have, CurrentPiece(c, s) + k + 1, n, true)
    requires k * c.msPerPiece <= c.skipTolerance
    ensures var t, next := Advanced(c, s), CurrentPiece(c, s) + k + 1;
      if n * c.msPerPiece >= c.afterSkip then
        t == s.(position := next * c.msPerPiece, lastChange := s.now, advance := Some(s.now + c.msPerPiece),
                log := s.log + [PositionChanged(next * c.msPerPiece)], skips := s.skips + [Skip(CurrentPiece(c, s), next)])
      else t == Buffered(c, s, Range(next, next + c.TimeToPiece(c.afterSkip))).Note(CannotAdvance)
  {
    hide RunFrom, Long, Awaited, Buffered, Skipped, Sound, Hindered, NeededPiece, CurrentPiece, NextPiece, ToSkip, After,
         Advanced, Config.TimeToPiece;
    var next := CurrentPiece(c, s) + k + 1;
    AroundTheGap(c, s, k, n);
    MissesOvercomes(c, s);
    SkippedIs(c, s, next);
    AwaitedIsBuffered(c, s, Range(next, next + c.TimeToPiece(c.afterSkip)));
  }

  lemma AroundTheGap(c: Config, s: State, k: nat, n: nat)
    requires c.Valid() && Long(s.have, CurrentPiece(c, s) + 1, k, false) && Long(s.have, CurrentPiece(c, s) + k + 1, n, true)
    ensures ToSkip(c, s) == k && NextPiece(c, s) == CurrentPiece(c, s) + k + 1 && After(c, s) == n
  {
    LongIsRun(s.have, CurrentPiece(c, s) + 1, k, false);
    LongIsRun(s.have, CurrentPiece(c, s) + k + 1, n, true);
    hide RunFrom, CurrentPiece;
  }

  lemma SkippedIs(c: Config, s: State, next: nat)
    requires c.Valid() && s.playing && next <= c.pieces
    ensures Skipped(c, s, next) ==
      s.(position := next * c.msPerPiece, lastChange := s.now, advance := Some(s.now + c.msPerPiece),
         log := s.log + [PositionChanged(next * c.msPerPiece)], skips := s.skips + [Skip(CurrentPiece(c, s), next)])
  {
    ProductOrder(next, c.pieces, c.msPerPiece);
    hide CurrentPiece;
  }

  lemma AwaitedIsBuffered(c: Config, s: State, check: Check)
    requires c.Valid() && s.playing && !s.paused
    ensures Awaited(c, s, check) == Buffered(c, s, check)
  {
    hide HasGap, BufferedTo, Resumed, Passed, CutOff;
  }

  // ----- The client -----

  class VideoClient {
    const c: Config
    var now: nat
    var have: seq<bool>
    var playbackPosition: nat
    var lastPlaybackChangeTime: nat
    var playing: bool
    var paused: bool
    var buffering: bool
    var pausedUntil: nat
    var nextAdvancePlaybackEvent: Option<nat>
    var nextBufferCheckEvent: Option<Timed>
    var nextBufferForElapsedEvent: Option<nat>
    var log: seq<Note>
    var skips: seq<Skip>

    function S(): State
      reads this
    {
      State(now, have, playbackPosition, lastPlaybackChangeTime, playing, paused, buffering, pausedUntil,
            nextAdvancePlaybackEvent, nextBufferCheckEvent, nextBufferForElapsedEvent, log, skips)
    }

    predicate Ready()
      reads this
    {
      c.Valid() && lastPlaybackChangeTime <= now
    }

    constructor (c: Config, now: nat)
      ensures this.c == c && S() == Initial(c, now)
    {
      this.c := c;
      this.now, have, playbackPosition, lastPlaybackChangeTime := now, seq(c.pieces, i => false), 0, now;
      playing, paused, buffering, pausedUntil := false, false, false, 0;
      nextAdvancePlaybackEvent, nextBufferCheckEvent, nextBufferForElapsedEvent := None, None, None;
      log, skips := [], [];
    }

    method GetContinousPiecesFromPiece(piece: nat) returns (result: nat)
      ensures result == RunFrom(have, piece, true)
    {
      result := 0;
      while piece + result < |have| && have[piece + result]
        invariant RunFrom(have, piece, true) == result + RunFrom(have, piece + result, true)
        decreases |have| - (piece + result)
      {
        result := result + 1;
      }
    }

    method GetContinousMissingPiecesFromPiece(piece: nat) returns (result: nat)
      ensures result == RunFrom(have, piece, false)
    {
      result := 0;
      while piece + result < |have| && !have[piece + result]
        invariant RunFrom(have, piece, false) == result + RunFrom(have, piece + result, false)
        decreases |have| - (piece + result)
      {
        result := result + 1;
      }
    }

    method Play()
      requires Ready()
      modifies this
      ensures Ready() && S() == Played(c, old(S()))
    {
      hide Rewound, BufferedAtStart, Advanced;
      Rewind();
      BufferAtStart();
      nextAdvancePlaybackEvent := None;
      AdvancePlayback();
    }

    /** Steps 1 to 3 of `Play`, and the end of what an earlier playback waited for. */
    method Rewind()
      requires Ready()
      modifies this
      ensures Ready() && S() == Rewound(c, old(S()))
    {
      lastPlaybackChangeTime, playing, paused, buffering := now, true, false, false;
      SetPlaybackPosition(0);
      log := log + [StateChanged];
      nextBufferCheckEvent, nextBufferForElapsedEvent := None, None;
    }

    method BufferAtStart()
      requires Ready()
      modifies this
      ensures Ready() && S() == BufferedAtStart(c, old(S()))
    {
      hide RunFrom, BufferedFor, Config.PieceToTime;
      var available := GetContinousPiecesFromPiece(0);
      var preBufferingTimeLeft := c.preBuffering - c.PieceToTime(available);
      if preBufferingTimeLeft > 0 {
        BufferFor(preBufferingTimeLeft);
      }
    }

    method Pause()
      requires Ready()
      modifies this
      ensures Ready() && S() == Paused(c, old(S()))
    {
      if playing && !buffering {
        lastPlaybackChangeTime := now;
        paused := true;
        pausedUntil := now + c.TotalLength();
        nextAdvancePlaybackEvent := None;
        log := log + [StateChanged];
      }
    }

    method UnPause()
      requires Ready()
      modifies this
      ensures Ready() && S() == UnPaused(c, old(S()))
    {
      hide Advanced;
      if playing && !buffering {
        lastPlaybackChangeTime := now;
        paused := false;
        pausedUntil := 0;
        log := log + [StateChanged];
        nextAdvancePlaybackEvent := None;
        AdvancePlayback();
      }
    }

    /** Going back to the beginning has no effect here, since playback is off by then; `Play` does it. */
    method Stop()
      requires Ready()
      modifies this
      ensures Ready() && S() == Stopped(old(S()))
      decreases 1
    {
      if playing {
        lastPlaybackChangeTime := now;
        playing := false;
        paused := false;
        SetPlaybackPosition(0);
        log := log + [StateChanged];
      }
      nextAdvancePlaybackEvent, nextBufferCheckEvent, nextBufferForElapsedEvent := None, None, None;
    }

    method SetPlaybackPosition(position: int)
      requires Ready()
      modifies this
      ensures Ready() && S() == PositionSet(c, old(S()), position)
      decreases if position > c.TotalLength() then 2 else 0
    {
      if position > c.TotalLength() {
        Stop();
        log := log + [Finished];
      } else if playing {
        lastPlaybackChangeTime := now;
        var p := position;
        if p < 0 {
          p := 0;
        }
        playbackPosition := p;
        log := log + [PositionChanged(playbackPosition)];
      }
    }

    method SetPlaybackPositionRelative(change: int)
      requires Ready()
      modifies this
      ensures Ready() && S() == PositionMoved(c, old(S()), change)
    {
      hide Config.PieceToTime, Config.TimeToPiece;
      if playbackPosition + change > c.TotalLength() {
        Stop();
        log := log + [Finished];
      } else if playing {
        lastPlaybackChangeTime := now;
        var d := change;
        if playbackPosition + d < 0 {
          d := 0 - playbackPosition;
        }
        StartOfVideo(c);
        playbackPosition := c.PieceToTime(c.TimeToPiece(playbackPosition + d));
        log := log + [PositionChanged(playbackPosition)];
      }
    }

    method SetPlaybackPositionToTheRight(keepPreBufferingPhase: bool)
      requires Ready()
      modifies this
      ensures Ready() && S() == FromTheRight(c, old(S()), keepPreBufferingPhase)
    {
      hide RunFrom, PositionSet, PositionMoved, Config.PieceToTime, Config.TimeToPiece;
      var available := GetContinousPiecesFromPiece(0);
      SetPlaybackPosition(c.PieceToTime(available));
      if keepPreBufferingPhase {
        SetPlaybackPositionRelative(0 - c.preBuffering);
      }
    }

    method BufferFor(bufferingPeriod: nat)
      requires Ready()
      modifies this
      ensures Ready() && S() == BufferedFor(c, old(S()), bufferingPeriod)
    {
      hide Config.PieceToTime;
      if !playing {
        return;
      }
      if !paused {
        Pause();
        buffering := true;
      }
      nextBufferCheckEvent, nextBufferForElapsedEvent := None, None;
      nextBufferForElapsedEvent := Some(now + bufferingPeriod);
      pausedUntil := now + bufferingPeriod;
    }

    /** Hold playback and look again after the time of a piece. */
    method LookAgain(check: Check)
      requires Ready()
      modifies this
      ensures Ready() && S() == BufferedTo(c, old(S()), check)
    {
      hide Config.PieceToTime;
      if !paused {
        Pause();
        buffering := true;
      }
      nextBufferCheckEvent, nextBufferForElapsedEvent := None, None;
      nextBufferCheckEvent := Some(Timed(now + c.msPerPiece, check));
      pausedUntil := now + c.TotalLength();
    }

    method BufferUntil(until: nat)
      requires Ready()
      modifies this
      ensures Ready() && S() == Buffered(c, old(S()), Until(until))
      decreases if paused then 4 else 1
    {
      hide RunFrom, BufferedTo, Resumed, Config.PieceToTime, Config.TimeToPiece;
      var position := until;
      if position > c.TotalLength() {
        position := c.TotalLength();
      }
      if !playing {
        return;
      }
      if position < playbackPosition {
        return;
      }
      var available := GetContinousPiecesFromPiece(c.TimeToPiece(playbackPosition));
      if available < c.TimeToPiece(position) - c.TimeToPiece(playbackPosition) + 1 {
        LookAgain(Until(position));
      } else if paused {
        UnPauseAfterBuffering();
      }
    }

    method BufferRange(start: nat, rangeEnd: nat)
      requires Ready()
      modifies this
      ensures Ready() && S() == Buffered(c, old(S()), Range(start, rangeEnd))
      decreases if paused then 4 else 1
    {
      hide RunFrom, BufferedTo, Resumed, Config.PieceToTime, Config.TimeToPiece;
      var rangeStart := start;
      if rangeStart > c.pieces {
        rangeStart := c.pieces;
      }
      if !playing {
        return;
      }
      var available := GetContinousPiecesFromPiece(rangeStart);
      if available < (rangeEnd - rangeStart) % U32 {
        LookAgain(Range(rangeStart, rangeEnd));
      } else if paused {
        UnPauseAfterBuffering();
      }
    }

    method UnPauseAfterBuffering()
      requires Ready()
      modifies this
      ensures Ready() && S() == Resumed(c, old(S()))
      decreases 3
    {
      hide Advanced;
      if playing {
        lastPlaybackChangeTime := now;
        paused := false;
        buffering := false;
        pausedUntil := 0;
        log := log + [StateChanged];
        nextAdvancePlaybackEvent := None;
        AdvancePlayback();
      }
    }

    method AdvancePlayback()
      requires Ready()
      modifies this
      ensures Ready() && S() == Advanced(c, old(S()))
      decreases 2, 1
    {
      hide RunFrom, Overcome, PositionSet, Config.PieceToTime, Config.TimeToPiece;
      if playing && !paused {
        var cantAdvancePlayback := false;
        var currentPiece := c.TimeToPiece(playbackPosition);
        var neededPiece := c.TimeToPiece(playbackPosition + now - lastPlaybackChangeTime);
        if neededPiece > currentPiece {
          if neededPiece >= c.pieces {
            Stop();
            log := log + [Finished];
            return;
          }
          var availablePieces := GetContinousPiecesFromPiece(currentPiece + 1);
          if availablePieces >= neededPiece - currentPiece {
            log := log + [PositionWillChange];
            SetPlaybackPosition(c.PieceToTime(neededPiece));
          } else {
            cantAdvancePlayback := true;
          }
        } else {
          var here := GetContinousPiecesFromPiece(currentPiece);
          if here == 0 {
            cantAdvancePlayback := true;
          }
        }
        if cantAdvancePlayback {
          SkipOrBuffer(currentPiece, neededPiece);
        } else {
          nextAdvancePlaybackEvent := Some(now + c.msPerPiece);
        }
      }
    }

    /** What is done when playback cannot go on. */
    method SkipOrBuffer(currentPiece: nat, neededPiece: nat)
      requires Ready() && playing && !paused
      requires currentPiece == CurrentPiece(c, S()) && neededPiece == NeededPiece(c, S())
      modifies this
      ensures Ready() && S() == Overcome(c, old(S()))
      decreases 2, 0
    {
      hide RunFrom, PositionSet, BufferedFor, BufferedTo, HasGap, Passed, CutOff, Resumed, Config.PieceToTime, Config.TimeToPiece;
      if c.missable {
        var piecesToSkip := GetContinousMissingPiecesFromPiece(currentPiece + 1);
        if c.PieceToTime(piecesToSkip) <= c.skipTolerance {
          var piecesAfterwards := GetContinousPiecesFromPiece(currentPiece + piecesToSkip + 1);
          if c.PieceToTime(piecesAfterwards) >= c.afterSkip {
            SetPlaybackPosition(c.PieceToTime(currentPiece + piecesToSkip + 1));
            skips := skips + [Skip(currentPiece, currentPiece + piecesToSkip + 1)];
            nextAdvancePlaybackEvent := Some(now + c.msPerPiece);
          } else {
            BufferRange(currentPiece + piecesToSkip + 1, currentPiece + piecesToSkip + 1 + c.TimeToPiece(c.afterSkip));
            log := log + [CannotAdvance];
          }
        } else {
          var here := GetContinousPiecesFromPiece(currentPiece);
          var preBufferingTimeLeft := c.preBuffering - c.PieceToTime(here);
          if preBufferingTimeLeft > 0 {
            BufferFor(preBufferingTimeLeft);
            log := log + [CannotAdvance];
          }
        }
      } else {
        BufferUntil(c.PieceToTime(neededPiece));
        log := log + [CannotAdvance];
      }
    }
  }
}
