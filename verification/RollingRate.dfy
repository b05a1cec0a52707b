/**
 The rolling transfer rate of a peer: one slot for each of the last 20 seconds, in a ring that is
 written to by reads and chokes and tidied up only when the rate is asked for. One ring counts the
 downloaded bytes, another one the uploaded bytes.
 */
module RollingRate {
  const SECONDS := 20

  /** How many bytes were logged in each second; in no second outside the map, nor before the start. */
  type Log = map<int, nat>

  function At(log: Log, s: int): nat {
    if s in log then log[s] else 0
  }

  function Logged(log: Log, s: int, n: nat): Log {
    log[s := At(log, s) + n]
  }

  /** The bytes logged in the seconds from `lo` up to, but not including, `hi`. */
  function SumOver(log: Log, lo: int, hi: int): nat
    decreases hi - lo
  {
    if lo >= hi then 0 else At(log, lo) + SumOver(log, lo + 1, hi)
  }

  function Total(s: seq<nat>): nat {
    if s == [] then 0 else s[0] + Total(s[1..])
  }

  datatype Ring = Ring(history: seq<nat>, resetTime: seq<nat>) {
    predicate Valid() {
      |history| == |resetTime| == SECONDS
    }

    /** Bytes at the given second; the first of a second overwrite what the slot held. */
    function Record(now: nat, n: nat): Ring
      requires Valid()
    {
      var i := now % SECONDS;
      if resetTime[i] != now then Ring(history[i := n], resetTime[i := now])
      else this.(history := history[i := history[i] + n])
    }

    /** Slots that are too old are emptied before the rate is computed. */
    function Sweep(now: nat): (r: Ring)
      requires Valid()
      ensures r.Valid()
    {
      Ring(seq(SECONDS, i requires 0 <= i < SECONDS => if now - resetTime[i] > SECONDS then 0 else history[i]),
           seq(SECONDS, i requires 0 <= i < SECONDS => if now - resetTime[i] > SECONDS then now else resetTime[i]))
    }
  }

  /** What slot `i` knows at a second: all of the last bytes in a second of its own, or that there were none. */
  ghost predicate SlotOk(bytes: nat, since: nat, i: nat, log: Log, now: nat) {
    && since <= now
    && (forall s: int :: s % SECONDS == i && s > since ==> At(log, s) == 0)
    && (if since % SECONDS == i then bytes == At(log, since)
        else bytes == 0 && forall s: int :: s % SECONDS == i && since - SECONDS <= s <= since ==> At(log, s) == 0)
  }

  ghost predicate Tracks(ring: Ring, log: Log, now: nat) {
    && ring.Valid()
    && (forall s: int :: s < 0 ==> At(log, s) == 0)
    && forall i :: 0 <= i < SECONDS ==> SlotOk(ring.history[i], ring.resetTime[i], i, log, now)
  }

  function Empty(): Ring {
    Ring(seq(SECONDS, i => 0), seq(SECONDS, i => 0))
  }

  lemma StartTracks()
    ensures Tracks(Empty(), map[], 0)
  {
  }

  lemma LoggedAt(log: Log, t: int, n: nat)
    ensures forall s: int :: At(Logged(log, t, n), s) == At(log, s) + if s == t then n else 0
  {
  }

  lemma RecordSlot(bytes: nat, since: nat, i: nat, log: Log, before: nat, now: nat, n: nat)
    requires SlotOk(bytes, since, i, log, before) && before <= now && i < SECONDS
    ensures now % SECONDS != i ==> SlotOk(bytes, since, i, Logged(log, now, n), now)
    ensures now % SECONDS == i && since != now ==> SlotOk(n, now, i, Logged(log, now, n), now)
    ensures now % SECONDS == i && since == now ==> SlotOk(bytes + n, now, i, Logged(log, now, n), now)
  {
    LoggedAt(log, now, n);
    hide At, Logged;
  }

  lemma RecordKeepsTrack(ring: Ring, log: Log, before: nat, now: nat, n: nat)
    requires Tracks(ring, log, before) && before <= now
    ensures Tracks(ring.Record(now, n), Logged(log, now, n), now)
  {
    LoggedAt(log, now, n);
    hide SlotOk, At, Logged;
    forall i | 0 <= i < SECONDS
      ensures SlotOk(ring.Record(now, n).history[i], ring.Record(now, n).resetTime[i], i, Logged(log, now, n), now)
    {
      RecordSlot(ring.history[i], ring.resetTime[i], i, log, before, now, n);
    }
  }

  lemma SweepKeepsTrack(ring: Ring, log: Log, before: nat, now: nat)
    requires Tracks(ring, log, before) && before <= now
    ensures Tracks(ring.Sweep(now), log, now)
  {
  }

  // ----- What the slots add up to -----

  /** The last second up to now that belongs to slot `i`. */
  function Latest(i: nat, now: int): int {
    now - (now - i) % SECONDS
  }

  function LatestBytes(log: Log, now: int): (s: seq<nat>)
    ensures |s| == SECONDS
  {
    seq(SECONDS, i requires 0 <= i < SECONDS => At(log, Latest(i, now)))
  }

  lemma {:induction false} TotalUpdate(s: seq<nat>, i: nat, x: nat)
    requires i < |s|
    ensures Total(s[i := x]) == Total(s) - s[i] + x
  {
    if i > 0 {
      assert s[i := x][1..] == s[1..][i - 1 := x];
      TotalUpdate(s[1..], i - 1, x);
    }
  }

  lemma TotalNone(s: seq<nat>)
    ensures Total(s[..0]) == 0
  {
  }

  lemma {:induction false} TotalLast(s: seq<nat>, i: nat)
    requires i < |s|
    ensures Total(s[..i + 1]) == Total(s[..i]) + s[i]
    decreases i
  {
    if i > 0 {
      assert s[..i + 1][1..] == s[1..][..i] && s[..i][1..] == s[1..][..i - 1];
      TotalLast(s[1..], i - 1);
    }
  }

  lemma {:induction false} SumOverLast(log: Log, lo: int, hi: int)
    requires lo <= hi
    ensures SumOver(log, lo, hi + 1) == SumOver(log, lo, hi) + At(log, hi)
    decreases hi - lo
  {
    if lo < hi {
      SumOverLast(log, lo + 1, hi);
    }
  }

  lemma {:induction false} SumOverNothing(log: Log, lo: int, hi: int)
    requires forall s: int :: lo <= s < hi ==> At(log, s) == 0
    ensures SumOver(log, lo, hi) == 0
    decreases hi - lo
  {
    if lo < hi {
      SumOverNothing(log, lo + 1, hi);
    }
  }

  lemma {:induction false} TotalZero(s: seq<nat>)
    requires forall i :: 0 <= i < |s| ==> s[i] == 0
    ensures Total(s) == 0
  {
    if s != [] {
      TotalZero(s[1..]);
    }
  }

  /** One second later, one slot stands for a new second and no longer for the one 20 seconds before. */
  lemma NextSecond(log: Log, now: int)
    requires now >= 0
    ensures LatestBytes(log, now) == LatestBytes(log, now - 1)[now % SECONDS := At(log, now)]
    ensures LatestBytes(log, now - 1)[now % SECONDS] == At(log, now - SECONDS)
  {
  }

  /** Every slot's last second together: the last 20 seconds. */
  lemma {:induction false} LatestTotal(log: Log, now: int)
    requires forall s: int :: s < 0 ==> At(log, s) == 0
    requires now >= -1
    ensures Total(LatestBytes(log, now)) == SumOver(log, now - (SECONDS - 1), now + 1)
    decreases now
  {
    hide LatestBytes, At;
    if now == -1 {
      NothingBefore(log);
      TotalZero(LatestBytes(log, now));
      SumOverNothing(log, now - (SECONDS - 1), now + 1);
    } else {
      LatestTotal(log, now - 1);
      NextSecond(log, now);
      TotalUpdate(LatestBytes(log, now - 1), now % SECONDS, At(log, now));
      SumOverLast(log, now - SECONDS, now);
    }
  }

  lemma NothingBefore(log: Log)
    requires forall s: int :: s < 0 ==> At(log, s) == 0
    ensures forall i :: 0 <= i < SECONDS ==> LatestBytes(log, -1)[i] == 0
  {
  }

  /** A slot that is not too old holds the bytes of its last second, or of the one 20 seconds ago. */
  lemma FreshSlot(bytes: nat, since: nat, i: nat, log: Log, now: nat)
    requires SlotOk(bytes, since, i, log, now) && now - since <= SECONDS && i < SECONDS
    ensures if i == now % SECONDS && since == now - SECONDS
            then bytes == At(log, now - SECONDS) && At(log, now) == 0
            else bytes == At(log, Latest(i, now))
  {
    if since % SECONDS != i {
      assert Latest(i, now) > since || since - SECONDS <= Latest(i, now) <= since;
    }
  }

  /**
   The slots add up to the bytes of the last 20 seconds; or, if the slot of the present second was last
   used exactly 20 seconds ago, to those of the last 21.
   */
  lemma SweptTotal(ring: Ring, log: Log, before: nat, now: nat)
    requires Tracks(ring, log, before) && before <= now
    ensures Total(ring.Sweep(now).history)
      == SumOver(log, if ring.resetTime[now % SECONDS] == now - SECONDS then now - SECONDS else now - (SECONDS - 1), now + 1)
    ensures ring.resetTime[now % SECONDS] == now - SECONDS ==> At(log, now) == 0
  {
    hide SlotOk, Latest, At;
    SweepKeepsTrack(ring, log, before, now);
    var swept, k := ring.Sweep(now), now % SECONDS;
    var late := ring.resetTime[k] == now - SECONDS;
    var latest := LatestBytes(log, now);
    forall i | 0 <= i < SECONDS
      ensures swept.history[i] == if late && i == k then At(log, now - SECONDS) else latest[i]
      ensures late ==> At(log, now) == 0
    {
      FreshSlot(swept.history[i], swept.resetTime[i], i, log, now);
      FreshSlot(swept.history[k], swept.resetTime[k], k, log, now);
    }
    LatestTotal(log, now);
    if late {
      assert swept.history == latest[k := At(log, now - SECONDS)];
      TotalUpdate(latest, k, At(log, now - SECONDS));
      LatestOfNow(log, now);
      assert SumOver(log, now - SECONDS, now + 1) == At(log, now - SECONDS) + SumOver(log, now - (SECONDS - 1), now + 1);
    } else {
      assert swept.history == latest;
    }
  }

  lemma LatestOfNow(log: Log, now: nat)
    ensures LatestBytes(log, now)[now % SECONDS] == At(log, now)
  {
  }

  // ----- Runs -----

  datatype Event =
    | Bytes(count: nat)
    | Choked
    | Asked

  datatype Timed = Timed(time: nat, event: Event)

  function Step(ring: Ring, e: Event, now: nat): (r: Ring)
    requires ring.Valid()
    ensures r.Valid()
  {
    match e
    case Bytes(n) => ring.Record(now, n)
    case Choked => ring.Record(now, 0)
    case Asked => ring.Sweep(now)
  }

  /** Events in the order of their times. */
  predicate InOrder(run: seq<Timed>) {
    forall i, j :: 0 <= i < j < |run| ==> run[i].time <= run[j].time
  }

  /** The bytes of a run, second by second. */
  function LogOf(run: seq<Timed>): Log {
    if run == [] then map[]
    else
      var log := LogOf(run[..|run| - 1]);
      match run[|run| - 1].event
      case Bytes(n) => Logged(log, run[|run| - 1].time, n)
      case _ => log
  }

  function RingAfter(run: seq<Timed>): (r: Ring)
    ensures r.Valid()
  {
    if run == [] then Empty() else Step(RingAfter(run[..|run| - 1]), run[|run| - 1].event, run[|run| - 1].time)
  }

  function LastTime(run: seq<Timed>): nat {
    if run == [] then 0 else run[|run| - 1].time
  }

  lemma ChokeKeepsTrack(ring: Ring, log: Log, before: nat, now: nat)
    requires Tracks(ring, log, before) && before <= now
    ensures Tracks(ring.Record(now, 0), log, now)
  {
    RecordKeepsTrack(ring, log, before, now, 0);
    LoggedAt(log, now, 0);
    hide At, Logged;
  }

  lemma {:induction false} RunTracks(run: seq<Timed>)
    requires InOrder(run)
    ensures Tracks(RingAfter(run), LogOf(run), LastTime(run))
  {
    hide Tracks, Ring.Record, Ring.Sweep, Logged;
    if run == [] {
      StartTracks();
    } else {
      var init, now := run[..|run| - 1], run[|run| - 1].time;
      RunTracks(init);
      var ring, log := RingAfter(init), LogOf(init);
      assert LastTime(init) <= now;
      match run[|run| - 1].event
      case Bytes(n) => RecordKeepsTrack(ring, log, LastTime(init), now, n);
      case Choked => ChokeKeepsTrack(ring, log, LastTime(init), now);
      case Asked => SweepKeepsTrack(ring, log, LastTime(init), now);
    }
  }

  /** The rate in bits per second. */
  function Bps(ring: Ring, now: nat): real
    requires ring.Valid()
  {
    Total(ring.Sweep(now).history) as real * 8.0 / SECONDS as real
  }

  lemma RateInWindow(ring: Ring, log: Log, now: nat)
    requires ring.Valid()
    requires Total(ring.Sweep(now).history) in {SumOver(log, now - 20, now + 1), SumOver(log, now - 19, now + 1)}
    ensures SumOver(log, now - 19, now + 1) as real <= Bps(ring, now) * 20.0 / 8.0 <= SumOver(log, now - 20, now + 1) as real
  {
    hide Total, Ring.Sweep;
    assert SumOver(log, now - 20, now + 1) == At(log, now - 20) + SumOver(log, now - 19, now + 1);
  }

  /**
   After every run of reads, chokes and queries, the rate accounts for at least the bytes of the last
   20 seconds, and at most for those of the last 21.
   */
  lemma RateBracketed(run: seq<Timed>, now: nat)
    requires InOrder(run) && LastTime(run) <= now
    ensures SumOver(LogOf(run), now - 19, now + 1) as real
         <= Bps(RingAfter(run), now) * 20.0 / 8.0
         <= SumOver(LogOf(run), now - 20, now + 1) as real
  {
    hide RingAfter, LogOf, Tracks, Ring.Sweep, Total, Bps;
    RunTracks(run);
    SweptTotal(RingAfter(run), LogOf(run), LastTime(run), now);
    RateInWindow(RingAfter(run), LogOf(run), now);
  }

  /** The upper bound is reached: a rate can include a second more than the window it is divided by. */
  lemma OneSecondTooMany()
    ensures var run := [Timed(0, Bytes(100))];
      && InOrder(run) && Bps(RingAfter(run), 20) == 40.0
      && SumOver(LogOf(run), 20 - 19, 20 + 1) == 0
  {
    var run := [Timed(0, Bytes(100))];
    assert run[..0] == [];
    assert LogOf(run) == map[0 := 100];
    SweptTotal(RingAfter(run), LogOf(run), 0, 20) by { RunTracks(run); }
    SumOverNothing(LogOf(run), 1, 21);
  }

  lemma SweptSlot(ring: Ring, now: nat, i: nat)
    requires ring.Valid() && i < SECONDS
    ensures var stale := now - ring.resetTime[i] > SECONDS;
      && ring.Sweep(now).history[i] == (if stale then 0 else ring.history[i])
      && ring.Sweep(now).resetTime[i] == (if stale then now else ring.resetTime[i])
  {
  }

  /** The two arrays of a transfer direction. */
  class RateHistory {
    const history: array<nat>
    const resetTime: array<nat>
    ghost var log: Log
    ghost var last: nat

    ghost predicate Shape()
      reads this
    {
      history != resetTime && history.Length == resetTime.Length == SECONDS
    }

    ghost function R(): Ring
      reads this, history, resetTime
    {
      Ring(history[..], resetTime[..])
    }

    ghost predicate Valid()
      reads this, history, resetTime
    {
      Shape() && Tracks(R(), log, last)
    }

    constructor ()
      ensures Valid() && fresh(history) && fresh(resetTime) && log == map[] && last == 0
    {
      history, resetTime := new nat[SECONDS](_ => 0), new nat[SECONDS](_ => 0);
      log, last := map[], 0;
      new;
      StartTracks();
      assert history[..] == Empty().history && resetTime[..] == Empty().resetTime;
    }

    /** `HandleRead` and `HandleDataSent`: bytes went over the connection. */
    method Record(currentSecond: nat, bytes: nat)
      requires Valid() && last <= currentSecond
      modifies this`log, this`last, history, resetTime
      ensures Valid() && R() == old(R()).Record(currentSecond, bytes)
      ensures log == Logged(old(log), currentSecond, bytes) && last == currentSecond
    {
      hide Tracks, Logged;
      RecordKeepsTrack(R(), log, last, currentSecond, bytes);
      var i := currentSecond % SECONDS;
      if resetTime[i] != currentSecond {
        resetTime[i] := currentSecond;
        history[i] := bytes;
      } else {
        history[i] := history[i] + bytes;
      }
      log, last := Logged(log, currentSecond, bytes), currentSecond;
    }

    /** The peer chokes us: the present second begins at nothing, if nothing has come in it. */
    method Choke(currentSecond: nat)
      requires Valid() && last <= currentSecond
      modifies this`last, history, resetTime
      ensures Valid() && R() == old(R()).Record(currentSecond, 0) && last == currentSecond
    {
      hide Tracks, Logged;
      ChokeKeepsTrack(R(), log, last, currentSecond);
      var i := currentSecond % SECONDS;
      if resetTime[i] != currentSecond {
        resetTime[i] := currentSecond;
        history[i] := 0;
      }
      assert R() == old(R()).Record(currentSecond, 0);
      last := currentSecond;
    }

    /** Empty the slots that are too old, and add them all up. */
    method SweepAndAdd(currentSecond: nat) returns (sum: nat)
      requires Shape()
      modifies history, resetTime
      ensures Shape() && R() == old(R()).Sweep(currentSecond) && sum == Total(R().history)
    {
      hide Total, Ring.Sweep;
      ghost var ring, swept := R(), R().Sweep(currentSecond);
      sum := 0;
      TotalNone(swept.history);
      var i := 0;
      while i < SECONDS
        invariant i <= SECONDS
        invariant forall j :: 0 <= j < i ==> history[j] == swept.history[j] && resetTime[j] == swept.resetTime[j]
        invariant forall j :: i <= j < SECONDS ==> history[j] == ring.history[j] && resetTime[j] == ring.resetTime[j]
        invariant sum == Total(swept.history[..i])
        modifies history, resetTime
      {
        SweptSlot(ring, currentSecond, i);
        if currentSecond - resetTime[i] > SECONDS {
          history[i] := 0;
          resetTime[i] := currentSecond;
        }
        TotalLast(swept.history, i);
        sum := sum + history[i];
        i := i + 1;
      }
      assert history[..] == swept.history && resetTime[..] == swept.resetTime;
      assert swept.history[..SECONDS] == swept.history;
    }

    /** `GetBpsDownload` and `GetBpsUpload`. */
    method GetBps(currentSecond: nat) returns (bps: real)
      requires Valid() && last <= currentSecond
      modifies this`last, history, resetTime
      ensures Valid() && R() == old(R()).Sweep(currentSecond) && last == currentSecond
      ensures bps == Bps(old(R()), currentSecond)
      ensures SumOver(log, currentSecond - 19, currentSecond + 1) as real <= bps * 20.0 / 8.0
           <= SumOver(log, currentSecond - 20, currentSecond + 1) as real
    {
      SweepKeepsTrack(R(), log, last, currentSecond);
      SweptTotal(R(), log, last, currentSecond);
      RateInWindow(R(), log, currentSecond);
      hide Tracks, Total, SumOver, Ring.Sweep;
      var sum := SweepAndAdd(currentSecond);
      last := currentSecond;
      bps := (sum as real * 8.0) / SECONDS as real;
    }
  }
}
