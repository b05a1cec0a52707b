/**
 Which connections a client makes and accepts. The client counts its own address among the addresses it
 is connected to, so that it never connects to itself.
 */
module PeerConnector {
  type Address = nat

  /** A swarm member as the tracker names it. */
  datatype Candidate = Candidate(ip: Address, port: nat)

  datatype Settings = Settings(own: Address, maxPeers: nat, desiredPeers: nat, listenerPort: nat) {
    predicate Valid() {
      maxPeers < 0x1_0000 && desiredPeers < 0x1_0000
    }
  }

  /**
   `peers` are the remote addresses of the `Peer` objects created so far, `waiting` those of the objects for
   which it is not decided yet whether they are connected, `dials` the connections begun.
   */
  datatype State = State(
    connectedTo: set<Address>,
    pending: set<Address>,
    knownSeeders: set<Address>,
    potential: seq<Candidate>,
    downloadCompleted: bool,
    connectedToCloud: bool,
    peers: set<Address>,
    waiting: multiset<Address>,
    dials: seq<Candidate>)
  {
    /** The connections there are or that are begun, without the one to itself. */
    function Connections(): int {
      |connectedTo| - 1 + |pending|
    }

    /** 16 bits wide. */
    function PeerCount(): nat {
      Connections() % 0x1_0000
    }

    predicate Known(ip: Address) {
      ip in connectedTo || ip in pending
    }

    /** 0: accepted; 1: enough peers; 2: connected already; 3: our own attempt is preferred; 4: two seeders. */
    function AcceptConnection(c: Settings, ip: Address): nat {
      if PeerCount() >= c.maxPeers then 1
      else if downloadCompleted && ip in knownSeeders then 4
      else if ip in connectedTo then 2
      else if ip in pending && c.own <= ip then 3
      else 0
    }
  }

  // ----- Steps -----

  function DialOne(c: Settings, s: State, address: Address, port: nat): State {
    if s.Known(address) then s
    else
      s.(pending := s.pending + {address}, peers := s.peers + {address}, waiting := s.waiting + multiset{address},
         dials := s.dials + [Candidate(address, if port == 0 then c.listenerPort else port)])
  }

  /** The first `room` candidates that are not known, each address once. */
  function Fresh(candidates: seq<Candidate>, known: set<Address>, room: nat): seq<Candidate> {
    if room == 0 || candidates == [] then []
    else if candidates[0].ip in known then Fresh(candidates[1..], known, room)
    else [candidates[0]] + Fresh(candidates[1..], known + {candidates[0].ip}, room - 1)
  }

  ghost function Ips(cs: seq<Candidate>): (r: set<Address>)
    ensures forall c :: c in cs ==> c.ip in r
  {
    set c | c in cs :: c.ip
  }

  ghost function IpList(cs: seq<Candidate>): multiset<Address> {
    if cs == [] then multiset{} else multiset{cs[0].ip} + IpList(cs[1..])
  }

  function Min(a: int, b: int): int {
    if a < b then a else b
  }

  /** How many connections one call may begin. */
  function Room(c: Settings, s: State, count: nat): nat {
    var wanted := if count == 0 then c.desiredPeers else count;
    if s.downloadCompleted then 0 else RoomLeft(c, s, Min(wanted, c.maxPeers - s.PeerCount()))
  }

  function RoomLeft(c: Settings, s: State, atMost: int): nat {
    var n := Min(atMost, c.desiredPeers - s.PeerCount());
    if n < 0 then 0 else n
  }

  /** Connections to all of these candidates are begun. */
  ghost function Dialled(s: State, chosen: seq<Candidate>): State {
    s.(pending := s.pending + Ips(chosen), peers := s.peers + Ips(chosen), waiting := s.waiting + IpList(chosen),
       dials := s.dials + chosen)
  }

  ghost function Chosen(c: Settings, s: State, count: nat, start: nat): seq<Candidate>
    requires start <= |s.potential|
  {
    Fresh(s.potential[start..], s.connectedTo + s.pending, Room(c, s, count))
  }

  ghost function DialSome(c: Settings, s: State, count: nat, start: nat): State
    requires start <= |s.potential|
  {
    Dialled(s, Chosen(c, s, count, start))
  }

  function Incoming(c: Settings, s: State, ip: Address): State {
    if s.connectedToCloud && s.AcceptConnection(c, ip) == 0 then
      s.(peers := s.peers + {ip}, waiting := s.waiting + multiset{ip})
    else s
  }

  /** The time to decide about one of the objects has come. */
  function Decided(s: State, ip: Address): State {
    s.(waiting := s.waiting - multiset{ip})
  }

  function Established(s: State, ip: Address): State {
    s.(connectedTo := s.connectedTo + {ip}, pending := s.pending - {ip})
  }

  function Dropped(s: State, ip: Address): State {
    s.(pending := s.pending - {ip})
  }

  function Closed(s: State, ip: Address): State {
    s.(connectedTo := s.connectedTo - {ip})
  }

  // ----- What every step keeps -----

  ghost predicate Sound(c: Settings, s: State) {
    && c.own in s.connectedTo && c.own !in s.peers
    && s.pending !! s.connectedTo
    && s.pending <= s.peers && (forall ip :: ip in s.waiting ==> ip in s.peers) && s.connectedTo <= s.peers + {c.own}
    && Ips(s.dials) <= s.peers
  }

  function Initial(c: Settings, completed: bool): State {
    State({c.own}, {}, {}, [], completed, false, {}, multiset{}, [])
  }

  datatype Event =
    | Dial(address: Address, port: nat)
    | DialMany(count: nat, start: nat)
    | Asked(ip: Address)
    | Connected(ip: Address)
    | Failed(ip: Address)
    | Rejected(ip: Address)
    | ConnectionClosed(ip: Address)
    | TrackerAnswered(potential: seq<Candidate>)
    | SeederMet(ip: Address)
    | Completed
    | CloudChanged(connected: bool)

  /** Events about a connection are about one of the peer objects. */
  predicate Enabled(s: State, e: Event) {
    match e
    case DialMany(_, start) => start <= |s.potential|
    case Connected(ip) => ip in s.waiting
    case Rejected(ip) => ip in s.waiting
    case Failed(ip) => ip in s.peers
    case ConnectionClosed(ip) => ip in s.peers
    case _ => true
  }

  ghost function Apply(c: Settings, s: State, e: Event): State
    requires Enabled(s, e)
  {
    match e
    case Dial(address, port) => DialOne(c, s, address, port)
    case DialMany(count, start) => DialSome(c, s, count, start)
    case Asked(ip) => Incoming(c, s, ip)
    case Connected(ip) => Established(Decided(s, ip), ip)
    case Rejected(ip) => Dropped(Decided(s, ip), ip)
    case Failed(ip) => Dropped(s, ip)
    case ConnectionClosed(ip) => Closed(s, ip)
    case TrackerAnswered(potential) => s.(potential := potential)
    case SeederMet(ip) => s.(knownSeeders := s.knownSeeders + {ip})
    case Completed => s.(downloadCompleted := true)
    case CloudChanged(connected) => s.(connectedToCloud := connected)
  }

  lemma IpsOfOne(x: Candidate, tail: seq<Candidate>)
    ensures Ips([x] + tail) == {x.ip} + Ips(tail) && Ips([]) == {}
  {
  }

  lemma IpsOfBoth(a: seq<Candidate>, b: seq<Candidate>)
    ensures Ips(a + b) == Ips(a) + Ips(b)
  {
  }

  lemma {:induction false} IpListAppend(cs: seq<Candidate>, x: Candidate)
    ensures IpList(cs + [x]) == IpList(cs) + multiset{x.ip}
  {
    if cs == [] {
      assert [x][1..] == [] && cs + [x] == [x];
    } else {
      IpListAppend(cs[1..], x);
      assert (cs + [x])[1..] == cs[1..] + [x];
    }
  }

  lemma {:induction false} IpListMembers(cs: seq<Candidate>)
    ensures forall ip :: ip in IpList(cs) <==> ip in Ips(cs)
  {
    if cs != [] {
      IpListMembers(cs[1..]);
      IpsOfOne(cs[0], cs[1..]);
      assert cs == [cs[0]] + cs[1..];
    }
  }

  /** At most `room` addresses are chosen, none of them known, none of them twice. */
  lemma {:induction false} FreshShape(candidates: seq<Candidate>, known: set<Address>, room: nat)
    ensures var r := Fresh(candidates, known, room);
            |r| <= room && Ips(r) !! known && |Ips(r)| == |r|
  {
    hide Ips;
    IpsOfOne(Candidate(0, 0), []);
    if room > 0 && candidates != [] {
      var x, rest := candidates[0], candidates[1..];
      if x.ip in known {
        FreshShape(rest, known, room);
      } else {
        FreshShape(rest, known + {x.ip}, room - 1);
        IpsOfOne(x, Fresh(rest, known + {x.ip}, room - 1));
      }
    }
  }

  /** Fewer are chosen only if all candidates are known or chosen. */
  lemma {:induction false} FreshExhausts(candidates: seq<Candidate>, known: set<Address>, room: nat)
    ensures var r := Fresh(candidates, known, room);
            |r| < room ==> forall x :: x in candidates ==> x.ip in known || x.ip in Ips(r)
  {
    hide Ips;
    if room > 0 && candidates != [] {
      var x, rest := candidates[0], candidates[1..];
      if x.ip in known {
        FreshExhausts(rest, known, room);
      } else {
        FreshExhausts(rest, known + {x.ip}, room - 1);
        IpsOfOne(x, Fresh(rest, known + {x.ip}, room - 1));
      }
      assert candidates == [x] + rest;
    }
  }

  lemma DialOneSound(c: Settings, s: State, address: Address, port: nat)
    requires Sound(c, s)
    ensures Sound(c, DialOne(c, s, address, port))
  {
    var d := Candidate(address, if port == 0 then c.listenerPort else port);
    IpsOfBoth(s.dials, [d]);
    IpsOfOne(d, []);
    assert [d] + [] == [d];
    hide Ips;
  }

  lemma DialSomeSound(c: Settings, s: State, count: nat, start: nat)
    requires Sound(c, s) && start <= |s.potential|
    ensures Sound(c, DialSome(c, s, count, start))
  {
    var known, room := s.connectedTo + s.pending, Room(c, s, count);
    FreshShape(s.potential[start..], known, room);
    IpsOfBoth(s.dials, Fresh(s.potential[start..], known, room));
    IpListMembers(Fresh(s.potential[start..], known, room));
    hide Fresh, Room, Ips, IpList;
  }

  lemma EstablishedSound(c: Settings, s: State, ip: Address)
    requires Sound(c, s) && ip in s.peers
    ensures Sound(c, Established(s, ip))
  {
    hide Ips;
  }

  lemma ApplySound(c: Settings, s: State, e: Event)
    requires Sound(c, s) && Enabled(s, e)
    ensures Sound(c, Apply(c, s, e))
  {
    hide DialOne, DialSome, Ips, State.PeerCount;
    match e {
      case Dial(address, port) => DialOneSound(c, s, address, port);
      case DialMany(count, start) => DialSomeSound(c, s, count, start);
      case _ => {}
    }
  }

  /** The states of a run, the first of them initial. */
  ghost predicate IsRun(c: Settings, states: seq<State>, events: seq<Event>) {
    && |states| == |events| + 1 && (exists done :: states[0] == Initial(c, done))
    && forall i :: 0 <= i < |events| ==> Enabled(states[i], events[i]) && states[i + 1] == Apply(c, states[i], events[i])
  }

  /**
   In every reachable state the client's own address is counted, so the peer count does not underflow;
   no address is pending and connected at once; and the client has never dialled itself.
   */
  lemma {:induction false} EveryReachableStateSound(c: Settings, states: seq<State>, events: seq<Event>, i: nat)
    requires IsRun(c, states, events) && i < |states|
    ensures Sound(c, states[i]) && |states[i].connectedTo| >= 1
    ensures forall d :: d in states[i].dials ==> d.ip != c.own
  {
    hide Apply, Enabled;
    if i > 0 {
      EveryReachableStateSound(c, states, events, i - 1);
      ApplySound(c, states[i - 1], events[i - 1]);
    }
    OwnCounted(c, states[i]);
  }

  lemma SubsetSmaller(a: set<Address>, b: set<Address>)
    requires a <= b
    ensures |a| <= |b|
  {
    assert |b - a| == |b| - |a|;
  }

  lemma OwnCounted(c: Settings, s: State)
    requires c.own in s.connectedTo
    ensures |s.connectedTo| >= 1
  {
    assert {c.own} <= s.connectedTo;
    SubsetSmaller({c.own}, s.connectedTo);
  }

  /**
   A call for more connections begins as many as the pending ones grow by, and leaves the count at most
   where it was or at the smaller of the two bounds.
   */
  lemma DialSomeBounded(c: Settings, s: State, count: nat, start: nat)
    requires Sound(c, s) && c.Valid() && start <= |s.potential|
    ensures var s', n := DialSome(c, s, count, start), |Chosen(c, s, count, start)|;
      && n <= Room(c, s, count) && |s'.dials| == |s.dials| + n && |s'.pending| == |s.pending| + n
      && s'.PeerCount() == s.PeerCount() + n
      && (n > 0 ==> s'.PeerCount() <= Min(c.maxPeers, c.desiredPeers))
  {
    hide Fresh, Room, Ips, IpList, State.PeerCount;
    FreshShape(s.potential[start..], s.connectedTo + s.pending, Room(c, s, count));
    RoomBound(c, s, count);
    ChosenGrowth(c, s, count, start);
    CountGrows(s, DialSome(c, s, count, start), |Chosen(c, s, count, start)|);
    hide Chosen;
  }

  lemma CountGrows(s: State, t: State, n: nat)
    requires t.connectedTo == s.connectedTo && |t.pending| == |s.pending| + n && s.PeerCount() + n < 0x1_0000
    ensures t.PeerCount() == s.PeerCount() + n
  {
    CountAfter(|s.connectedTo| - 1 + |s.pending|, n);
  }

  lemma CountAfter(count: int, n: nat)
    requires count % 0x1_0000 + n < 0x1_0000
    ensures (count + n) % 0x1_0000 == count % 0x1_0000 + n
  {
  }

  /** It stops short of its bounds only if every candidate it looked at is known by then. */
  lemma DialSomeExhausts(c: Settings, s: State, count: nat, start: nat)
    requires start <= |s.potential|
    requires |Chosen(c, s, count, start)| < Room(c, s, count)
    ensures forall x :: x in s.potential[start..] ==> DialSome(c, s, count, start).Known(x.ip)
  {
    FreshExhausts(s.potential[start..], s.connectedTo + s.pending, Room(c, s, count));
    hide Fresh, Room, Ips;
  }

  /** It never dials an address that is known, nor its own, nor the same one twice. */
  lemma DialSomeOnlyNew(c: Settings, s: State, count: nat, start: nat)
    requires Sound(c, s) && start <= |s.potential|
    ensures var chosen := Chosen(c, s, count, start);
      && (forall x :: x in chosen ==> !s.Known(x.ip) && x.ip != c.own)
      && |Ips(chosen)| == |chosen| && DialSome(c, s, count, start).dials == s.dials + chosen
  {
    FreshShape(s.potential[start..], s.connectedTo + s.pending, Room(c, s, count));
    InIps(Chosen(c, s, count, start));
    hide Fresh, Room, Ips;
  }

  lemma NothingChosen(cs: seq<Candidate>, known: set<Address>, room: nat)
    ensures cs == [] || room == 0 ==> Fresh(cs, known, room) == []
  {
  }

  lemma FreshNext(cs: seq<Candidate>, known: set<Address>, room: nat)
    requires cs != [] && room > 0
    ensures Fresh(cs, known, room)
      == if cs[0].ip in known then Fresh(cs[1..], known, room)
         else [cs[0]] + Fresh(cs[1..], known + {cs[0].ip}, room - 1)
  {
  }

  lemma RoomLeftCases(c: Settings, s: State, atMost: int)
    ensures RoomLeft(c, s, atMost) == 0 <==> atMost <= 0 || s.PeerCount() >= c.desiredPeers
  {
    hide State.PeerCount;
  }

  lemma RoomLeftNext(c: Settings, s: State, t: State, atMost: int)
    requires RoomLeft(c, s, atMost) > 0 && t.PeerCount() == s.PeerCount() + 1
    ensures RoomLeft(c, t, atMost - 1) == RoomLeft(c, s, atMost) - 1
  {
    hide State.PeerCount;
  }

  lemma DialledNothing(s: State)
    ensures Dialled(s, []) == s
  {
    assert s.dials + [] == s.dials && Ips([]) == {};
  }

  lemma DialledMore(s: State, done: seq<Candidate>, x: Candidate)
    ensures Dialled(Dialled(s, done), [x]) == Dialled(s, done + [x])
  {
    IpsOfBoth(done, [x]);
    IpListAppend(done, x);
    assert [x][1..] == [] && IpList([x]) == multiset{x.ip};
    hide Ips, IpList;
    assert s.waiting + IpList(done) + IpList([x]) == s.waiting + (IpList(done) + IpList([x]));
    assert s.dials + done + [x] == s.dials + (done + [x]);
  }

  lemma NextCount(connected: set<Address>, pending: set<Address>, ip: Address)
    requires ip !in pending && (|connected| - 1 + |pending|) % 0x1_0000 < 0xFFFF
    ensures (|connected| - 1 + |pending + {ip}|) % 0x1_0000 == (|connected| - 1 + |pending|) % 0x1_0000 + 1
  {
    assert |pending + {ip}| == |pending| + 1;
  }

  lemma ChosenFrom(c: Settings, s: State, count: nat, start: nat)
    requires start <= |s.potential|
    ensures var wanted := Min(if count == 0 then c.desiredPeers else count, c.maxPeers - s.PeerCount());
      && DialSome(c, s, count, start) == Dialled(s, Chosen(c, s, count, start))
      && (s.downloadCompleted || wanted <= 0 ==> Room(c, s, count) == 0)
      && (!s.downloadCompleted ==>
            Chosen(c, s, count, start) == Fresh(s.potential[start..], s.connectedTo + s.pending, RoomLeft(c, s, wanted)))
  {
    hide Fresh, Ips, State.PeerCount;
  }

  lemma ChosenGrowth(c: Settings, s: State, count: nat, start: nat)
    requires Sound(c, s) && start <= |s.potential|
    ensures |DialSome(c, s, count, start).pending| == |s.pending| + |Chosen(c, s, count, start)|
    ensures s.potential == [] || Room(c, s, count) == 0 ==> DialSome(c, s, count, start) == s
  {
    var chosen := Chosen(c, s, count, start);
    FreshShape(s.potential[start..], s.connectedTo + s.pending, Room(c, s, count));
    NothingChosen(s.potential[start..], s.connectedTo + s.pending, Room(c, s, count));
    DialledNothing(s);
    hide Fresh, Room, Ips;
    assert |s.pending + Ips(chosen)| == |s.pending| + |Ips(chosen)|;
  }

  lemma InIps(cs: seq<Candidate>)
    ensures forall x :: x in cs ==> x.ip in Ips(cs)
  {
  }

  lemma RoomBound(c: Settings, s: State, count: nat)
    requires c.Valid()
    ensures s.PeerCount() + Room(c, s, count) < 0x1_0000
    ensures Room(c, s, count) > 0 ==> s.PeerCount() + Room(c, s, count) <= Min(c.maxPeers, c.desiredPeers)
  {
  }

  // ----- What each event does -----

  /** What is known of every address but `ip` stays. */
  ghost predicate OthersKept(s: State, t: State, ip: Address) {
    && (forall a :: a != ip ==> (a in t.pending <==> a in s.pending) && (a in t.connectedTo <==> a in s.connectedTo))
    && (forall a :: a != ip ==> t.waiting[a] == s.waiting[a] && (a in t.peers <==> a in s.peers))
    && t.knownSeeders == s.knownSeeders && t.potential == s.potential
    && t.downloadCompleted == s.downloadCompleted && t.connectedToCloud == s.connectedToCloud
  }

  /**
   An attempt that fails, or is given up when its time has come, is not pending any more. Unless the address is
   connected it can be dialled again at once.
   */
  lemma AttemptEnds(c: Settings, s: State, e: Event, port: nat)
    requires Enabled(s, e) && (e.Failed? || e.Rejected?)
    ensures var t := Apply(c, s, e);
      && OthersKept(s, t, e.ip) && e.ip !in t.pending && t.connectedTo == s.connectedTo && t.peers == s.peers && t.dials == s.dials
      && t.waiting[e.ip] == s.waiting[e.ip] - (if e.Rejected? then 1 else 0)
      && (e.ip !in s.connectedTo ==>
            var u := Apply(c, t, Dial(e.ip, port)); e.ip in u.pending && |u.dials| == |s.dials| + 1)
  {
  }

  /** An established connection is not pending but there. */
  lemma AttemptSucceeds(c: Settings, s: State, ip: Address)
    requires Enabled(s, Connected(ip))
    ensures var t := Apply(c, s, Connected(ip));
      && OthersKept(s, t, ip) && ip in t.connectedTo && ip !in t.pending && t.waiting[ip] == s.waiting[ip] - 1
      && t.peers == s.peers && t.dials == s.dials
  {
  }

  /** A closed connection is not there any more; unless the address is pending, it can be dialled again at once. */
  lemma ConnectionEnds(c: Settings, s: State, ip: Address, port: nat)
    requires Enabled(s, ConnectionClosed(ip))
    ensures var t := Apply(c, s, ConnectionClosed(ip));
      && OthersKept(s, t, ip) && ip !in t.connectedTo && t.pending == s.pending && t.waiting == s.waiting
      && t.peers == s.peers && t.dials == s.dials
      && (ip !in s.pending ==> ip in Apply(c, t, Dial(ip, port)).pending)
  {
  }

  /** An explicit connection is begun exactly to an address that is neither connected nor pending. */
  lemma DialEffect(c: Settings, s: State, ip: Address, port: nat)
    ensures var t := Apply(c, s, Dial(ip, port));
      if ip in s.connectedTo || ip in s.pending then t == s
      else
        && OthersKept(s, t, ip) && ip in t.pending && ip in t.peers && ip !in t.connectedTo && t.waiting[ip] == s.waiting[ip] + 1
        && t.dials == s.dials + [Candidate(ip, if port == 0 then c.listenerPort else port)]
  {
  }

  /** A caller that is accepted is a peer for which it is to be decided; it is neither connected nor pending by that. */
  lemma AskedEffect(c: Settings, s: State, ip: Address)
    ensures var t := Apply(c, s, Asked(ip));
      if s.connectedToCloud && s.AcceptConnection(c, ip) == 0 then
        && OthersKept(s, t, ip) && ip in t.peers && t.waiting[ip] == s.waiting[ip] + 1
        && t.connectedTo == s.connectedTo && t.pending == s.pending && t.dials == s.dials
      else t == s
  {
    hide State.AcceptConnection;
  }

  /** The other connections, whether there or begun, are counted, in 16 bits. */
  lemma OthersAreCounted(c: Settings, s: State)
    requires Sound(c, s)
    ensures s.PeerCount() == |(s.connectedTo + s.pending) - {c.own}| % 0x1_0000
  {
    assert s.connectedTo + s.pending == (s.connectedTo + s.pending - {c.own}) + {c.own};
    assert |s.connectedTo + s.pending| == |s.connectedTo| + |s.pending|;
    hide Ips;
  }

  /**
   Which callers are accepted: with enough connections, nobody; by a seeder, no seeder known to it; no address
   that is connected; and of an address that is being dialled, only one lower than the own.
   */
  lemma AcceptedIff(c: Settings, s: State, ip: Address)
    requires Sound(c, s)
    ensures s.AcceptConnection(c, ip) == 0 <==>
      && |(s.connectedTo + s.pending) - {c.own}| % 0x1_0000 < c.maxPeers
      && !(s.downloadCompleted && ip in s.knownSeeders)
      && ip !in s.connectedTo && (ip in s.pending ==> ip < c.own)
    ensures s.AcceptConnection(c, ip) == 1 <==> |(s.connectedTo + s.pending) - {c.own}| % 0x1_0000 >= c.maxPeers
    ensures s.PeerCount() < c.maxPeers ==>
      && (s.AcceptConnection(c, ip) == 4 <==> s.downloadCompleted && ip in s.knownSeeders)
      && (s.AcceptConnection(c, ip) == 2 <==> ip in s.connectedTo && !(s.downloadCompleted && ip in s.knownSeeders))
  {
    OthersAreCounted(c, s);
    hide State.PeerCount, Ips;
  }

  /** `n` connections may be begun if and only if neither bound nor the number asked for is passed by that. */
  lemma RoomIff(c: Settings, s: State, count: nat, n: nat)
    requires n > 0
    ensures n <= Room(c, s, count) <==>
      && !s.downloadCompleted && (count > 0 ==> n <= count)
      && s.PeerCount() + n <= c.maxPeers && s.PeerCount() + n <= c.desiredPeers
  {
    hide State.PeerCount;
  }

  /**
   The candidates chosen are the first: each stands at a place in front of which every address is known, or
   chosen before.
   */
  lemma {:induction false} FreshIsFirst(candidates: seq<Candidate>, known: set<Address>, room: nat, i: nat) returns (at: nat)
    requires i < |Fresh(candidates, known, room)|
    ensures var r := Fresh(candidates, known, room);
      && at < |candidates| && r[i] == candidates[at]
      && forall j :: 0 <= j < at ==> candidates[j].ip in known || candidates[j].ip in Ips(r[..i])
  {
    hide Ips;
    var x, rest := candidates[0], candidates[1..];
    if x.ip in known {
      at := FreshIsFirst(rest, known, room, i);
      at := at + 1;
    } else if i == 0 {
      at := 0;
    } else {
      var r := Fresh(rest, known + {x.ip}, room - 1);
      at := FreshIsFirst(rest, known + {x.ip}, room - 1, i - 1);
      at := at + 1;
      assert Fresh(candidates, known, room)[..i] == [x] + r[..i - 1];
      IpsOfOne(x, r[..i - 1]);
    }
  }

  /** A call for more connections makes every chosen address pending, and waits to decide about each once more. */
  lemma DialManyEffect(c: Settings, s: State, count: nat, start: nat)
    requires Sound(c, s) && start <= |s.potential|
    ensures var t, chosen := Apply(c, s, DialMany(count, start)), Ips(Chosen(c, s, count, start));
      && t.dials == s.dials + Chosen(c, s, count, start) && t.connectedTo == s.connectedTo
      && t.potential == s.potential && t.knownSeeders == s.knownSeeders
      && (forall a :: a in t.pending <==> a in s.pending || a in chosen)
      && (forall a :: a in t.peers <==> a in s.peers || a in chosen)
      && (forall a :: a in t.waiting <==> a in s.waiting || a in chosen)
  {
    IpListMembers(Chosen(c, s, count, start));
    hide Ips, IpList, Chosen;
  }

  /** The remaining events are noted, and change no connection. */
  lemma NewsEffect(c: Settings, s: State, e: Event)
    requires Enabled(s, e) && (e.TrackerAnswered? || e.SeederMet? || e.Completed? || e.CloudChanged?)
    ensures var t := Apply(c, s, e);
      && t.connectedTo == s.connectedTo && t.pending == s.pending && t.peers == s.peers && t.waiting == s.waiting
      && t.dials == s.dials
      && t.potential == (if e.TrackerAnswered? then e.potential else s.potential)
      && (forall a :: a in t.knownSeeders <==> a in s.knownSeeders || e == SeederMet(a))
      && t.downloadCompleted == (s.downloadCompleted || e.Completed?)
      && t.connectedToCloud == (if e.CloudChanged? then e.connected else s.connectedToCloud)
  {
  }

  /** Every pending address waits to be decided about. */
  ghost predicate PendingWaits(s: State) {
    forall ip :: ip in s.pending ==> ip in s.waiting
  }

  lemma StepKeepsPendingWaits(c: Settings, s: State, e: Event)
    requires Enabled(s, e) && PendingWaits(s)
    ensures PendingWaits(Apply(c, s, e))
  {
    if e.DialMany? {
      IpListMembers(Chosen(c, s, e.count, e.start));
    }
    hide Ips, IpList, Chosen, State.AcceptConnection;
  }

  /** Nothing stays pending for ever: in every reachable state, what is pending waits to be decided about. */
  lemma {:induction false} EverythingPendingWaits(c: Settings, states: seq<State>, events: seq<Event>, i: nat)
    requires IsRun(c, states, events) && i < |states|
    ensures PendingWaits(states[i]) && (states[i].waiting == multiset{} ==> states[i].pending == {})
  {
    hide Apply, Enabled;
    if i > 0 {
      EverythingPendingWaits(c, states, events, i - 1);
      StepKeepsPendingWaits(c, states[i - 1], events[i - 1]);
    }
  }

  // ----- How many connections there can be -----

  /** The addresses of all connections there are or may turn out to be, and the own one. */
  ghost function Claimed(s: State): set<Address> {
    s.connectedTo + s.pending + set ip | ip in s.waiting
  }

  ghost predicate Bounded(c: Settings, s: State) {
    |Claimed(s)| - 1 <= c.maxPeers
  }

  /** The addresses that an event adds to them. Those that are accepted are not counted before they are connected. */
  ghost function NewClaims(c: Settings, s: State, e: Event): set<Address>
    requires Enabled(s, e)
  {
    match e
    case Dial(address, _) => if s.Known(address) then {} else {address} - Claimed(s)
    case DialMany(count, start) => Ips(Chosen(c, s, count, start)) - Claimed(s)
    case Asked(ip) => if s.connectedToCloud && s.AcceptConnection(c, ip) == 0 then {ip} - Claimed(s) else {}
    case _ => {}
  }

  predicate Begins(e: Event) {
    e.Dial? || e.DialMany? || e.Asked?
  }

  lemma ClaimedAfterBeginning(c: Settings, s: State, e: Event)
    requires Sound(c, s) && Enabled(s, e) && Begins(e)
    ensures Claimed(Apply(c, s, e)) == Claimed(s) + NewClaims(c, s, e)
  {
    if e.DialMany? {
      IpListMembers(Chosen(c, s, e.count, e.start));
    }
    hide Ips, IpList, Chosen, State.AcceptConnection;
  }

  lemma ClaimedAfterOthers(c: Settings, s: State, e: Event)
    requires Sound(c, s) && Enabled(s, e) && !Begins(e)
    ensures Claimed(Apply(c, s, e)) <= Claimed(s)
  {
    hide Ips, Chosen;
  }

  /** A step keeps the bound if and only if the addresses it adds find room besides all that may come about. */
  lemma StepKeepsBoundIff(c: Settings, s: State, e: Event)
    requires Sound(c, s) && Bounded(c, s) && Enabled(s, e)
    ensures Bounded(c, Apply(c, s, e)) <==> |NewClaims(c, s, e)| <= c.maxPeers - (|Claimed(s)| - 1)
  {
    hide Sound, Apply;
    if Begins(e) {
      ClaimedAfterBeginning(c, s, e);
      assert Claimed(s) !! NewClaims(c, s, e);
    } else {
      ClaimedAfterOthers(c, s, e);
      SubsetSmaller(Claimed(Apply(c, s, e)), Claimed(s));
    }
    hide Claimed;
  }

  /** The step passes the bound: an unknown address is dialled explicitly, or a caller accepted before is connected. */
  predicate Passes(c: Settings, s: State, e: Event) {
    && s.Connections() == c.maxPeers
    && ((e.Dial? && !s.Known(e.address)) || (e.Connected? && !s.Known(e.ip)))
  }

  lemma DialCounts(c: Settings, s: State, address: Address, port: nat)
    requires Sound(c, s)
    ensures DialOne(c, s, address, port).Connections() == s.Connections() + if s.Known(address) then 0 else 1
  {
    assert address !in s.pending ==> |s.pending + {address}| == |s.pending| + 1;
    hide Ips;
  }

  lemma EstablishedCounts(c: Settings, s: State, ip: Address)
    requires Sound(c, s)
    ensures Established(s, ip).Connections() == s.Connections() + if s.Known(ip) then 0 else 1
  {
    hide Ips;
    if ip in s.connectedTo {
      assert s.connectedTo + {ip} == s.connectedTo && s.pending - {ip} == s.pending;
    } else {
      assert |s.connectedTo + {ip}| == |s.connectedTo| + 1;
      assert |s.pending - {ip}| == |s.pending| - if ip in s.pending then 1 else 0;
    }
  }

  lemma EndingsCount(s: State, ip: Address)
    ensures Dropped(s, ip).Connections() <= s.Connections() && Closed(s, ip).Connections() <= s.Connections()
  {
    SubsetSmaller(s.pending - {ip}, s.pending);
    SubsetSmaller(s.connectedTo - {ip}, s.connectedTo);
  }

  lemma CallCounts(c: Settings, s: State, count: nat, start: nat)
    requires Sound(c, s) && c.Valid() && start <= |s.potential| && s.Connections() <= c.maxPeers
    ensures DialSome(c, s, count, start).Connections() <= c.maxPeers
  {
    OwnCounted(c, s);
    BoundedCount(s.Connections(), c);
    DialSomeBounded(c, s, count, start);
    RoomBound(c, s, count);
    hide Sound, Room, Chosen, Ips, IpList;
  }

  /** The number of connections is kept within the bound by all steps but those. */
  lemma CountKeptIff(c: Settings, s: State, e: Event)
    requires Sound(c, s) && c.Valid() && Enabled(s, e) && s.Connections() <= c.maxPeers
    ensures Apply(c, s, e).Connections() <= c.maxPeers <==> !Passes(c, s, e)
  {
    hide Sound, DialSome, DialOne, Established, Dropped, Closed, State.AcceptConnection;
    match e {
      case Dial(address, port) => DialCounts(c, s, address, port);
      case DialMany(count, start) => CallCounts(c, s, count, start);
      case Connected(ip) => {
        DecidedSound(c, s, ip);
        EstablishedCounts(c, Decided(s, ip), ip);
      }
      case Rejected(ip) => EndingsCount(Decided(s, ip), ip);
      case Failed(ip) => EndingsCount(s, ip);
      case ConnectionClosed(ip) => EndingsCount(s, ip);
      case _ => {}
    }
  }

  lemma DecidedSound(c: Settings, s: State, ip: Address)
    requires Sound(c, s)
    ensures Sound(c, Decided(s, ip))
  {
    hide Ips;
  }

  /** A run in which connections are only decided about, closed or lost, and none is begun. */
  ghost predicate Unfolds(c: Settings, s: State, states: seq<State>, events: seq<Event>) {
    && |states| == |events| + 1 && states[0] == s
    && forall i :: 0 <= i < |events| ==>
         Enabled(states[i], events[i]) && !Begins(events[i]) && states[i + 1] == Apply(c, states[i], events[i])
  }

  lemma {:induction false} UnfoldsBounded(c: Settings, s: State, states: seq<State>, events: seq<Event>, i: nat)
    requires Sound(c, s) && Bounded(c, s) && Unfolds(c, s, states, events) && i < |states|
    ensures Sound(c, states[i]) && Bounded(c, states[i])
  {
    hide Sound, Apply, Enabled, Claimed, Begins;
    if i > 0 {
      UnfoldsBounded(c, s, states, events, i - 1);
      ApplySound(c, states[i - 1], events[i - 1]);
      ClaimedAfterOthers(c, states[i - 1], events[i - 1]);
      SubsetSmaller(Claimed(states[i]), Claimed(states[i - 1]));
    }
  }

  /** A claim that is not counted yet is, once its connection is there. */
  lemma DecisionCounts(c: Settings, s: State, ip: Address)
    requires Sound(c, s) && ip in s.waiting && !s.Known(ip)
    ensures Enabled(s, Connected(ip)) && Sound(c, Apply(c, s, Connected(ip)))
    ensures Claimed(Apply(c, s, Connected(ip))) == Claimed(s)
    ensures Apply(c, s, Connected(ip)).Connections() == s.Connections() + 1
  {
    ApplySound(c, s, Connected(ip));
    DecidedSound(c, s, ip);
    EstablishedCounts(c, Decided(s, ip), ip);
    hide Sound;
  }

  /** When all who wait are connected, the number of connections passes the bound. */
  lemma {:induction false} OverflowRun(c: Settings, s: State) returns (states: seq<State>, events: seq<Event>)
    requires Sound(c, s) && !Bounded(c, s)
    ensures Unfolds(c, s, states, events) && states[|events|].Connections() > c.maxPeers
    ensures forall e :: e in events ==> e.Connected?
    decreases c.maxPeers + 1 - s.Connections()
  {
    hide Sound, Apply, Claimed, Enabled, State.Known;
    states, events := [s], [];
    if s.Connections() <= c.maxPeers {
      var ip := Uncounted(c, s);
      DecisionCounts(c, s, ip);
      var rest, later := OverflowRun(c, Apply(c, s, Connected(ip)));
      states, events := [s] + rest, [Connected(ip)] + later;
    }
  }

  lemma Uncounted(c: Settings, s: State) returns (ip: Address)
    requires Sound(c, s) && !Bounded(c, s) && s.Connections() <= c.maxPeers
    ensures ip in s.waiting && !s.Known(ip)
  {
    assert |s.connectedTo + s.pending| == |s.connectedTo| + |s.pending|;
    assert Claimed(s) != s.connectedTo + s.pending;
    ip :| ip in Claimed(s) && ip !in s.connectedTo + s.pending;
  }

  /**
   From a state the number of connections can pass the bound without another one being begun if and only if
   more addresses than allowed are claimed.
   */
  lemma OverflowIff(c: Settings, s: State)
    requires Sound(c, s)
    ensures (exists states: seq<State>, events :: Unfolds(c, s, states, events) && states[|events|].Connections() > c.maxPeers)
       <==> !Bounded(c, s)
  {
    if Bounded(c, s) {
      forall states: seq<State>, events | Unfolds(c, s, states, events) ensures states[|events|].Connections() <= c.maxPeers {
        UnfoldsBounded(c, s, states, events, |events|);
        CountAtMostClaimed(c, states[|events|]);
      }
    } else {
      var states, events := OverflowRun(c, s);
    }
    hide Sound, Bounded, Unfolds;
  }

  lemma CountAtMostClaimed(c: Settings, s: State)
    requires Sound(c, s)
    ensures s.Connections() <= |Claimed(s)| - 1 && s.PeerCount() <= |Claimed(s)| - 1
  {
    OwnCounted(c, s);
    assert |s.connectedTo + s.pending| == |s.connectedTo| + |s.pending|;
    SubsetSmaller(s.connectedTo + s.pending, Claimed(s));
    AtMostItself(|s.connectedTo| - 1 + |s.pending|);
    hide Claimed, Sound;
  }

  lemma AtMostItself(x: nat)
    ensures x % 0x1_0000 <= x
  {
  }

  /** When nothing waits that is not counted, the count is that of all claims. */
  lemma QuietCount(c: Settings, s: State)
    requires Sound(c, s) && c.Valid() && Bounded(c, s) && Claimed(s) == s.connectedTo + s.pending
    ensures s.PeerCount() == |Claimed(s)| - 1 <= c.maxPeers
  {
    OwnCounted(c, s);
    assert |s.connectedTo + s.pending| == |s.connectedTo| + |s.pending|;
    BoundedCount(|s.connectedTo| - 1 + |s.pending|, c);
    hide Claimed, Sound;
  }

  lemma CallHasRoom(c: Settings, s: State, count: nat, start: nat)
    requires c.Valid() && start <= |s.potential| && s.PeerCount() <= c.maxPeers
    ensures |Ips(Chosen(c, s, count, start)) - Claimed(s)| <= c.maxPeers - s.PeerCount()
  {
    FreshShape(s.potential[start..], s.connectedTo + s.pending, Room(c, s, count));
    RoomBound(c, s, count);
    SubsetSmaller(Ips(Chosen(c, s, count, start)) - Claimed(s), Ips(Chosen(c, s, count, start)));
    hide Claimed, Ips, Fresh, Room, State.PeerCount;
  }

  lemma CallerHasRoom(c: Settings, s: State, ip: Address)
    requires s.AcceptConnection(c, ip) == 0
    ensures |{ip} - Claimed(s)| <= c.maxPeers - s.PeerCount()
  {
    SubsetSmaller({ip} - Claimed(s), {ip});
    hide Claimed;
  }

  /**
   While nothing waits that is not counted, neither a call for more connections nor an accepted caller
   exceeds the bound; only an explicit connection can.
   */
  lemma QuietStepKeepsBound(c: Settings, s: State, e: Event)
    requires Sound(c, s) && c.Valid() && Bounded(c, s) && Enabled(s, e) && !e.Dial?
    requires Claimed(s) == s.connectedTo + s.pending
    ensures Bounded(c, Apply(c, s, e))
  {
    hide Claimed, Ips, Chosen, Apply, Sound, Bounded, State.PeerCount, State.AcceptConnection;
    StepKeepsBoundIff(c, s, e);
    QuietCount(c, s);
    match e {
      case DialMany(count, start) => CallHasRoom(c, s, count, start);
      case Asked(ip) => {
        if s.AcceptConnection(c, ip) == 0 {
          CallerHasRoom(c, s, ip);
        }
      }
      case _ => {}
    }
  }

  lemma BoundedCount(x: int, c: Settings)
    requires c.Valid() && 0 <= x <= c.maxPeers
    ensures x % 0x1_0000 == x
  {
  }

  /** Over whole runs: as long as every step finds room, there are never more connections than allowed. */
  lemma {:induction false} ConnectionsBounded(c: Settings, states: seq<State>, events: seq<Event>, i: nat)
    requires IsRun(c, states, events) && i < |states|
    requires forall j :: 0 <= j < i ==>
      Enabled(states[j], events[j]) && |NewClaims(c, states[j], events[j])| <= c.maxPeers - (|Claimed(states[j])| - 1)
    ensures Bounded(c, states[i]) && states[i].PeerCount() <= c.maxPeers
    ensures |states[i].connectedTo - {c.own}| <= c.maxPeers
  {
    hide Apply, Enabled, NewClaims, Claimed, Sound, Initial, State.PeerCount;
    EveryReachableStateSound(c, states, events, i);
    if i > 0 {
      ConnectionsBounded(c, states, events, i - 1);
      EveryReachableStateSound(c, states, events, i - 1);
      StepKeepsBoundIff(c, states[i - 1], events[i - 1]);
    } else {
      var done :| states[0] == Initial(c, done);
      InitiallyBounded(c, done);
    }
    CountAtMostClaimed(c, states[i]);
    OthersCounted(c, states[i]);
  }

  lemma InitiallyBounded(c: Settings, done: bool)
    ensures Bounded(c, Initial(c, done))
  {
    assert Claimed(Initial(c, done)) == {c.own};
  }

  lemma OthersCounted(c: Settings, s: State)
    requires Sound(c, s)
    ensures |s.connectedTo - {c.own}| <= |s.connectedTo| - 1 + |s.pending|
  {
    assert s.connectedTo == (s.connectedTo - {c.own}) + {c.own};
  }

  /** Whoever has sent a bitfield is connected, so there is a place for it among the rarities. */
  lemma SwarmFits(c: Settings, s: State, swarm: set<Address>)
    requires Sound(c, s) && Bounded(c, s) && swarm <= s.connectedTo - {c.own}
    ensures |swarm| <= c.maxPeers
  {
    CountAtMostClaimed(c, s);
    OthersCounted(c, s);
    SubsetSmaller(swarm, s.connectedTo - {c.own});
    hide Claimed, Sound;
  }

  /** A client that began with no connections and was only called since. */
  function Called(connectedTo: set<Address>, peers: set<Address>, waiting: multiset<Address>): State {
    State(connectedTo, {}, {}, [], false, true, peers, waiting, [])
  }

  lemma CallerWaits(c: Settings, connectedTo: set<Address>, peers: set<Address>, waiting: multiset<Address>, ip: Address)
    requires Called(connectedTo, peers, waiting).AcceptConnection(c, ip) == 0
    ensures Apply(c, Called(connectedTo, peers, waiting), Asked(ip))
         == Called(connectedTo, peers + {ip}, waiting + multiset{ip})
  {
  }

  lemma CallerConnects(c: Settings, connectedTo: set<Address>, peers: set<Address>, waiting: multiset<Address>, ip: Address)
    requires ip in waiting
    ensures Enabled(Called(connectedTo, peers, waiting), Connected(ip))
    ensures Apply(c, Called(connectedTo, peers, waiting), Connected(ip))
         == Called(connectedTo + {ip}, peers, waiting - multiset{ip})
  {
    assert {} - {ip} == {};
  }

  const ONE_ALLOWED := Settings(1, 1, 1, 6881)

  /** One connection is allowed; two callers are accepted before it is decided about the first. */
  lemma TwoCallersAccepted()
    ensures Apply(ONE_ALLOWED, Called({1}, {}, multiset{}), Asked(2)) == Called({1}, {2}, multiset{2})
    ensures Apply(ONE_ALLOWED, Called({1}, {2}, multiset{2}), Asked(3)) == Called({1}, {2, 3}, multiset{2, 3})
  {
    hide Apply;
    CallerWaits(ONE_ALLOWED, {1}, {}, multiset{}, 2);
    CallerWaits(ONE_ALLOWED, {1}, {2}, multiset{2}, 3);
    assert {2} + {3} == {2, 3} && {} + {2} == {2};
  }

  lemma TwoCallersConnected()
    ensures Apply(ONE_ALLOWED, Called({1}, {2, 3}, multiset{2, 3}), Connected(2)) == Called({1, 2}, {2, 3}, multiset{3})
    ensures Apply(ONE_ALLOWED, Called({1, 2}, {2, 3}, multiset{3}), Connected(3)) == Called({1, 2, 3}, {2, 3}, multiset{})
  {
    hide Apply;
    CallerConnects(ONE_ALLOWED, {1}, {2, 3}, multiset{2, 3}, 2);
    CallerConnects(ONE_ALLOWED, {1, 2}, {2, 3}, multiset{3}, 3);
    assert {1} + {2} == {1, 2} && {1, 2} + {3} == {1, 2, 3};
    assert multiset{2, 3} - multiset{2} == multiset{3} && multiset{3} - multiset{3} == multiset{};
  }

  /** Then both are connected: a run from the first state that exceeds the bound. */
  lemma TwoCallersExample() returns (states: seq<State>, events: seq<Event>)
    ensures IsRun(ONE_ALLOWED, states, events) && states[|events|].PeerCount() == 2
  {
    hide Apply;
    var s0, s1 := Initial(ONE_ALLOWED, false), Called({1}, {}, multiset{});
    var s2, s3 := Called({1}, {2}, multiset{2}), Called({1}, {2, 3}, multiset{2, 3});
    var s4, s5 := Called({1, 2}, {2, 3}, multiset{3}), Called({1, 2, 3}, {2, 3}, multiset{});
    states := [s0, s1, s2, s3, s4, s5];
    events := [CloudChanged(true), Asked(2), Asked(3), Connected(2), Connected(3)];
    TwoCallersAccepted();
    TwoCallersConnected();
    CloudJoined(ONE_ALLOWED);
    assert states[0] == Initial(ONE_ALLOWED, false);
    forall i | 0 <= i < |events| ensures Enabled(states[i], events[i]) && states[i + 1] == Apply(ONE_ALLOWED, states[i], events[i]) {
      assert i == 0 || i == 1 || i == 2 || i == 3 || i == 4;
    }
  }

  /** The same caller is accepted once more while it is not decided about it: two objects for one address. */
  lemma SameCallerExample()
    ensures Apply(ONE_ALLOWED, Called({1}, {2}, multiset{2}), Asked(2)) == Called({1}, {2}, multiset{2, 2})
    ensures NewClaims(ONE_ALLOWED, Called({1}, {2}, multiset{2}), Asked(2)) == {}
  {
    CallerWaits(ONE_ALLOWED, {1}, {2}, multiset{2}, 2);
    assert {2} + {2} == {2} && multiset{2} + multiset{2} == multiset{2, 2};
    hide Apply;
  }

  lemma CloudJoined(c: Settings)
    ensures Apply(c, Initial(c, false), CloudChanged(true)) == Called({c.own}, {}, multiset{})
  {
  }

  // ----- Crossing connection attempts -----

  /** Two clients have each other pending. */
  predicate Crossing(a: Settings, s: State, b: Settings, t: State) {
    b.own in s.pending && a.own in t.pending
  }

  /** Nothing but the crossing stands in the way. */
  predicate Admissible(c: Settings, s: State, ip: Address) {
    s.PeerCount() < c.maxPeers && ip !in s.connectedTo && !(s.downloadCompleted && ip in s.knownSeeders)
  }

  /** Of two crossing attempts exactly one is accepted: that of the client with the lower address. */
  lemma ExactlyOneAccepted(a: Settings, s: State, b: Settings, t: State)
    requires Sound(a, s) && Sound(b, t) && Crossing(a, s, b, t)
    requires Admissible(a, s, b.own) && Admissible(b, t, a.own)
    ensures a.own != b.own
    ensures s.AcceptConnection(a, b.own) == 0 <==> t.AcceptConnection(b, a.own) != 0
    ensures s.AcceptConnection(a, b.own) == 0 <==> b.own < a.own
  {
  }

  /** Whether the connection is established first or the other attempt is dropped first makes no difference. */
  lemma CrossingSettles(s: State, ip: Address)
    ensures Dropped(Established(s, ip), ip) == Established(Dropped(s, ip), ip)
    ensures ip in Established(s, ip).connectedTo && ip !in Established(s, ip).pending
    ensures Dropped(Established(s, ip), ip).PeerCount() == Established(s, ip).PeerCount()
  {
    assert Dropped(Established(s, ip), ip).pending == Established(s, ip).pending;
  }

  /** Once connected, an address is refused and not dialled, until its connection is closed. */
  lemma ConnectedNotRepeated(c: Settings, s: State, ip: Address, port: nat)
    requires ip in s.connectedTo
    ensures s.AcceptConnection(c, ip) in {1, 2, 4} && DialOne(c, s, ip, port) == s
  {
  }

  /** The connection bookkeeping of a client. */
  class Connector {
    const c: Settings
    var connectedTo: set<Address>
    var pendingConnections: set<Address>
    var knownSeeders: set<Address>
    var potentialClients: seq<Candidate>
    var downloadCompleted: bool
    var connectedToCloud: bool
    var dials: seq<Candidate>
    ghost var peers: set<Address>
    ghost var waiting: multiset<Address>

    ghost function S(): State
      reads this
    {
      State(connectedTo, pendingConnections, knownSeeders, potentialClients, downloadCompleted, connectedToCloud,
            peers, waiting, dials)
    }

    ghost predicate Valid()
      reads this
    {
      c.Valid() && Sound(c, S())
    }

    constructor (c: Settings, downloadCompleted: bool)
      requires c.Valid()
      ensures Valid() && this.c == c && S() == Initial(c, downloadCompleted)
    {
      this.c := c;
      connectedTo, pendingConnections, knownSeeders, potentialClients := {c.own}, {}, {}, [];
      this.downloadCompleted, connectedToCloud, dials, peers, waiting := downloadCompleted, false, [], {}, multiset{};
    }

    function GetPeerCount(): (n: nat)
      reads this
      ensures n == S().PeerCount()
    {
      (|connectedTo| - 1 + |pendingConnections|) % 0x1_0000
    }

    method ConnectToPeer(address: Address, port: nat)
      requires Valid()
      modifies this
      ensures Valid() && S() == DialOne(c, old(S()), address, port)
    {
      DialOneSound(c, S(), address, port);
      if address in connectedTo || address in pendingConnections {
        return;
      }
      var p := if port == 0 then c.listenerPort else port;
      dials := dials + [Candidate(address, p)];
      pendingConnections, peers := pendingConnections + {address}, peers + {address};
      waiting := waiting + multiset{address};
    }

    /** `draw` is the random place at which the search through the candidates begins. */
    method ConnectToPeers(count: nat, draw: nat) returns (peersConnected: nat)
      requires Valid() && count < 0x1_0000 && (potentialClients == [] || draw < |potentialClients|)
      modifies this
      ensures Valid()
      ensures S() == DialSome(c, old(S()), count, if old(potentialClients) == [] then 0 else draw)
      ensures peersConnected == |pendingConnections| - |old(pendingConnections)|
    {
      hide Fresh, Ips, IpList, Dialled, DialSome, Chosen, Room, RoomLeft, Sound, GetPeerCount, State.PeerCount;
      ghost var s := S();
      ghost var start := if potentialClients == [] then 0 else draw;
      DialSomeSound(c, s, count, start);
      ChosenGrowth(c, s, count, start);
      ChosenFrom(c, s, count, start);
      if downloadCompleted {
        return 0;
      }
      if |potentialClients| == 0 {
        return 0;
      }
      var wanted := if count == 0 then c.desiredPeers else count;
      var connectToNPeers := Min(wanted, c.maxPeers - GetPeerCount());
      if connectToNPeers <= 0 {
        return 0;
      }
      peersConnected := Connect(draw, connectToNPeers);
    }

    /** Begin one connection. */
    method Begin(peer: Candidate)
      requires c.Valid() && !S().Known(peer.ip) && GetPeerCount() < c.desiredPeers
      modifies this`dials, this`pendingConnections, this`peers, this`waiting
      ensures S() == Dialled(old(S()), [peer]) && GetPeerCount() == old(GetPeerCount()) + 1
      ensures S().connectedTo + S().pending == old(S().connectedTo + S().pending) + {peer.ip}
    {
      NextCount(connectedTo, pendingConnections, peer.ip);
      dials := dials + [peer];
      pendingConnections, peers := pendingConnections + {peer.ip}, peers + {peer.ip};
      waiting := waiting + multiset{peer.ip};
      assert Ips([peer]) == {peer.ip} && IpList([peer]) == multiset{peer.ip} + IpList([peer][1..]);
    }

    /** The search through the candidates, from a random one on. */
    method Connect(draw: nat, count: nat) returns (peersConnected: nat)
      requires c.Valid() && draw < |potentialClients|
      modifies this`dials, this`pendingConnections, this`peers, this`waiting
      ensures var chosen := Fresh(old(potentialClients)[draw..], old(connectedTo + pendingConnections), RoomLeft(c, old(S()), count));
              S() == Dialled(old(S()), chosen) && peersConnected == |chosen|
    {
      hide Fresh, Ips, IpList, Dialled, RoomLeft, GetPeerCount, State.PeerCount;
      DialledNothing(S());
      var connectToNPeers := count;
      var iter := draw;
      peersConnected := 0;
      var goOn := iter < |potentialClients| && connectToNPeers > 0 && GetPeerCount() < c.desiredPeers;
      ghost var s, done := S(), [];
      ghost var chosen := Fresh(potentialClients[draw..], connectedTo + pendingConnections, RoomLeft(c, S(), count));
      while goOn
        invariant connectToNPeers >= 0 && iter <= |potentialClients|
        invariant goOn <==> iter < |potentialClients| && connectToNPeers > 0 && GetPeerCount() < c.desiredPeers
        invariant S() == Dialled(s, done) && peersConnected == |done|
        invariant chosen == done
          + Fresh(potentialClients[iter..], connectedTo + pendingConnections, RoomLeft(c, S(), connectToNPeers))
        decreases |potentialClients| - iter
      {
        RoomLeftCases(c, S(), connectToNPeers);
        ghost var todo := potentialClients[iter..];
        FreshNext(todo, connectedTo + pendingConnections, RoomLeft(c, S(), connectToNPeers));
        assert todo[1..] == potentialClients[iter + 1..];
        var peer := potentialClients[iter];
        if peer.ip !in connectedTo && peer.ip !in pendingConnections {
          ghost var before := S();
          Begin(peer);
          RoomLeftNext(c, before, S(), connectToNPeers);
          DialledMore(s, done, peer);
          done := done + [peer];
          peersConnected := peersConnected + 1;
          connectToNPeers := connectToNPeers - 1;
        }
        iter := iter + 1;
        goOn := iter < |potentialClients| && connectToNPeers > 0 && GetPeerCount() < c.desiredPeers;
      }
      RoomLeftCases(c, S(), connectToNPeers);
      NothingChosen(potentialClients[iter..], connectedTo + pendingConnections, RoomLeft(c, S(), connectToNPeers));
      assert done + [] == done;
    }

    /** Whether the connection of a remote peer is accepted. */
    method AcceptConnection(foreignIP: Address) returns (code: nat)
      ensures code == S().AcceptConnection(c, foreignIP)
    {
      if GetPeerCount() < c.maxPeers {
        if downloadCompleted && foreignIP in knownSeeders {
          return 4;
        }
        if foreignIP !in connectedTo {
          var scheduledOneMyself := foreignIP in pendingConnections;
          if scheduledOneMyself {
            var iAmHigher := c.own > foreignIP;
            if iAmHigher {
              return 0;
            } else {
              return 3;
            }
          } else {
            return 0;
          }
        } else {
          return 2;
        }
      } else {
        return 1;
      }
    }

    /** A connection is asked for; if it is accepted, a peer object is made for it. */
    method AcceptCallback(foreignIP: Address) returns (accepted: bool)
      requires Valid()
      modifies this`peers, this`waiting
      ensures Valid() && S() == Incoming(c, old(S()), foreignIP)
      ensures accepted <==> connectedToCloud && S().AcceptConnection(c, foreignIP) == 0
    {
      ApplySound(c, S(), Asked(foreignIP));
      if connectedToCloud {
        var acceptedState := AcceptConnection(foreignIP);
        if acceptedState == 0 {
          peers, waiting := peers + {foreignIP}, waiting + multiset{foreignIP};
          return true;
        }
      }
      return false;
    }

    method ProcessPeerConnectionEstablishedEvent(remote: Address)
      requires Valid() && remote in peers
      modifies this`connectedTo, this`pendingConnections
      ensures Valid() && S() == Established(old(S()), remote)
    {
      EstablishedSound(c, S(), remote);
      connectedTo := connectedTo + {remote};
      pendingConnections := pendingConnections - {remote};
    }

    /** A leecher tries others at once. */
    method ProcessPeerConnectionFailEvent(remote: Address) returns (reschedule: bool)
      requires Valid() && remote in peers
      modifies this`pendingConnections
      ensures Valid() && S() == Dropped(old(S()), remote) && (reschedule <==> !downloadCompleted)
    {
      ApplySound(c, S(), Failed(remote));
      pendingConnections := pendingConnections - {remote};
      reschedule := !downloadCompleted;
    }

    /** Some time after the attempt: what has not become a connection is given up. */
    method CheckAndDisconnectIfRejected(remote: Address, connected: bool)
      requires Valid() && remote in waiting
      modifies this`connectedTo, this`pendingConnections, this`waiting
      ensures Valid()
      ensures S() == if connected then Established(Decided(old(S()), remote), remote)
                     else Dropped(Decided(old(S()), remote), remote)
    {
      waiting := waiting - multiset{remote};
      if !connected {
        pendingConnections := pendingConnections - {remote};
      } else {
        ProcessPeerConnectionEstablishedEvent(remote);
      }
    }

    method ProcessConnectionCloseEvent(remote: Address)
      requires Valid() && remote in peers
      modifies this`connectedTo
      ensures Valid() && S() == Closed(old(S()), remote)
    {
      ApplySound(c, S(), ConnectionClosed(remote));
      connectedTo := connectedTo - {remote};
    }

    method ProcessPeriodicSchedule(autoConnect: bool, draw: nat)
      requires Valid() && (potentialClients == [] || draw < |potentialClients|)
      modifies this
      ensures Valid()
      ensures S() == if downloadCompleted || !autoConnect || old(GetPeerCount()) >= c.desiredPeers then old(S())
                     else DialSome(c, old(S()), c.desiredPeers - old(GetPeerCount()), if old(potentialClients) == [] then 0 else draw)
    {
      if downloadCompleted {
        return;
      }
      if autoConnect && GetPeerCount() < c.desiredPeers {
        var _ := ConnectToPeers(c.desiredPeers - GetPeerCount(), draw);
      }
    }
  }
}
