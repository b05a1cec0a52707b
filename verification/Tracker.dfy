/**
 The tracker's swarms, stored under the upper-case digits of their info hashes, and the random selection
 of peers it answers with.
 */
module Tracker {
  import opened Lists
  import opened WireFormat
  import opened HexCoding
  import Floyd
  import TrackerQuery

  datatype Client = Client(peerId: Bytes, ip: Bytes, port: Bytes)

  // ----- Finding the swarm -----

  lemma {:induction false} UpperHexIsUpper(sha: Bytes)
    ensures Upper(UpperHex(sha)) == UpperHex(sha)
  {
    if sha != [] {
      UpperHexIsUpper(sha[1..]);
      UpperAppend([UpperDigit(sha[0] / 16), UpperDigit(sha[0] % 16)], UpperHex(sha[1..]));
      UpperOfDigits(sha[0] / 16, sha[0] % 16);
    }
  }

  lemma UpperOfDigits(a: nat, b: nat)
    requires a < 16 && b < 16
    ensures Upper([UpperDigit(a), UpperDigit(b)]) == [UpperDigit(a), UpperDigit(b)]
  {
  }

  lemma UpperHexInjective(a: Bytes, b: Bytes)
    requires UpperHex(a) == UpperHex(b)
    ensures a == b
  {
    BinaryOfUpperHex(a);
    BinaryOfUpperHex(b);
  }

  class Swarms {
    var cloudInfo: map<Bytes, seq<Client>>

    constructor ()
      ensures cloudInfo == map[]
    {
      cloudInfo := map[];
    }

    /** Accept a torrent; one that is accepted already keeps its clients. */
    method AddInfoHash(infoHash: Bytes)
      modifies this
      ensures cloudInfo.Keys == old(cloudInfo.Keys) + {Upper(infoHash)}
      ensures forall k :: k in old(cloudInfo) ==> cloudInfo[k] == old(cloudInfo[k])
      ensures Upper(infoHash) !in old(cloudInfo) ==> cloudInfo[Upper(infoHash)] == []
    {
      var key := Upper(infoHash);
      if key !in cloudInfo {
        cloudInfo := cloudInfo[key := []];
      }
    }

    method RemoveInfoHash(infoHash: Bytes)
      modifies this
      ensures cloudInfo == old(cloudInfo) - {Upper(infoHash)}
    {
      cloudInfo := cloudInfo - {Upper(infoHash)};
    }
  }

  /**
   A request with the info hash of a torrent finds a swarm exactly if that torrent was accepted, in
   whatever case the digits of its hash were written.
   */
  lemma RequestFindsItsSwarm(sha: Bytes, accepted: map<Bytes, Bytes>, swarms: set<Bytes>, before: Bytes,
                             raw: seq<TrackerQuery.Param>, path: Bytes, other: (Byte, Byte) -> Byte, i: nat)
    requires path == before + [TrackerQuery.QUESTION_MARK] + TrackerQuery.Joined(TrackerQuery.Escaped(raw))
    requires |path| < TrackerQuery.MAX_SIZE && |raw| >= 2
    requires TrackerQuery.QUESTION_MARK !in before && !TrackerQuery.Contains(path, TrackerQuery.SCRAPE)
    requires TrackerQuery.DistinctKeys(raw) && i < |raw| && raw[i] == TrackerQuery.Param(TrackerQuery.INFO_HASH, sha)
    requires forall j :: 0 <= j < |raw| ==> TrackerQuery.EQUALS !in raw[j].key && TrackerQuery.AMPERSAND !in raw[j].key
    requires forall s :: s in accepted ==> Upper(accepted[s]) == UpperHex(s)
    requires swarms == set s | s in accepted :: Upper(accepted[s])
    ensures var d := TrackerQuery.Extracted(path, other);
      && TrackerQuery.INFO_HASH in d
      && (Upper(d[TrackerQuery.INFO_HASH]) in swarms <==> sha in accepted)
  {
    TrackerQuery.RequestRecovered(before, raw, path, other);
    UpperHexIsUpper(sha);
    hide TrackerQuery.Joined, TrackerQuery.Contains, TrackerQuery.Extracted, UpperHex, Upper;
    assert TrackerQuery.Extracted(path, other)[raw[i].key] == TrackerQuery.Meant(raw[i]);
    if UpperHex(sha) in swarms {
      var s :| s in accepted && UpperHex(sha) == Upper(accepted[s]);
      UpperHexInjective(sha, s);
    }
  }

  // ----- Selecting peers -----

  ghost predicate Ascending(s: seq<nat>) {
    forall i, j :: 0 <= i < j < |s| ==> s[i] < s[j]
  }

  ghost predicate DistinctIds(clients: seq<Client>) {
    forall i, j :: 0 <= i < j < |clients| ==> clients[i].peerId != clients[j].peerId
  }

  predicate InBounds(clients: seq<Client>, indices: seq<nat>) {
    forall k :: 0 <= k < |indices| ==> 1 <= indices[k] <= |clients|
  }

  /** The clients with the given numbers, counted from 1, but not the one that asks. */
  function Selected(clients: seq<Client>, indices: seq<nat>, asker: Bytes): seq<Client>
    requires InBounds(clients, indices)
  {
    if indices == [] then []
    else
      var c := clients[indices[|indices| - 1] - 1];
      Selected(clients, indices[..|indices| - 1], asker) + if c.peerId == asker then [] else [c]
  }

  /** One pass over the clients, always forwards, that stops at each selected one. */
  method SelectPeers(clients: seq<Client>, indices: seq<nat>, asker: Bytes) returns (result: seq<Client>)
    requires Ascending(indices) && InBounds(clients, indices)
    ensures result == Selected(clients, indices, asker)
  {
    result := [];
    var clientsIt, curPos := 0, 0;
    for k := 0 to |indices|
      invariant clientsIt == curPos && (k == 0 ==> curPos == 0) && (k > 0 ==> curPos == indices[k - 1] - 1)
      invariant result == Selected(clients, indices[..k], asker)
    {
      while curPos < indices[k] - 1
        invariant clientsIt == curPos <= indices[k] - 1
      {
        curPos := curPos + 1;
        clientsIt := clientsIt + 1;
      }
      var curClient := clients[clientsIt];
      assert indices[..k + 1][..k] == indices[..k];
      if curClient.peerId != asker {
        result := result + [curClient];
      }
    }
    assert indices[..|indices|] == indices;
  }

  lemma {:induction false} SelectedMembers(clients: seq<Client>, indices: seq<nat>, asker: Bytes, c: Client)
    requires InBounds(clients, indices)
    ensures c in Selected(clients, indices, asker)
       <==> c.peerId != asker && exists k :: 0 <= k < |indices| && clients[indices[k] - 1] == c
  {
    if indices != [] {
      var n := |indices| - 1;
      var init := indices[..n];
      SelectedMembers(clients, init, asker, c);
      assert clients[indices[n] - 1] == c ==> exists k :: 0 <= k < |indices| && clients[indices[k] - 1] == c;
      if k :| 0 <= k < |init| && clients[init[k] - 1] == c {
        assert clients[indices[k] - 1] == c;
      }
    }
  }

  predicate AskerSelected(clients: seq<Client>, indices: seq<nat>, asker: Bytes)
    requires InBounds(clients, indices)
  {
    exists k :: 0 <= k < |indices| && clients[indices[k] - 1].peerId == asker
  }

  lemma LastIsNew(clients: seq<Client>, indices: seq<nat>, asker: Bytes)
    requires DistinctIds(clients) && Ascending(indices) && InBounds(clients, indices) && indices != []
    ensures var n := |indices| - 1; var c := clients[indices[n] - 1];
      && Ascending(indices[..n]) && InBounds(clients, indices[..n])
      && c !in Selected(clients, indices[..n], asker)
      && (c.peerId == asker ==> !AskerSelected(clients, indices[..n], asker))
      && (AskerSelected(clients, indices, asker) <==> c.peerId == asker || AskerSelected(clients, indices[..n], asker))
  {
    hide Selected;
    var n := |indices| - 1;
    var init, c := indices[..n], clients[indices[n] - 1];
    SelectedMembers(clients, init, asker, c);
    assert forall k :: 0 <= k < n ==> init[k] < indices[n] && clients[init[k] - 1].peerId != c.peerId;
    if AskerSelected(clients, init, asker) {
      var k :| 0 <= k < n && clients[init[k] - 1].peerId == asker;
      assert clients[indices[k] - 1].peerId == asker;
    }
  }

  /** No client is selected twice, and at most the asking one is missing. */
  lemma {:induction false} SelectedOnce(clients: seq<Client>, indices: seq<nat>, asker: Bytes)
    requires DistinctIds(clients) && Ascending(indices) && InBounds(clients, indices)
    ensures Distinct(Selected(clients, indices, asker))
    ensures |Selected(clients, indices, asker)| == |indices| - if AskerSelected(clients, indices, asker) then 1 else 0
  {
    if indices != [] {
      var n := |indices| - 1;
      LastIsNew(clients, indices, asker);
      hide DistinctIds, Ascending, AskerSelected;
      SelectedOnce(clients, indices[..n], asker);
      DistinctAppend(Selected(clients, indices[..n], asker), clients[indices[n] - 1]);
    }
  }

  /** The sample in ascending order. */
  ghost predicate InOrder(indices: seq<nat>, sample: set<nat>) {
    Ascending(indices) && Elements(indices) == sample
  }

  /**
   For every sequence of draws, the answer names each drawn client once, except the asking one: as many
   as wanted, or all there are.
   */
  lemma SampleAnswered(clients: seq<Client>, numwant: nat, draws: seq<nat>, indices: seq<nat>, asker: Bytes)
    requires DistinctIds(clients)
    requires |draws| == (if numwant < |clients| then numwant else |clients|)
    requires Floyd.ValidDraws(|clients| - |draws|, draws)
    requires InOrder(indices, Floyd.Sample(|clients| - |draws|, draws, |draws|))
    ensures InBounds(clients, indices)
    ensures var s := Selected(clients, indices, asker);
      && Distinct(s) && (forall c :: c in s ==> c in clients && c.peerId != asker)
      && |s| == |draws| - if AskerSelected(clients, indices, asker) then 1 else 0
  {
    hide Floyd.ValidDraws, Floyd.Sample, Selected;
    Floyd.SampleShape(|clients| - |draws|, draws, |draws|);
    forall k | 0 <= k < |indices| ensures 1 <= indices[k] <= |clients| {
      assert indices[k] in Elements(indices);
    }
    DistinctSize(indices);
    SelectedOnce(clients, indices, asker);
    forall c | c in Selected(clients, indices, asker) ensures c in clients && c.peerId != asker {
      SelectedMembers(clients, indices, asker, c);
    }
  }
}
