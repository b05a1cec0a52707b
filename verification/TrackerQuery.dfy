/**
 How the tracker reads the parameters of a request, and the swarm it looks up with them.
 */
module TrackerQuery {
  import opened WireFormat
  import opened HexCoding

  const QUESTION_MARK: Byte := 63
  const EQUALS: Byte := 61
  const AMPERSAND: Byte := 38

  /** The words "info_hash", "event" and "scrape". */
  const INFO_HASH: Bytes := [105, 110, 102, 111, 95, 104, 97, 115, 104]
  const EVENT: Bytes := [101, 118, 101, 110, 116]
  const SCRAPE: Bytes := [115, 99, 114, 97, 112, 101]

  /** `std::string::npos`, and the arithmetic of `size_t` that makes it work out. */
  const NPOS := 0x1_0000_0000_0000_0000 - 1
  const MAX_SIZE := 0x8000_0000_0000_0000

  function Wrap(x: int): nat {
    x % 0x1_0000_0000_0000_0000
  }

  type Dict = map<Bytes, Bytes>

  datatype Param = Param(key: Bytes, value: Bytes)

  /** The first position of a character from `from` on. */
  function Find(s: Bytes, c: Byte, from: nat): (p: nat)
    requires |s| < MAX_SIZE
    ensures p == NPOS || (from <= p < |s| && s[p] == c)
    decreases |s| - from
  {
    if from >= |s| then NPOS
    else if s[from] == c then from
    else Find(s, c, from + 1)
  }

  predicate Contains(s: Bytes, word: Bytes)
    decreases |s|
  {
    word <= s || (s != [] && Contains(s[1..], word))
  }

  function Substr(s: Bytes, pos: nat, len: nat): Bytes
    requires pos <= |s|
  {
    if pos + len < |s| then s[pos..pos + len] else s[pos..]
  }

  /** An info hash is brought into the form the swarms are stored under. */
  function ValueOf(p: Param, other: (Byte, Byte) -> Byte): Bytes {
    if p.key == INFO_HASH then Upper(Decoded(p.value)) else Unescape(p.value, other)
  }

  /** `std::map::insert` keeps what is there already. */
  function Inserted(d: Dict, k: Bytes, v: Bytes): Dict {
    if k in d then d else d[k := v]
  }

  function InsertAll(d: Dict, ps: seq<Param>, other: (Byte, Byte) -> Byte): Dict
    decreases |ps|
  {
    if ps == [] then d else InsertAll(Inserted(d, ps[0].key, ValueOf(ps[0], other)), ps[1..], other)
  }

  /** The next ampersand, or the end. */
  function NextAmpersand(path: Bytes, equal: nat): (next: nat)
    requires |path| < MAX_SIZE
    ensures next <= |path| && (next < |path| ==> path[next] == AMPERSAND && next >= equal)
  {
    var found := Find(path, AMPERSAND, equal);
    if found == NPOS then |path| else found
  }

  /** The parameters behind an ampersand; one without an equals sign is given the whole path as its value. */
  function ParamsFrom(path: Bytes, ampersand: nat): (ps: seq<Param>)
    requires ampersand <= |path| < MAX_SIZE && (ampersand < |path| ==> path[ampersand] == AMPERSAND)
    decreases |path| - ampersand
  {
    if ampersand == |path| then []
    else
      var equal := Find(path, EQUALS, ampersand);
      if equal == NPOS then [Param(path[ampersand + 1..], path)]
      else
        var next := NextAmpersand(path, equal);
        [Param(path[ampersand + 1..equal], path[equal + 1..next])] + ParamsFrom(path, next)
  }

  /** The whole request. */
  function Extracted(path: Bytes, other: (Byte, Byte) -> Byte): Dict
    requires |path| < MAX_SIZE
  {
    var question := Find(path, QUESTION_MARK, 0);
    var equal := Find(path, EQUALS, question);
    var ampersand := Find(path, AMPERSAND, equal);
    var scrape := Contains(path, SCRAPE);
    var base := if scrape then map[EVENT := SCRAPE] else map[];
    if question == NPOS || equal == NPOS || (ampersand == NPOS && !scrape) then base
    else if scrape then InsertAll(base, [Param(path[question + 1..equal], path[equal + 1..])], other)
    else InsertAll(base, [Param(path[question + 1..equal], path[equal + 1..ampersand])] + ParamsFrom(path, ampersand), other)
  }

  /** The part of a path between two positions, the second of which may be `NPOS`. */
  lemma SubstrBetween(path: Bytes, a: nat, b: nat)
    requires a <= |path| < MAX_SIZE && a <= b
    ensures b <= |path| ==> Substr(path, a, Wrap(b - a)) == path[a..b]
    ensures b == NPOS ==> Substr(path, a, Wrap(b - a)) == path[a..]
  {
  }

  /** Behind `NPOS` is the beginning, and the length wraps around to that of the path. */
  lemma SubstrBehindNpos(path: Bytes)
    requires |path| < MAX_SIZE
    ensures Wrap(NPOS + 1) == 0 && Substr(path, 0, Wrap(|path| - NPOS - 1)) == path
  {
  }

  lemma SubstrToEnd(path: Bytes, i: nat)
    requires i < |path| < MAX_SIZE
    ensures Substr(path, i + 1, Wrap(|path| - i)) == path[i + 1..]
  {
  }

  lemma WrapNext(path: Bytes, i: nat)
    requires i < |path| < MAX_SIZE
    ensures Wrap(i + 1) == i + 1
  {
  }

  /** What the parsing loop cuts out behind an ampersand, with wrap-around. */
  function CutOut(path: Bytes, ampersand: nat, equal: nat, next: nat): Param
    requires ampersand < |path| < MAX_SIZE && next <= |path| && (equal < |path| || equal == NPOS)
  {
    Param(Substr(path, ampersand + 1, Wrap(equal - ampersand - 1)),
          if Wrap(equal + 1) <= |path| then Substr(path, Wrap(equal + 1), Wrap(next - equal - 1)) else [])
  }

  lemma CutOutFound(path: Bytes, ampersand: nat, equal: nat, next: nat)
    requires ampersand < equal < next <= |path| < MAX_SIZE
    ensures Wrap(equal + 1) <= |path|
    ensures CutOut(path, ampersand, equal, next) == Param(path[ampersand + 1..equal], path[equal + 1..next])
  {
    hide Substr, Wrap;
    WrapNext(path, equal);
    SubstrBetween(path, ampersand + 1, equal);
    SubstrBetween(path, equal + 1, next);
  }

  lemma CutOutLost(path: Bytes, ampersand: nat)
    requires ampersand < |path| < MAX_SIZE
    ensures Wrap(NPOS + 1) <= |path|
    ensures CutOut(path, ampersand, NPOS, |path|) == Param(path[ampersand + 1..], path)
  {
    hide Substr, Wrap;
    SubstrBetween(path, ampersand + 1, NPOS);
    SubstrBehindNpos(path);
  }

  /** The positions of the parsing loop find the next parameter. */
  lemma NextParam(path: Bytes, ampersand: nat)
    requires ampersand < |path| < MAX_SIZE && path[ampersand] == AMPERSAND
    ensures var equal := Find(path, EQUALS, ampersand);
            var next := NextAmpersand(path, equal);
      && ampersand < next && Wrap(equal + 1) <= |path|
      && ParamsFrom(path, ampersand) == [CutOut(path, ampersand, equal, next)] + ParamsFrom(path, next)
  {
    hide Find, Substr, Wrap, CutOut, ParamsFrom, NextAmpersand;
    ParamsFromFirst(path, ampersand);
    NoParamsBehind(path);
    var equal := Find(path, EQUALS, ampersand);
    if equal == NPOS {
      NothingFound(path, AMPERSAND);
      CutOutLost(path, ampersand);
    } else {
      CutOutFound(path, ampersand, equal, NextAmpersand(path, equal));
    }
  }

  lemma PositionsInOrder(path: Bytes, ampersand: nat)
    requires ampersand < |path| < MAX_SIZE && path[ampersand] == AMPERSAND
    ensures var equal := Find(path, EQUALS, ampersand);
            equal == NPOS || ampersand < equal < NextAmpersand(path, equal) <= |path|
  {
    hide Find, NextAmpersand;
  }

  /** One unfolding. */
  lemma ParamsFromFirst(path: Bytes, ampersand: nat)
    requires ampersand < |path| < MAX_SIZE && path[ampersand] == AMPERSAND
    ensures var equal := Find(path, EQUALS, ampersand);
      if equal == NPOS then ParamsFrom(path, ampersand) == [Param(path[ampersand + 1..], path)]
      else
        var next := NextAmpersand(path, equal);
        && ampersand < equal < next <= |path|
        && ParamsFrom(path, ampersand)
           == [Param(path[ampersand + 1..equal], path[equal + 1..next])] + ParamsFrom(path, next)
  {
    hide Find, NextAmpersand;
    PositionsInOrder(path, ampersand);
  }

  lemma NoParamsBehind(path: Bytes)
    requires |path| < MAX_SIZE
    ensures ParamsFrom(path, |path|) == []
  {
  }

  lemma NothingFound(path: Bytes, c: Byte)
    requires |path| < MAX_SIZE
    ensures Find(path, c, NPOS) == NPOS
    ensures NextAmpersand(path, NPOS) == |path|
  {
  }

  lemma InsertFirst(d: Dict, p: Param, rest: seq<Param>, other: (Byte, Byte) -> Byte)
    ensures InsertAll(d, [p] + rest, other) == InsertAll(Inserted(d, p.key, ValueOf(p, other)), rest, other)
    ensures InsertAll(d, [], other) == d
  {
    assert ([p] + rest)[1..] == rest;
  }

  /** The value of a parameter, decoded by its key. */
  method Decode(key: Bytes, text: Bytes, other: (Byte, Byte) -> Byte) returns (value: Bytes)
    ensures value == ValueOf(Param(key, text), other)
  {
    if key == INFO_HASH {
      value := DecodeInfoHash(text);
      value := Upper(value);
    } else {
      value := UnescapeHex(text, other);
    }
  }

  method ExtractInfoFromClientMessage(path: Bytes, other: (Byte, Byte) -> Byte) returns (result: Dict)
    requires |path| < MAX_SIZE
    ensures result == Extracted(path, other)
  {
    hide ValueOf, Contains, Find, InsertAll, ParamsFrom, Inserted, Substr, Wrap;
    result := map[];
    var questionmarkPos := Find(path, QUESTION_MARK, 0);
    var equalPos := Find(path, EQUALS, questionmarkPos);
    var ampersandPos := Find(path, AMPERSAND, equalPos);
    var isScrape := Contains(path, SCRAPE);
    if isScrape {
      result := Inserted(result, EVENT, SCRAPE);
      FirstInserted(EVENT, SCRAPE);
    }
    if questionmarkPos == NPOS || equalPos == NPOS || (ampersandPos == NPOS && !isScrape) {
      return;
    }
    if isScrape {
      SubstrBetween(path, questionmarkPos + 1, equalPos);
      SubstrToEnd(path, equalPos);
      var key := Substr(path, questionmarkPos + 1, Wrap(equalPos - questionmarkPos - 1));
      var text := Substr(path, equalPos + 1, Wrap(|path| - equalPos));
      var value := Decode(key, text, other);
      InsertFirst(result, Param(key, text), [], other);
      InsertFirst(Inserted(result, key, value), Param(key, text), [], other);
      assert [Param(key, text)] + [] == [Param(key, text)];
      result := Inserted(result, key, value);
    } else {
      result := ExtractPairs(path, questionmarkPos, equalPos, ampersandPos, other);
    }
  }

  /** The first parameter, and then one after each ampersand. Every iteration comes closer to the end. */
  method ExtractPairs(path: Bytes, questionmarkPos: nat, firstEqual: nat, firstAmpersand: nat, other: (Byte, Byte) -> Byte)
    returns (result: Dict)
    requires questionmarkPos < firstEqual < firstAmpersand < |path| < MAX_SIZE && path[firstAmpersand] == AMPERSAND
    ensures result == InsertAll(map[],
      [Param(path[questionmarkPos + 1..firstEqual], path[firstEqual + 1..firstAmpersand])] + ParamsFrom(path, firstAmpersand), other)
  {
    hide ValueOf, Find, InsertAll, ParamsFrom, Inserted, Substr, Wrap;
    var equalPos, ampersandPos := firstEqual, firstAmpersand;
    SubstrBetween(path, questionmarkPos + 1, equalPos);
    SubstrBetween(path, equalPos + 1, ampersandPos);
    var key := Substr(path, questionmarkPos + 1, Wrap(equalPos - questionmarkPos - 1));
    var text := Substr(path, equalPos + 1, Wrap(ampersandPos - equalPos - 1));
    var value := Decode(key, text, other);
    InsertFirst(map[], Param(key, text), ParamsFrom(path, ampersandPos), other);
    result := Inserted(map[], key, value);
    while ampersandPos != |path|
      invariant ampersandPos <= |path| && (ampersandPos < |path| ==> path[ampersandPos] == AMPERSAND)
      invariant InsertAll(result, ParamsFrom(path, ampersandPos), other)
             == InsertAll(map[], [Param(path[questionmarkPos + 1..firstEqual], path[firstEqual + 1..firstAmpersand])]
                                 + ParamsFrom(path, firstAmpersand), other)
      decreases |path| - ampersandPos
    {
      NextParam(path, ampersandPos);
      equalPos := Find(path, EQUALS, ampersandPos);
      key := Substr(path, ampersandPos + 1, Wrap(equalPos - ampersandPos - 1));
      ampersandPos := Find(path, AMPERSAND, equalPos);
      if ampersandPos == NPOS {
        ampersandPos := |path|;
      }
      assert ampersandPos == NextAmpersand(path, equalPos);
      text := Substr(path, Wrap(equalPos + 1), Wrap(ampersandPos - equalPos - 1));
      value := Decode(key, text, other);
      InsertFirst(result, Param(key, text), ParamsFrom(path, ampersandPos), other);
      result := Inserted(result, key, value);
    }
    NothingBehind(path, result, other);
  }

  lemma FirstInserted(k: Bytes, v: Bytes)
    ensures Inserted(map[], k, v) == map[k := v]
  {
  }

  lemma NothingBehind(path: Bytes, d: Dict, other: (Byte, Byte) -> Byte)
    requires |path| < MAX_SIZE
    ensures InsertAll(d, ParamsFrom(path, |path|), other) == d
  {
  }

  // ----- Requests as clients write them -----

  /** The parameters in a row, separated by ampersands. */
  function Joined(ps: seq<Param>): Bytes {
    if ps == [] then []
    else ps[0].key + [EQUALS] + ps[0].value + if |ps| == 1 then [] else [AMPERSAND] + Joined(ps[1..])
  }

  /** Neither part of a parameter has a character that would end it. */
  ghost predicate Plain(ps: seq<Param>) {
    forall i :: 0 <= i < |ps| ==> EQUALS !in ps[i].key && AMPERSAND !in ps[i].key && AMPERSAND !in ps[i].value
  }

  /** It is the first position. */
  lemma {:induction false} FindIs(s: Bytes, c: Byte, from: nat, p: nat)
    requires from <= p < |s| < MAX_SIZE && s[p] == c && forall i :: from <= i < p ==> s[i] != c
    ensures Find(s, c, from) == p
    decreases p - from
  {
    if from < p {
      FindIs(s, c, from + 1, p);
    }
  }

  lemma {:induction false} FindNothing(s: Bytes, c: Byte, from: nat)
    requires |s| < MAX_SIZE && forall i :: from <= i < |s| ==> s[i] != c
    ensures Find(s, c, from) == NPOS
    decreases |s| - from
  {
    if from < |s| {
      FindNothing(s, c, from + 1);
    }
  }

  /** A parameter stands at a place of a path, in front of an ampersand or the end. */
  ghost predicate StandsAt(path: Bytes, start: nat, p: Param) {
    var equal, end := start + |p.key|, start + |p.key| + 1 + |p.value|;
    && end <= |path|
    && path[start..equal] == p.key && path[equal] == EQUALS && path[equal + 1..end] == p.value
    && (end < |path| ==> path[end] == AMPERSAND)
  }

  /** Where the search for the parts of a parameter ends. */
  lemma PartsFound(path: Bytes, from: nat, start: nat, p: Param)
    requires StandsAt(path, start, p) && |path| < MAX_SIZE
    requires EQUALS !in p.key && AMPERSAND !in p.value
    requires from <= start && forall i :: from <= i < start ==> path[i] != EQUALS
    ensures var equal, end := start + |p.key|, start + |p.key| + 1 + |p.value|;
      && Find(path, EQUALS, from) == equal
      && Find(path, AMPERSAND, equal) == if end == |path| then NPOS else end
  {
    var equal, end := start + |p.key|, start + |p.key| + 1 + |p.value|;
    assert forall i :: start <= i < equal ==> path[i] == path[start..equal][i - start];
    assert forall i :: equal < i < end ==> path[i] == path[equal + 1..end][i - equal - 1];
    FindIs(path, EQUALS, from, equal);
    if end == |path| {
      FindNothing(path, AMPERSAND, equal);
    } else {
      FindIs(path, AMPERSAND, equal, end);
    }
  }

  lemma JoinedFirst(ps: seq<Param>)
    requires ps != []
    ensures Joined(ps)
      == ps[0].key + [EQUALS] + ps[0].value + if |ps| == 1 then [] else [AMPERSAND] + Joined(ps[1..])
  {
  }

  lemma ParamLayout(before: Bytes, p: Param, tail: Bytes)
    requires tail == [] || tail[0] == AMPERSAND
    ensures var path := before + (p.key + [EQUALS] + p.value + tail);
            var end := |before| + |p.key| + 1 + |p.value|;
            StandsAt(path, |before|, p) && end + |tail| == |path| && path[end..] == tail
  {
    var text := p.key + [EQUALS] + p.value + tail;
    var path := before + text;
    var e := |p.key|;
    assert text[..e] == p.key && text[e + 1..e + 1 + |p.value|] == p.value && text[e + 1 + |p.value|..] == tail;
    assert path[|before|..] == text;
  }

  lemma JoinedLayout(before: Bytes, ps: seq<Param>, path: Bytes)
    requires ps != [] && path == before + Joined(ps)
    ensures StandsAt(path, |before|, ps[0])
    ensures var end := |before| + |ps[0].key| + 1 + |ps[0].value|;
            if |ps| == 1 then end == |path|
            else end < |path| && path == path[..end] + [AMPERSAND] + Joined(ps[1..])
  {
    JoinedFirst(ps);
    hide Joined, StandsAt;
    var tail := if |ps| == 1 then [] else [AMPERSAND] + Joined(ps[1..]);
    var end := |before| + |ps[0].key| + 1 + |ps[0].value|;
    assert path == before + (ps[0].key + [EQUALS] + ps[0].value + tail);
    ParamLayout(before, ps[0], tail);
    assert |ps| > 1 ==> path[end..] == [AMPERSAND] + Joined(ps[1..]);
    if |ps| > 1 {
      SplitAt(path, end, AMPERSAND, Joined(ps[1..]));
    }
  }

  lemma SplitAt(s: Bytes, i: nat, c: Byte, t: Bytes)
    requires i <= |s| && s[i..] == [c] + t
    ensures i < |s| && s == s[..i] + [c] + t
  {
  }

  lemma {:induction false} ParamsFromJoined(before: Bytes, ps: seq<Param>, path: Bytes)
    requires ps != [] && Plain(ps) && path == before + [AMPERSAND] + Joined(ps) && |path| < MAX_SIZE
    ensures ParamsFrom(path, |before|) == ps
    decreases |ps|
  {
    hide Joined, Find, StandsAt, ParamsFrom;
    var start := |before| + 1;
    JoinedLayout(before + [AMPERSAND], ps, path);
    PartsFound(path, |before|, start, ps[0]);
    var end := start + |ps[0].key| + 1 + |ps[0].value|;
    FirstParam(path, |before|, ps[0]);
    NoParamsBehind(path);
    if |ps| > 1 {
      ParamsFromJoined(path[..end], ps[1..], path);
    }
  }

  /** The parameter found behind an ampersand is the one that stands there. */
  lemma FirstParam(path: Bytes, ampersand: nat, p: Param)
    requires |path| < MAX_SIZE && StandsAt(path, ampersand + 1, p) && path[ampersand] == AMPERSAND
    requires var equal := ampersand + 1 + |p.key|; var end := equal + 1 + |p.value|;
      && Find(path, EQUALS, ampersand) == equal
      && Find(path, AMPERSAND, equal) == if end == |path| then NPOS else end
    ensures ParamsFrom(path, ampersand) == [p] + ParamsFrom(path, ampersand + 1 + |p.key| + 1 + |p.value|)
  {
    hide Find;
  }

  // ----- What a request is understood as -----

  ghost predicate DistinctKeys(ps: seq<Param>) {
    forall i, j :: 0 <= i < j < |ps| ==> ps[i].key != ps[j].key
  }

  lemma {:induction false} InsertAllKeeps(d: Dict, ps: seq<Param>, other: (Byte, Byte) -> Byte)
    ensures forall k :: k in d ==> k in InsertAll(d, ps, other) && InsertAll(d, ps, other)[k] == d[k]
    ensures forall k :: k in InsertAll(d, ps, other) ==> k in d || exists i :: 0 <= i < |ps| && ps[i].key == k
    decreases |ps|
  {
    hide ValueOf;
    if ps != [] {
      var d' := Inserted(d, ps[0].key, ValueOf(ps[0], other));
      InsertAllKeeps(d', ps[1..], other);
      forall k | k in InsertAll(d, ps, other) && k !in d
        ensures exists i :: 0 <= i < |ps| && ps[i].key == k
      {
        if k !in d' {
          var i :| 0 <= i < |ps[1..]| && ps[1..][i].key == k;
          assert ps[i + 1].key == k;
        }
      }
    }
  }

  lemma {:induction false} InsertAllDistinct(d: Dict, ps: seq<Param>, other: (Byte, Byte) -> Byte)
    requires DistinctKeys(ps) && forall i :: 0 <= i < |ps| ==> ps[i].key !in d
    ensures forall i :: 0 <= i < |ps| ==>
      ps[i].key in InsertAll(d, ps, other) && InsertAll(d, ps, other)[ps[i].key] == ValueOf(ps[i], other)
    decreases |ps|
  {
    hide ValueOf;
    if ps != [] {
      var d' := Inserted(d, ps[0].key, ValueOf(ps[0], other));
      InsertAllKeeps(d', ps[1..], other);
      InsertAllDistinct(d', ps[1..], other);
      forall i | 0 <= i < |ps|
        ensures ps[i].key in InsertAll(d, ps, other) && InsertAll(d, ps, other)[ps[i].key] == ValueOf(ps[i], other)
      {
        if i > 0 {
          assert ps[1..][i - 1] == ps[i];
        }
      }
    }
  }

  /**
   Two or more parameters behind the first question mark are all found; a single one is dropped, since
   the first is only taken if an ampersand follows.
   */
  lemma RequestParsed(before: Bytes, ps: seq<Param>, path: Bytes, other: (Byte, Byte) -> Byte)
    requires path == before + [QUESTION_MARK] + Joined(ps) && |path| < MAX_SIZE
    requires QUESTION_MARK !in before && ps != [] && Plain(ps) && !Contains(path, SCRAPE)
    ensures Extracted(path, other) == if |ps| == 1 then map[] else InsertAll(map[], ps, other)
  {
    hide Joined, Find, Contains, ParamsFrom, InsertAll, Extracted, Plain;
    FirstPositions(before, ps, path);
    var equal := |before| + 1 + |ps[0].key|;
    var end := equal + 1 + |ps[0].value|;
    ExtractedByPositions(path, |before|, equal, if |ps| == 1 then NPOS else end, other);
    if |ps| > 1 {
      assert ps == [ps[0]] + ps[1..];
    }
  }

  /** Where the first question mark and the characters behind it are found. */
  lemma FirstPositions(before: Bytes, ps: seq<Param>, path: Bytes)
    requires path == before + [QUESTION_MARK] + Joined(ps) && |path| < MAX_SIZE
    requires QUESTION_MARK !in before && ps != [] && Plain(ps)
    ensures var equal := |before| + 1 + |ps[0].key|; var end := equal + 1 + |ps[0].value|;
      && equal < end <= |path| && Find(path, QUESTION_MARK, 0) == |before| && Find(path, EQUALS, |before|) == equal
      && Find(path, AMPERSAND, equal) == (if |ps| == 1 then NPOS else end)
      && path[|before| + 1..equal] == ps[0].key && path[equal + 1..end] == ps[0].value
      && (|ps| > 1 ==> end < |path| && path[end] == AMPERSAND && ParamsFrom(path, end) == ps[1..])
  {
    hide Joined, Find, StandsAt, ParamsFrom, Plain;
    PlainFirst(ps);
    JoinedLayout(before + [QUESTION_MARK], ps, path);
    QuestionMarkFound(before, Joined(ps), path);
    PartsFound(path, |before|, |before| + 1, ps[0]);
    PartsOf(path, |before| + 1, ps[0]);
    var end := |before| + 1 + |ps[0].key| + 1 + |ps[0].value|;
    if |ps| > 1 {
      RestFound(path, end, ps[1..]);
    }
  }

  lemma RestFound(path: Bytes, end: nat, ps: seq<Param>)
    requires end < |path| < MAX_SIZE && path == path[..end] + [AMPERSAND] + Joined(ps) && ps != [] && Plain(ps)
    ensures path[end] == AMPERSAND && ParamsFrom(path, end) == ps
  {
    hide Joined, ParamsFrom, Plain;
    var before := path[..end];
    ParamsFromJoined(before, ps, path);
  }

  lemma PlainFirst(ps: seq<Param>)
    requires Plain(ps) && ps != []
    ensures EQUALS !in ps[0].key && AMPERSAND !in ps[0].key && AMPERSAND !in ps[0].value && Plain(ps[1..])
  {
  }

  lemma QuestionMarkFound(before: Bytes, rest: Bytes, path: Bytes)
    requires path == before + [QUESTION_MARK] + rest && |path| < MAX_SIZE && QUESTION_MARK !in before
    ensures Find(path, QUESTION_MARK, 0) == |before| && path[|before|] != EQUALS
  {
    FindIs(path, QUESTION_MARK, 0, |before|);
  }

  lemma ExtractedByPositions(path: Bytes, question: nat, equal: nat, ampersand: nat, other: (Byte, Byte) -> Byte)
    requires |path| < MAX_SIZE && !Contains(path, SCRAPE) && question < equal < |path|
    requires Find(path, QUESTION_MARK, 0) == question && Find(path, EQUALS, question) == equal
    requires Find(path, AMPERSAND, equal) == ampersand
    ensures ampersand == NPOS ==> Extracted(path, other) == map[]
    ensures ampersand != NPOS ==>
      && equal < ampersand < |path| && path[ampersand] == AMPERSAND
      && Extracted(path, other) == InsertAll(map[],
           [Param(path[question + 1..equal], path[equal + 1..ampersand])] + ParamsFrom(path, ampersand), other)
  {
    hide Find, Contains, InsertAll, ParamsFrom;
  }

  lemma PartsOf(path: Bytes, start: nat, p: Param)
    requires StandsAt(path, start, p)
    ensures path[start..start + |p.key|] == p.key
    ensures path[start + |p.key| + 1..start + |p.key| + 1 + |p.value|] == p.value
  {
  }

  predicate OccursAt(s: Bytes, word: Bytes, i: nat) {
    i + |word| <= |s| && s[i..i + |word|] == word
  }

  lemma OccursBehind(s: Bytes, word: Bytes, i: nat)
    requires s != [] && i > 0
    ensures OccursAt(s, word, i) <==> OccursAt(s[1..], word, i - 1)
  {
    if i + |word| <= |s| {
      assert s[1..][i - 1..i - 1 + |word|] == s[i..i + |word|];
    }
  }

  /** Whether a word occurs. */
  lemma {:induction false} ContainsIff(s: Bytes, word: Bytes)
    ensures Contains(s, word) <==> exists i: nat :: OccursAt(s, word, i)
    decreases |s|
  {
    assert word <= s <==> OccursAt(s, word, 0);
    if !(word <= s) && s != [] {
      ContainsIff(s[1..], word);
      forall i: nat ensures i > 0 ==> (OccursAt(s, word, i) <==> OccursAt(s[1..], word, i - 1)) {
        if i > 0 {
          OccursBehind(s, word, i);
        }
      }
      if Contains(s[1..], word) {
        var i: nat :| OccursAt(s[1..], word, i);
        assert OccursAt(s, word, i + 1);
      }
    }
  }

  /** Of several parameters with the same key the first one counts. */
  lemma {:induction false} FirstCounts(d: Dict, ps: seq<Param>, other: (Byte, Byte) -> Byte, i: nat)
    requires i < |ps| && ps[i].key !in d && forall j :: 0 <= j < i ==> ps[j].key != ps[i].key
    ensures var r := InsertAll(d, ps, other); ps[i].key in r && r[ps[i].key] == ValueOf(ps[i], other)
    decreases |ps|
  {
    hide ValueOf;
    var d' := Inserted(d, ps[0].key, ValueOf(ps[0], other));
    if i == 0 {
      InsertAllKeeps(d', ps[1..], other);
    } else {
      FirstCounts(d', ps[1..], other, i - 1);
    }
  }

  /**
   A request with the word "scrape" in it is understood as that event, and of its parameters only the first
   key is, whose value is all that follows.
   */
  lemma ScrapeParsed(before: Bytes, key: Bytes, rest: Bytes, path: Bytes, other: (Byte, Byte) -> Byte)
    requires path == before + [QUESTION_MARK] + (key + [EQUALS] + rest) && |path| < MAX_SIZE
    requires QUESTION_MARK !in before && EQUALS !in key && Contains(path, SCRAPE)
    ensures var d := Extracted(path, other);
      && d.Keys == {EVENT, key} && d[EVENT] == SCRAPE && (key != EVENT ==> d[key] == ValueOf(Param(key, rest), other))
  {
    hide Find, Contains, ValueOf, ParamsFrom, InsertAll, Extracted;
    var equal := |before| + 1 + |key|;
    BehindQuestionMark(before, key, rest, path);
    QuestionMarkFound(before, key + [EQUALS] + rest, path);
    FindIs(path, EQUALS, |before|, equal);
    ScrapeByPositions(path, |before|, equal, other);
    InsertOne(Param(key, rest), other);
  }

  lemma InsertOne(p: Param, other: (Byte, Byte) -> Byte)
    ensures var d := InsertAll(map[EVENT := SCRAPE], [p], other);
      d.Keys == {EVENT, p.key} && d[EVENT] == SCRAPE && (p.key != EVENT ==> d[p.key] == ValueOf(p, other))
  {
    hide ValueOf;
    InsertFirst(map[EVENT := SCRAPE], p, [], other);
    assert [p] + [] == [p];
  }

  lemma BehindQuestionMark(before: Bytes, key: Bytes, rest: Bytes, path: Bytes)
    requires path == before + [QUESTION_MARK] + (key + [EQUALS] + rest) && EQUALS !in key
    ensures var equal := |before| + 1 + |key|;
      && path[|before| + 1..equal] == key && path[equal] == EQUALS && path[equal + 1..] == rest
      && forall i :: |before| <= i < equal ==> path[i] != EQUALS
  {
    var equal := |before| + 1 + |key|;
    assert path[|before| + 1..equal] == key;
    assert forall i :: |before| + 1 <= i < equal ==> path[i] == path[|before| + 1..equal][i - |before| - 1];
  }

  lemma ScrapeByPositions(path: Bytes, question: nat, equal: nat, other: (Byte, Byte) -> Byte)
    requires |path| < MAX_SIZE && Contains(path, SCRAPE) && question < equal < |path|
    requires Find(path, QUESTION_MARK, 0) == question && Find(path, EQUALS, question) == equal
    ensures Extracted(path, other)
         == InsertAll(map[EVENT := SCRAPE], [Param(path[question + 1..equal], path[equal + 1..])], other)
  {
    hide Find, Contains, InsertAll, ParamsFrom;
  }

  /** Without a question mark, or an equals sign behind it, nothing else is understood. */
  lemma NothingParsed(path: Bytes, other: (Byte, Byte) -> Byte)
    requires |path| < MAX_SIZE
    requires QUESTION_MARK !in path || EQUALS !in path
    ensures Extracted(path, other) == if Contains(path, SCRAPE) then map[EVENT := SCRAPE] else map[]
  {
    hide Contains, InsertAll, ParamsFrom;
    if QUESTION_MARK !in path {
      FindNothing(path, QUESTION_MARK, 0);
    } else {
      FindNothing(path, EQUALS, Find(path, QUESTION_MARK, 0));
    }
    hide Find;
  }

  /** What a parameter is to be understood as: a hash by its digits, everything else by itself. */
  function Meant(p: Param): Bytes {
    if p.key == INFO_HASH then UpperHex(p.value) else p.value
  }

  /** The parameters of a request, with their values escaped. */
  function Escaped(raw: seq<Param>): (ps: seq<Param>)
    ensures |ps| == |raw|
  {
    seq(|raw|, i requires 0 <= i < |raw| => Param(raw[i].key, Escape(raw[i].value)))
  }

  /**
   Every distinct key of an escaped request is recovered: the info hash as its upper-case digits, all
   other values as they were before escaping. No other key appears.
   */
  lemma RequestRecovered(before: Bytes, raw: seq<Param>, path: Bytes, other: (Byte, Byte) -> Byte)
    requires path == before + [QUESTION_MARK] + Joined(Escaped(raw)) && |path| < MAX_SIZE
    requires |raw| >= 2 && QUESTION_MARK !in before && !Contains(path, SCRAPE) && DistinctKeys(raw)
    requires forall i :: 0 <= i < |raw| ==> EQUALS !in raw[i].key && AMPERSAND !in raw[i].key
    ensures var d := Extracted(path, other);
      && (forall i :: 0 <= i < |raw| ==> raw[i].key in d && d[raw[i].key] == Meant(raw[i]))
      && (forall k :: k in d ==> exists i :: 0 <= i < |raw| && raw[i].key == k)
  {
    hide Joined, Contains, Extracted, InsertAll, ValueOf, Escape, Meant, Plain, DistinctKeys, Escaped;
    var ps := Escaped(raw);
    EscapedParams(raw, other);
    RequestParsed(before, ps, path, other);
    InsertAllDistinct(map[], ps, other);
    InsertAllKeeps(map[], ps, other);
    forall k | k in Extracted(path, other) ensures exists i :: 0 <= i < |raw| && raw[i].key == k {
      var i :| 0 <= i < |ps| && ps[i].key == k;
      assert raw[i].key == k;
    }
  }

  lemma EscapedParams(raw: seq<Param>, other: (Byte, Byte) -> Byte)
    requires DistinctKeys(raw)
    requires forall i :: 0 <= i < |raw| ==> EQUALS !in raw[i].key && AMPERSAND !in raw[i].key
    ensures var ps := Escaped(raw);
      && Plain(ps) && DistinctKeys(ps)
      && forall i :: 0 <= i < |raw| ==> ps[i].key == raw[i].key && ValueOf(ps[i], other) == Meant(raw[i])
  {
    hide Escape, ValueOf, Meant;
    var ps := Escaped(raw);
    forall i | 0 <= i < |raw| ensures AMPERSAND !in ps[i].value && ValueOf(ps[i], other) == Meant(raw[i]) {
      EscapeAvoids(raw[i].value, AMPERSAND);
      ValueRecovered(raw[i].key, raw[i].value, other);
    }
  }

  lemma ValueRecovered(key: Bytes, raw: Bytes, other: (Byte, Byte) -> Byte)
    ensures ValueOf(Param(key, Escape(raw)), other) == Meant(Param(key, raw))
  {
    hide Escape, Unescape, Decoded;
    DecodeEncodedHash(raw);
    UnescapeEscape(raw, other);
  }
}
