/**
 Floyd's two random-selection algorithms, as used by the request scheduler (algorithm P, a random
 ordered selection) and by the tracker (algorithm F2, a random subset).

 The random generator is an input: `draws[i]` is the value that the i-th call of `GetInteger (1, j)`
 returned. To select m values out of 1..n the loop bound j runs from n - m + 1 to n; `gap` is n - m.
 */
module Floyd {
  import opened Lists

  /** The largest loop bound for which the 32-bit counter of the source stops. */
  const MAX_BOUND := 0xFFFF_FFFF

  ghost predicate ValidDraws(gap: nat, draws: seq<nat>) {
    forall i :: 0 <= i < |draws| ==> 1 <= draws[i] <= gap + 1 + i
  }

  /** An ordered selection of distinct values out of 1..n. */
  ghost predicate IsArrangement(n: nat, a: seq<nat>) {
    Distinct(a) && forall i :: 0 <= i < |a| ==> 1 <= a[i] <= n
  }

  ghost function IndexOf(s: seq<nat>, x: nat): (i: nat)
    requires x in s
    ensures i < |s| && s[i] == x
  {
    var i :| 0 <= i < |s| && s[i] == x;
    i
  }

  /** The library's linear search. */
  method Find(s: seq<nat>, x: nat) returns (i: nat)
    ensures if x in s then i < |s| && s[i] == x else i == |s|
  {
    i := 0;
    while i < |s| && s[i] != x
      invariant i <= |s|
      invariant forall k :: 0 <= k < i ==> s[k] != x
    {
      i := i + 1;
    }
  }

  function InsertAt(s: seq<nat>, p: nat, x: nat): seq<nat>
    requires p <= |s|
  {
    s[..p] + [x] + s[p..]
  }

  function RemoveAt(s: seq<nat>, p: nat): seq<nat>
    requires p < |s|
  {
    s[..p] + s[p + 1..]
  }

  // ----- Algorithm P -----

  /** One round: a fresh draw goes to the front, a repeated one puts the bound j right behind it. */
  ghost function PlaceDraw(selection: seq<nat>, t: nat, j: nat): seq<nat> {
    if t !in selection then [t] + selection else InsertAt(selection, IndexOf(selection, t) + 1, j)
  }

  /** The selection after the first k rounds. */
  ghost function Permutation(gap: nat, draws: seq<nat>, k: nat): seq<nat>
    requires k <= |draws|
  {
    if k == 0 then [] else PlaceDraw(Permutation(gap, draws, k - 1), draws[k - 1], gap + k)
  }

  lemma PlaceDrawKeepsArrangement(selection: seq<nat>, t: nat, j: nat)
    requires j > 0 && IsArrangement(j - 1, selection) && 1 <= t <= j
    ensures IsArrangement(j, PlaceDraw(selection, t, j))
  {
  }

  lemma {:induction false} PermutationShape(gap: nat, draws: seq<nat>, k: nat)
    requires ValidDraws(gap, draws) && k <= |draws|
    ensures |Permutation(gap, draws, k)| == k
    ensures IsArrangement(gap + k, Permutation(gap, draws, k))
  {
    if k > 0 {
      PermutationShape(gap, draws, k - 1);
      PlaceDrawKeepsArrangement(Permutation(gap, draws, k - 1), draws[k - 1], gap + k);
    }
  }

  lemma {:induction false} PermutationOfPrefix(gap: nat, draws: seq<nat>, t: nat, k: nat)
    requires k <= |draws|
    ensures Permutation(gap, draws + [t], k) == Permutation(gap, draws, k)
  {
    if k > 0 {
      PermutationOfPrefix(gap, draws, t, k - 1);
    }
  }

  /** Undoes a round: the last round is recognised by the position of its bound j. */
  ghost function TakeDraw(a: seq<nat>, j: nat): (r: (seq<nat>, nat))
    requires a != []
    ensures |r.0| == |a| - 1
  {
    if j in a && IndexOf(a, j) > 0
    then (RemoveAt(a, IndexOf(a, j)), a[IndexOf(a, j) - 1])
    else (a[1..], a[0])
  }

  lemma TakeAfterPlace(selection: seq<nat>, t: nat, j: nat)
    requires j !in selection && Distinct(selection)
    ensures TakeDraw(PlaceDraw(selection, t, j), j) == (selection, t)
  {
    var a := PlaceDraw(selection, t, j);
    if t !in selection {
      assert a[1..] == selection;
    } else {
      var p := IndexOf(selection, t) + 1;
      assert a[p] == j;
      assert RemoveAt(a, p) == selection;
    }
  }

  lemma PlaceAfterTake(a: seq<nat>, j: nat)
    requires a != [] && j > 0 && IsArrangement(j, a)
    ensures var (before, t) := TakeDraw(a, j);
            PlaceDraw(before, t, j) == a && IsArrangement(j - 1, before) && 1 <= t <= j
  {
    var (before, t) := TakeDraw(a, j);
    if j in a && IndexOf(a, j) > 0 {
      var p := IndexOf(a, j);
      assert before[p - 1] == t;
      assert InsertAt(before, p, j) == a;
    } else {
      assert a == [a[0]] + a[1..];
    }
  }

  /** The draws that lead to an arrangement. */
  ghost function DrawsOf(gap: nat, a: seq<nat>): (draws: seq<nat>)
    ensures |draws| == |a|
    decreases |a|
  {
    if a == [] then []
    else
      var (before, t) := TakeDraw(a, gap + |a|);
      DrawsOf(gap, before) + [t]
  }

  /** Different draws give different arrangements: the draws can be recovered. */
  lemma {:induction false} DrawsRecovered(gap: nat, draws: seq<nat>, k: nat)
    requires ValidDraws(gap, draws) && k <= |draws|
    ensures DrawsOf(gap, Permutation(gap, draws, k)) == draws[..k]
  {
    hide IsArrangement, TakeDraw, PlaceDraw;
    PermutationShape(gap, draws, k);
    if k > 0 {
      PermutationShape(gap, draws, k - 1);
      TakeAfterPlace(Permutation(gap, draws, k - 1), draws[k - 1], gap + k);
      DrawsRecovered(gap, draws, k - 1);
    }
  }

  /** Every arrangement is reached, by the valid draws that `DrawsOf` names. */
  lemma {:induction false} ArrangementReached(gap: nat, a: seq<nat>)
    requires IsArrangement(gap + |a|, a)
    ensures ValidDraws(gap, DrawsOf(gap, a))
    ensures Permutation(gap, DrawsOf(gap, a), |a|) == a
    decreases |a|
  {
    hide IsArrangement, TakeDraw, PlaceDraw;
    if a != [] {
      var (before, t) := TakeDraw(a, gap + |a|);
      PlaceAfterTake(a, gap + |a|);
      ArrangementReached(gap, before);
      PermutationOfPrefix(gap, DrawsOf(gap, before), t, |before|);
    }
  }

  method PlaceInList(selection: seq<nat>, t: nat, j: nat) returns (r: seq<nat>)
    ensures t !in selection ==> r == [t] + selection
    ensures t in selection ==> exists p :: 0 <= p < |selection| && selection[p] == t && r == InsertAt(selection, p + 1, j)
    ensures Distinct(selection) ==> r == PlaceDraw(selection, t, j)
  {
    var p := Find(selection, t);
    if p == |selection| {
      return [t] + selection;
    }
    if p + 1 == |selection| {
      r := selection + [j];
      assert r == InsertAt(selection, p + 1, j);
    } else {
      r := InsertAt(selection, p + 1, j);
    }
  }

  /** The loop of the source, with an insertion into the middle of a list for a repeated draw. */
  method GetPermutationP(m: nat, n: nat, draws: seq<nat>) returns (result: seq<nat>)
    requires m <= n < MAX_BOUND
    requires |draws| == m && ValidDraws(n - m, draws)
    ensures result == Permutation(n - m, draws, m)
  {
    hide ValidDraws;
    result := [];
    ghost var gap, i := n - m, 0;
    var j := n - m + 1;
    while j <= n
      invariant 0 <= i <= m && j == gap + i + 1
      invariant result == Permutation(gap, draws, i)
    {
      var t := draws[j - (n - m) - 1];
      assert t == draws[i];
      PermutationShape(gap, draws, i);
      result := PlaceInList(result, t, j);
      i, j := i + 1, j + 1;
    }
  }

  ghost function Range(n: nat): (r: set<nat>)
    ensures |r| == n
    ensures forall x :: x in r <==> 1 <= x <= n
  {
    if n == 0 then {} else Range(n - 1) + {n}
  }

  lemma PermutationInRange(draws: seq<nat>, i: nat)
    requires ValidDraws(0, draws) && i < |draws|
    ensures |Permutation(0, draws, |draws|)| == |draws|
    ensures 1 <= Permutation(0, draws, |draws|)[i] <= |draws|
  {
    PermutationShape(0, draws, |draws|);
  }

  /** With m = n the scheduler's order names every active peer exactly once, and only active peers. */
  lemma FullPermutationVisitsAll(draws: seq<nat>)
    requires ValidDraws(0, draws)
    ensures var order := Permutation(0, draws, |draws|);
            && |order| == |draws|
            && Distinct(order)
            && (forall i :: 0 <= i < |order| ==> 1 <= order[i] <= |draws|)
            && (forall k :: 1 <= k <= |draws| ==> k in order)
  {
    var order := Permutation(0, draws, |draws|);
    PermutationShape(0, draws, |draws|);
    DistinctSize(order);
    SubsetOfEqualSize(Elements(order), Range(|draws|));
    forall k | 1 <= k <= |draws| ensures k in order {
      assert k in Range(|draws|);
    }
  }

  // ----- Algorithm F2 -----

  function AddDraw(sample: set<nat>, t: nat, j: nat): set<nat> {
    if t !in sample then sample + {t} else sample + {j}
  }

  ghost function Sample(gap: nat, draws: seq<nat>, k: nat): set<nat>
    requires k <= |draws|
  {
    if k == 0 then {} else AddDraw(Sample(gap, draws, k - 1), draws[k - 1], gap + k)
  }

  /** The two algorithms select the same values from the same draws; P only orders them. */
  lemma {:induction false} SampleIsUnorderedPermutation(gap: nat, draws: seq<nat>, k: nat)
    requires k <= |draws|
    ensures Sample(gap, draws, k) == Elements(Permutation(gap, draws, k))
  {
    if k > 0 {
      hide PlaceDraw, AddDraw;
      SampleIsUnorderedPermutation(gap, draws, k - 1);
      PlacedElements(Permutation(gap, draws, k - 1), draws[k - 1], gap + k);
    }
  }

  lemma PlacedElements(selection: seq<nat>, t: nat, j: nat)
    ensures Elements(PlaceDraw(selection, t, j)) == AddDraw(Elements(selection), t, j)
  {
    if t in selection {
      InsertedElements(selection, IndexOf(selection, t) + 1, j);
    }
    hide IndexOf, InsertAt;
  }

  lemma InsertedElements(selection: seq<nat>, p: nat, j: nat)
    requires p <= |selection|
    ensures Elements(InsertAt(selection, p, j)) == Elements(selection) + {j}
  {
    assert selection == selection[..p] + selection[p..];
  }

  /** Every draw sequence yields exactly as many values of 1..n as there were draws. */
  lemma SampleShape(gap: nat, draws: seq<nat>, k: nat)
    requires ValidDraws(gap, draws) && k <= |draws|
    ensures |Sample(gap, draws, k)| == k && Sample(gap, draws, k) <= Range(gap + k)
  {
    SampleIsUnorderedPermutation(gap, draws, k);
    PermutationShape(gap, draws, k);
    DistinctSize(Permutation(gap, draws, k));
  }

  method GetRandomSampleF2(m: nat, n: nat, draws: seq<nat>) returns (result: set<nat>)
    requires n < MAX_BOUND
    requires |draws| == (if m < n then m else n) && ValidDraws(n - |draws|, draws)
    ensures result == Sample(n - |draws|, draws, |draws|)
  {
    hide ValidDraws;
    var size := if m < n then m else n;
    ghost var gap, i := n - size, 0;
    result := {};
    var j := n - size + 1;
    while j <= n
      invariant 0 <= i <= size && j == gap + i + 1
      invariant result == Sample(gap, draws, i)
    {
      var t := draws[j - (n - size) - 1];
      assert t == draws[i];
      if t !in result {
        result := result + {t};
      } else {
        result := result + {j};
      }
      i, j := i + 1, j + 1;
    }
  }

  // ----- F2 is uniform: every subset is produced by the same number of draw sequences -----

  function Factorial(m: nat): nat {
    if m == 0 then 1 else m * Factorial(m - 1)
  }

  /** All valid draw sequences of length k. */
  ghost function AllDraws(gap: nat, k: nat): (r: set<seq<nat>>)
    ensures forall d :: d in r <==> |d| == k && ValidDraws(gap, d)
  {
    if k == 0 then {[]}
    else
      var r := set d, t | d in AllDraws(gap, k - 1) && t in Range(gap + k) :: d + [t];
      assert forall d | |d| == k && ValidDraws(gap, d) :: d in r by {
        forall d | |d| == k && ValidDraws(gap, d) ensures d in r {
          assert d == d[..k - 1] + [d[k - 1]];
          assert d[..k - 1] in AllDraws(gap, k - 1) && d[k - 1] in Range(gap + k);
        }
      }
      r
  }

  ghost function DrawsYielding(gap: nat, k: nat, s: set<nat>): set<seq<nat>> {
    set d | d in AllDraws(gap, k) && Sample(gap, d, k) == s
  }

  /** What F2 held before a last round that drew t and ended with s, for the bound n. */
  ghost function Predecessor(s: set<nat>, t: nat, n: nat): set<nat> {
    if n in s then s - {n} else s - {t}
  }

  lemma SampleOfPrefix(gap: nat, draws: seq<nat>, k: nat, i: nat)
    requires i <= k <= |draws|
    ensures Sample(gap, draws[..k], i) == Sample(gap, draws, i)
  {
    if i > 0 {
      SampleOfPrefix(gap, draws, k, i - 1);
    }
  }

  lemma ValidDrawsSplit(gap: nat, k: nat, d: seq<nat>)
    requires k > 0 && |d| == k
    ensures ValidDraws(gap, d) <==> ValidDraws(gap, d[..k - 1]) && 1 <= d[k - 1] <= gap + k
  {
    if ValidDraws(gap, d) {
      assert forall i :: 0 <= i < k - 1 ==> d[..k - 1][i] == d[i];
    }
  }

  lemma AddDrawInverted(before: set<nat>, s: set<nat>, t: nat, n: nat)
    requires n !in before
    ensures AddDraw(before, t, n) == s <==> t in s && before == Predecessor(s, t, n)
  {
  }

  lemma LastDrawDetermines(gap: nat, k: nat, s: set<nat>, d: seq<nat>)
    requires k > 0 && s <= Range(gap + k) && |d| == k
    ensures d in DrawsYielding(gap, k, s)
       <==> d[k - 1] in s && d[..k - 1] in DrawsYielding(gap, k - 1, Predecessor(s, d[k - 1], gap + k))
  {
    hide AddDraw, Predecessor, ValidDraws;
    var n, t, before := gap + k, d[k - 1], Sample(gap, d, k - 1);
    SampleOfPrefix(gap, d, k - 1, k - 1);
    ValidDrawsSplit(gap, k, d);
    if ValidDraws(gap, d[..k - 1]) {
      SampleShape(gap, d[..k - 1], k - 1);
      AddDrawInverted(before, s, t, n);
    }
  }

  ghost function ExtendAll(ds: set<seq<nat>>, t: nat): set<seq<nat>> {
    set d | d in ds :: d + [t]
  }

  lemma AppendInjective(d: seq<nat>, e: seq<nat>, t: nat)
    ensures d + [t] == e + [t] ==> d == e
  {
    assert (d + [t])[..|d|] == d && (e + [t])[..|e|] == e;
  }

  lemma {:induction false} ExtendAllSize(ds: set<seq<nat>>, t: nat)
    ensures |ExtendAll(ds, t)| == |ds|
  {
    if ds != {} {
      var d :| d in ds;
      ExtendAllSize(ds - {d}, t);
      assert ExtendAll(ds, t) == ExtendAll(ds - {d}, t) + {d + [t]};
      assert d + [t] !in ExtendAll(ds - {d}, t) by {
        if d + [t] in ExtendAll(ds - {d}, t) {
          var e :| e in ds - {d} && e + [t] == d + [t];
          AppendInjective(d, e, t);
        }
      }
    }
  }

  ghost function EndingIn(gap: nat, k: nat, s: set<nat>, lasts: set<nat>): set<seq<nat>>
    requires k > 0
  {
    set d | d in DrawsYielding(gap, k, s) && d[k - 1] in lasts
  }

  lemma EndingInOne(gap: nat, k: nat, s: set<nat>, t: nat)
    requires k > 0 && s <= Range(gap + k) && t in s
    ensures EndingIn(gap, k, s, {t}) == ExtendAll(DrawsYielding(gap, k - 1, Predecessor(s, t, gap + k)), t)
  {
    var shorter := DrawsYielding(gap, k - 1, Predecessor(s, t, gap + k));
    forall d ensures d in EndingIn(gap, k, s, {t}) <==> d in ExtendAll(shorter, t) {
      if |d| == k && d[k - 1] == t {
        LastDrawDetermines(gap, k, s, d);
        assert d == d[..k - 1] + [t];
        if d in ExtendAll(shorter, t) {
          var e :| e in shorter && e + [t] == d;
          assert e == d[..k - 1];
        }
      }
    }
  }

  lemma EndingInSplit(gap: nat, k: nat, s: set<nat>, lasts: set<nat>, t: nat)
    requires k > 0 && t in lasts
    ensures |EndingIn(gap, k, s, lasts)| == |EndingIn(gap, k, s, lasts - {t})| + |EndingIn(gap, k, s, {t})|
  {
    assert EndingIn(gap, k, s, lasts) == EndingIn(gap, k, s, lasts - {t}) + EndingIn(gap, k, s, {t});
    assert EndingIn(gap, k, s, lasts - {t}) !! EndingIn(gap, k, s, {t});
  }

  /** `count` times `value`, as a sum. */
  ghost function Repeated(count: nat, value: nat): nat {
    if count == 0 then 0 else Repeated(count - 1, value) + value
  }

  lemma {:induction false} RepeatedIsProduct(count: nat, value: nat)
    ensures Repeated(count, value) == count * value
  {
    if count > 0 {
      RepeatedIsProduct(count - 1, value);
    }
  }

  lemma PredecessorShape(gap: nat, k: nat, s: set<nat>, t: nat)
    requires k > 0 && |s| == k && s <= Range(gap + k) && t in s
    ensures |Predecessor(s, t, gap + k)| == k - 1 && Predecessor(s, t, gap + k) <= Range(gap + (k - 1))
  {
  }

  lemma {:induction false} EndingInSize(gap: nat, k: nat, s: set<nat>, lasts: set<nat>)
    requires k > 0 && |s| == k && s <= Range(gap + k) && lasts <= s
    ensures |EndingIn(gap, k, s, lasts)| == Repeated(|lasts|, Factorial(k - 1))
    decreases k, |lasts|
  {
    hide Factorial, ExtendAll, Predecessor, DrawsYielding, Range;
    if lasts == {} {
      assert EndingIn(gap, k, s, lasts) == {};
    } else {
      hide EndingIn;
      var t :| t in lasts;
      EndingInSplit(gap, k, s, lasts, t);
      EndingInSize(gap, k, s, lasts - {t});
      EndingInOne(gap, k, s, t);
      var before := Predecessor(s, t, gap + k);
      PredecessorShape(gap, k, s, t);
      ExtendAllSize(DrawsYielding(gap, k - 1, before), t);
      EachSubsetEquallyOften(gap, k - 1, before);
    }
  }

  /** F2 is a fair sample: each k-subset of 1..n is produced by exactly k! of the draw sequences. */
  lemma {:induction false} EachSubsetEquallyOften(gap: nat, k: nat, s: set<nat>)
    requires |s| == k && s <= Range(gap + k)
    ensures |DrawsYielding(gap, k, s)| == Factorial(k)
    decreases k, |s| + 1
  {
    if k == 0 {
      assert DrawsYielding(gap, k, s) == {[]};
    } else {
      EndingInSize(gap, k, s, s);
      RepeatedIsProduct(k, Factorial(k - 1));
      assert DrawsYielding(gap, k, s) == EndingIn(gap, k, s, s) by {
        forall d | d in DrawsYielding(gap, k, s) ensures d[k - 1] in s {
          LastDrawDetermines(gap, k, s, d);
        }
      }
    }
  }
}
