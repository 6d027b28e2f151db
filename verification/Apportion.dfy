/** Sharing rooms among landlords: shuffle, round each landlord's percentage, push the rounding error
    onto the first landlord, and hand the rooms out in order.  Arithmetic is exact. */
module Apportion {

  datatype Landlord = Landlord(email: string, targetRooms: real)

  // ------------------------------------------------------------------------------- the shuffle

  function Swapped<T>(s: seq<T>, i: nat, j: nat): (r: seq<T>)
    requires i < |s| && j < |s|
    ensures |r| == |s|
  {
    s[i := s[j]][j := s[i]]
  }

  /** choices[i] is the index drawn for position i; it lies in 0..i. */
  predicate ValidChoices(choices: seq<nat>) {
    forall i :: 0 <= i < |choices| ==> choices[i] <= i
  }

  /** Positions |choices|-1 down to 1 are filled in turn; position 0 is never drawn for. */
  function Shuffled<T>(s: seq<T>, choices: seq<nat>): (r: seq<T>)
    requires ValidChoices(choices) && |choices| <= |s|
    ensures |r| == |s|
    decreases |choices|
  {
    var i := |choices| - 1;
    if i <= 0 then s else Shuffled(Swapped(s, i, choices[i]), choices[..i])
  }

  lemma SwapPermutes<T>(s: seq<T>, i: nat, j: nat)
    requires i < |s| && j < |s|
    ensures multiset(Swapped(s, i, j)) == multiset(s)
  {}

  lemma {:induction false} ShuffleKeepsTail<T>(s: seq<T>, choices: seq<nat>)
    requires ValidChoices(choices) && |choices| <= |s|
    ensures Shuffled(s, choices)[|choices|..] == s[|choices|..]
    decreases |choices|
  {
    var i := |choices| - 1;
    if i <= 0 {
    } else {
      ShuffleKeepsTail(Swapped(s, i, choices[i]), choices[..i]);
    }
  }

  lemma {:induction false} ShufflePermutes<T>(s: seq<T>, choices: seq<nat>)
    requires ValidChoices(choices) && |choices| <= |s|
    ensures multiset(Shuffled(s, choices)) == multiset(s)
    decreases |choices|
  {
    var i := |choices| - 1;
    if i <= 0 {
    } else {
      SwapPermutes(s, i, choices[i]);
      ShufflePermutes(Swapped(s, i, choices[i]), choices[..i]);
    }
  }

  ghost predicate Distinct<T>(s: seq<T>) {
    forall i, j :: 0 <= i < j < |s| ==> s[i] != s[j]
  }

  lemma SwapKeepsDistinct<T>(s: seq<T>, i: nat, j: nat)
    requires i < |s| && j < |s| && Distinct(s)
    ensures Distinct(Swapped(s, i, j))
  {}

  /** The last draw shows in the last item. */
  lemma LastDrawShows<T>(s: seq<T>, c1: seq<nat>, c2: seq<nat>, i: nat)
    requires ValidChoices(c1) && ValidChoices(c2) && |c1| == |c2| == i + 1 <= |s| && i > 0 && Distinct(s)
    requires Shuffled(s, c1) == Shuffled(s, c2)
    ensures c1[i] == c2[i]
  {
    hide Shuffled;
    var s1, s2 := Swapped(s, i, c1[i]), Swapped(s, i, c2[i]);
    ShuffledLater(s, c1, i);
    ShuffledLater(s, c2, i);
    ShuffleKeepsTail(s1, c1[..i]);
    ShuffleKeepsTail(s2, c2[..i]);
    assert s1[i] == s1[i..][0] && s2[i] == s2[i..][0];
  }

  lemma ShuffledLater<T>(s: seq<T>, c: seq<nat>, i: nat)
    requires ValidChoices(c) && |c| == i + 1 <= |s| && i > 0
    ensures Shuffled(s, c) == Shuffled(Swapped(s, i, c[i]), c[..i])
  {}

  /** The draws behind a shuffle can be read off its result: on distinct items different draws give
      different orders.  (Position 0 has only one draw, so it is fixed.) */
  lemma {:induction false} DrawsAreDetermined<T>(s: seq<T>, c1: seq<nat>, c2: seq<nat>)
    requires ValidChoices(c1) && ValidChoices(c2) && |c1| == |c2| <= |s| && Distinct(s)
    requires Shuffled(s, c1) == Shuffled(s, c2)
    ensures c1 == c2
    decreases |c1|
  {
    hide Shuffled;
    var i := |c1| - 1;
    if i <= 0 {
    } else {
      LastDrawShows(s, c1, c2, i);
      ShuffledLater(s, c1, i);
      ShuffledLater(s, c2, i);
      SwapKeepsDistinct(s, i, c1[i]);
      DrawsAreDetermined(Swapped(s, i, c1[i]), c1[..i], c2[..i]);
      assert c1 == c1[..i] + [c1[i]] && c2 == c2[..i] + [c2[i]];
    }
  }

  lemma SameLastSameRest<T>(a: seq<T>, b: seq<T>, x: T)
    requires multiset(a + [x]) == multiset(b + [x])
    ensures multiset(a) == multiset(b)
  {
    assert multiset(a + [x]) - multiset{x} == multiset(a);
    assert multiset(b + [x]) - multiset{x} == multiset(b);
  }

  lemma LastOccurs<T>(a: seq<T>, b: seq<T>) returns (j: nat)
    requires |a| == |b| > 0 && multiset(a) == multiset(b)
    ensures j < |a| && a[j] == b[|b| - 1]
  {
    var x := b[|b| - 1];
    assert x in b;
    assert x in multiset(b);
    assert x in multiset(a);
    assert x in a;
    j :| 0 <= j < |a| && a[j] == x;
  }

  /** A draw that brings the wanted item to position n-1 leaves the same problem one shorter. */
  lemma FirstDraw<T>(s: seq<T>, t: seq<T>, n: nat) returns (j: nat)
    requires 0 < n <= |s| == |t| && multiset(s[..n]) == multiset(t[..n]) && s[n..] == t[n..]
    ensures j < n
    ensures var s1 := Swapped(s, n - 1, j);
      multiset(s1[..n - 1]) == multiset(t[..n - 1]) && s1[n - 1..] == t[n - 1..]
  {
    var i := n - 1;
    j := LastOccurs(s[..n], t[..n]);
    var s1 := Swapped(s, i, j);
    var x := t[i];
    assert multiset(s1[..i] + [x]) == multiset(t[..i] + [x]) by {
      assert Swapped(s[..n], i, j) == s1[..i] + [x];
      assert t[..n] == t[..i] + [x];
      SwapPermutes(s[..n], i, j);
    }
    SameLastSameRest(s1[..i], t[..i], x);
    assert s1[i..] == [x] + s[n..] && t[i..] == [x] + t[n..];
  }

  /** Every order of the items is reached by some draws. */
  lemma {:induction false} EveryOrderIsReached<T>(s: seq<T>, t: seq<T>, n: nat) returns (choices: seq<nat>)
    requires n <= |s| == |t| && multiset(s[..n]) == multiset(t[..n]) && s[n..] == t[n..]
    ensures |choices| == n && ValidChoices(choices) && Shuffled(s, choices) == t
    decreases n
  {
    if n == 0 {
      assert s == s[0..] && t == t[0..];
      choices := [];
    } else {
      var j := FirstDraw(s, t, n);
      var rest := EveryOrderIsReached(Swapped(s, n - 1, j), t, n - 1);
      choices := rest + [j];
      assert choices[..n - 1] == rest;
      if n == 1 { assert Swapped(s, 0, j) == s; }
    }
  }

  // -------------------------------------------------------------------------------- the counts

  /** Math.round. */
  function Round(x: real): int {
    (x + 0.5).Floor
  }

  function Share(l: Landlord, rooms: nat): real {
    l.targetRooms / 100.0 * rooms as real
  }

  function Rounded(landlords: seq<Landlord>, rooms: nat): (counts: seq<int>)
    ensures |counts| == |landlords|
    ensures forall i :: 0 <= i < |counts| ==> counts[i] == Round(Share(landlords[i], rooms))
  {
    if landlords == [] then [] else [Round(Share(landlords[0], rooms))] + Rounded(landlords[1..], rooms)
  }

  function Sum(counts: seq<int>): int {
    if counts == [] then 0 else counts[0] + Sum(counts[1..])
  }

  /** The first landlord takes the whole difference, which may push its count below zero. */
  function Corrected(landlords: seq<Landlord>, rooms: nat): (counts: seq<int>)
    requires landlords != []
    ensures |counts| == |landlords|
  {
    var counts := Rounded(landlords, rooms);
    counts[0 := counts[0] + (rooms - Sum(counts))]
  }

  function ShareSum(landlords: seq<Landlord>, rooms: nat): real {
    if landlords == [] then 0.0 else Share(landlords[0], rooms) + ShareSum(landlords[1..], rooms)
  }

  predicate WithinHalf(count: int, share: real, halves: nat) {
    -(halves as real) / 2.0 <= count as real - share <= halves as real / 2.0
  }

  lemma {:induction false} RoundedSumIsClose(landlords: seq<Landlord>, rooms: nat)
    ensures WithinHalf(Sum(Rounded(landlords, rooms)), ShareSum(landlords, rooms), |landlords|)
  {
    if landlords == [] {
    } else {
      hide Share;
      RoundedSumIsClose(landlords[1..], rooms);
      assert Rounded(landlords, rooms)[1..] == Rounded(landlords[1..], rooms);
    }
  }

  /** After the correction the counts add up to the number of rooms; every landlord but the first is
      within 1/2 of its exact share, and the first is within (n-1)/2 of what the exact shares of the
      others leave. */
  lemma CorrectedCounts(landlords: seq<Landlord>, rooms: nat)
    requires landlords != []
    ensures var counts := Corrected(landlords, rooms);
      && Sum(counts) == rooms
      && (forall i :: 0 < i < |landlords| ==> WithinHalf(counts[i], Share(landlords[i], rooms), 1))
      && WithinHalf(counts[0], rooms as real - ShareSum(landlords[1..], rooms), |landlords| - 1)
  {
    hide Share;
    var rounded, counts := Rounded(landlords, rooms), Corrected(landlords, rooms);
    assert counts[1..] == rounded[1..] == Rounded(landlords[1..], rooms);
    assert Sum(rounded) == rounded[0] + Sum(rounded[1..]) && Sum(counts) == counts[0] + Sum(counts[1..]);
    RoundedSumIsClose(landlords[1..], rooms);
  }

  // ------------------------------------------------------------------------------ the hand-out

  /** How many rooms a landlord with this count takes when so many are left. */
  function Taken(count: int, left: nat): nat {
    if count <= 0 then 0 else if count <= left then count else left
  }

  function HandOut<T>(counts: seq<int>, rooms: seq<T>): (lists: seq<seq<T>>)
    ensures |lists| == |counts|
  {
    if counts == [] then []
    else
      var n := Taken(counts[0], |rooms|);
      [rooms[..n]] + HandOut(counts[1..], rooms[n..])
  }

  function Flatten<T>(lists: seq<seq<T>>): seq<T> {
    if lists == [] then [] else lists[0] + Flatten(lists[1..])
  }

  lemma {:induction false} HandOutCoversAll<T>(counts: seq<int>, rooms: seq<T>)
    requires Sum(counts) >= |rooms| || rooms == []
    ensures Flatten(HandOut(counts, rooms)) == rooms
  {
    if counts == [] {
    } else {
      var n := Taken(counts[0], |rooms|);
      HandOutCoversAll(counts[1..], rooms[n..]);
      assert HandOut(counts, rooms)[1..] == HandOut(counts[1..], rooms[n..]);
      assert rooms == rooms[..n] + rooms[n..];
    }
  }

  /** The rooms of each landlord, in table order. */
  function Assignment<T>(landlords: seq<Landlord>, rooms: seq<T>, choices: seq<nat>): (lists: seq<seq<T>>)
    requires landlords != [] && ValidChoices(choices) && |choices| == |rooms|
    ensures |lists| == |landlords|
  {
    HandOut(Corrected(landlords, |rooms|), Shuffled(rooms, choices))
  }

  /** Whatever the rooms, the draws and the percentages: the landlords' lists, put end to end, are the
      shuffled rooms, hence a permutation of the input. */
  lemma RoomsAreConserved<T>(landlords: seq<Landlord>, rooms: seq<T>, choices: seq<nat>)
    requires landlords != [] && ValidChoices(choices) && |choices| == |rooms|
    ensures Flatten(Assignment(landlords, rooms, choices)) == Shuffled(rooms, choices)
    ensures multiset(Flatten(Assignment(landlords, rooms, choices))) == multiset(rooms)
  {
    CorrectedCounts(landlords, |rooms|);
    HandOutCoversAll(Corrected(landlords, |rooms|), Shuffled(rooms, choices));
    ShufflePermutes(rooms, choices);
  }

  /** A landlord whose corrected count is not positive gets no room. */
  lemma FirstGetsTaken<T>(landlords: seq<Landlord>, rooms: seq<T>, choices: seq<nat>)
    requires landlords != [] && ValidChoices(choices) && |choices| == |rooms|
    ensures |Assignment(landlords, rooms, choices)[0]| == Taken(Corrected(landlords, |rooms|)[0], |rooms|)
  {}

  // -------------------------------------------------------------------------- the shipped table

  const TABLE := [
    Landlord("budget.student@trustay.com", 25.0), Landlord("budget.worker@trustay.com", 25.0),
    Landlord("economy.young@trustay.com", 20.0), Landlord("economy.family@trustay.com", 15.0),
    Landlord("economy.mix@trustay.com", 15.0), Landlord("standard.professional@trustay.com", 20.0),
    Landlord("standard.executive@trustay.com", 10.0), Landlord("premium.business@trustay.com", 8.0),
    Landlord("premium.expat@trustay.com", 7.0), Landlord("luxury.elite@trustay.com", 5.0)]

  function RoundedPercent(percent: nat, rooms: nat): nat {
    (2 * percent * rooms + 100) / 200
  }

  lemma RoundedPercentIsRound(l: Landlord, percent: nat, rooms: nat)
    requires l.targetRooms == percent as real
    ensures Round(Share(l, rooms)) == RoundedPercent(percent, rooms)
  {
    var p := 2 * percent * rooms + 100;
    assert Share(l, rooms) + 0.5 == p as real / 200.0;
    var q := p / 200;
    assert q * 200 <= p < (q + 1) * 200;
    assert q as real <= p as real / 200.0 < q as real + 1.0;
  }

  /** What the nine landlords after the first are given before the hand-out. */
  function OthersInTable(rooms: nat): nat {
    RoundedPercent(25, rooms) + RoundedPercent(20, rooms) + RoundedPercent(15, rooms) + RoundedPercent(15, rooms)
    + RoundedPercent(20, rooms) + RoundedPercent(10, rooms) + RoundedPercent(8, rooms) + RoundedPercent(7, rooms)
    + RoundedPercent(5, rooms)
  }

  lemma RoundedPercentBound(percent: nat, rooms: nat)
    ensures 200 * RoundedPercent(percent, rooms) >= 2 * percent * rooms - 99
  {}

  lemma OthersReachMany(rooms: nat)
    requires rooms >= 18
    ensures OthersInTable(rooms) >= rooms
  {
    hide RoundedPercent;
    RoundedPercentBound(25, rooms);
    RoundedPercentBound(20, rooms);
    RoundedPercentBound(15, rooms);
    RoundedPercentBound(10, rooms);
    RoundedPercentBound(8, rooms);
    RoundedPercentBound(7, rooms);
    RoundedPercentBound(5, rooms);
  }

  lemma OthersReachFew(rooms: nat)
    requires rooms < 3
    ensures OthersInTable(rooms) >= rooms <==> rooms == 0
  {
    match rooms { case 0 => case 1 => case _ => }
  }

  lemma OthersReachThree(rooms: nat)
    requires 3 <= rooms < 6
    ensures OthersInTable(rooms) >= rooms
  {
    match rooms { case 3 => case 4 => case _ => }
  }

  lemma OthersReachSome(rooms: nat)
    requires 6 <= rooms < 12
    ensures OthersInTable(rooms) >= rooms
  {
    match rooms { case 6 => case 7 => case 8 => case 9 => case 10 => case _ => }
  }

  lemma OthersReachMore(rooms: nat)
    requires 12 <= rooms < 18
    ensures OthersInTable(rooms) >= rooms
  {
    match rooms { case 12 => case 13 => case 14 => case 15 => case 16 => case _ => }
  }

  /** The others claim every room there is, except when there are only one or two. */
  lemma OthersReach(rooms: nat)
    ensures OthersInTable(rooms) >= rooms <==> rooms == 0 || rooms >= 3
  {
    hide OthersInTable;
    if rooms < 3 { OthersReachFew(rooms); }
    else if rooms < 6 { OthersReachThree(rooms); }
    else if rooms < 12 { OthersReachSome(rooms); }
    else if rooms < 18 { OthersReachMore(rooms); }
    else { OthersReachMany(rooms); }
  }

  lemma {:induction false} CountsByPercent(landlords: seq<Landlord>, percents: seq<nat>, rooms: nat)
    requires |landlords| == |percents|
    requires forall i :: 0 <= i < |percents| ==> landlords[i].targetRooms == percents[i] as real
    ensures Sum(Rounded(landlords, rooms)) == SumPercents(percents, rooms)
  {
    if landlords == [] {
    } else {
      RoundedPercentIsRound(landlords[0], percents[0], rooms);
      CountsByPercent(landlords[1..], percents[1..], rooms);
      assert Rounded(landlords, rooms)[1..] == Rounded(landlords[1..], rooms);
    }
  }

  function SumPercents(percents: seq<nat>, rooms: nat): nat {
    if percents == [] then 0 else RoundedPercent(percents[0], rooms) + SumPercents(percents[1..], rooms)
  }

  lemma SumPercentsCons(percent: nat, rest: seq<nat>, rooms: nat)
    ensures SumPercents([percent] + rest, rooms) == RoundedPercent(percent, rooms) + SumPercents(rest, rooms)
  {
    assert ([percent] + rest)[1..] == rest;
  }

  lemma OthersSum(rooms: nat)
    ensures Sum(Rounded(TABLE[1..], rooms)) == OthersInTable(rooms)
  {
    hide RoundedPercent, Rounded, SumPercents;
    CountsByPercent(TABLE[1..], [25, 20, 15, 15, 20, 10, 8, 7, 5], rooms);
    SumPercentsNine(25, 20, 15, 15, 20, 10, 8, 7, 5, rooms);
  }

  lemma SumPercentsNine(a: nat, b: nat, c: nat, d: nat, e: nat, f: nat, g: nat, h: nat, i: nat, rooms: nat)
    ensures SumPercents([a, b, c, d, e, f, g, h, i], rooms)
      == RoundedPercent(a, rooms) + RoundedPercent(b, rooms) + RoundedPercent(c, rooms) + RoundedPercent(d, rooms)
         + RoundedPercent(e, rooms) + RoundedPercent(f, rooms) + RoundedPercent(g, rooms) + RoundedPercent(h, rooms)
         + RoundedPercent(i, rooms)
  {
    hide RoundedPercent;
    assert SumPercents([], rooms) == 0;
    hide SumPercents;
    assert [a, b, c, d, e, f, g, h, i] == [a] + [b, c, d, e, f, g, h, i];
    assert [b, c, d, e, f, g, h, i] == [b] + [c, d, e, f, g, h, i];
    assert [c, d, e, f, g, h, i] == [c] + [d, e, f, g, h, i];
    assert [d, e, f, g, h, i] == [d] + [e, f, g, h, i];
    assert [e, f, g, h, i] == [e] + [f, g, h, i];
    assert [f, g, h, i] == [f] + [g, h, i];
    assert [g, h, i] == [g] + [h, i];
    assert [h, i] == [h] + [i];
    assert [i] == [i] + [];
    SumPercentsCons(a, [b, c, d, e, f, g, h, i], rooms);
    SumPercentsCons(b, [c, d, e, f, g, h, i], rooms);
    SumPercentsCons(c, [d, e, f, g, h, i], rooms);
    SumPercentsCons(d, [e, f, g, h, i], rooms);
    SumPercentsCons(e, [f, g, h, i], rooms);
    SumPercentsCons(f, [g, h, i], rooms);
    SumPercentsCons(g, [h, i], rooms);
    SumPercentsCons(h, [i], rooms);
    SumPercentsCons(i, [], rooms);
  }

  /** With the shipped percentages, which add up to 150, the first landlord receives a room if and only
      if there are one or two rooms in all: never once there are three or more. */
  lemma FirstLandlordStarves<T>(rooms: seq<T>, choices: seq<nat>)
    requires ValidChoices(choices) && |choices| == |rooms|
    ensures Assignment(TABLE, rooms, choices)[0] != [] <==> 1 <= |rooms| <= 2
  {
    hide Rounded, OthersInTable;
    FirstGetsTaken(TABLE, rooms, choices);
    CorrectedCounts(TABLE, |rooms|);
    CorrectedKeepsOthers(TABLE, |rooms|);
    OthersSum(|rooms|);
    OthersReach(|rooms|);
  }

  lemma CorrectedKeepsOthers(landlords: seq<Landlord>, rooms: nat)
    requires landlords != []
    ensures Corrected(landlords, rooms)[0] == rooms - Sum(Rounded(landlords[1..], rooms))
  {
    var rounded := Rounded(landlords, rooms);
    assert rounded[1..] == Rounded(landlords[1..], rooms);
  }

  // -------------------------------------------------------------------------------- the script

  method ShuffleArray<T>(items: array<T>, choices: seq<nat>)
    requires ValidChoices(choices) && |choices| == items.Length
    modifies items
    ensures items[..] == Shuffled(old(items[..]), choices)
  {
    var i := items.Length - 1;
    assert choices == choices[..items.Length];
    while i > 0
      invariant -1 <= i < items.Length
      invariant Shuffled(items[..], choices[..i + 1]) == Shuffled(old(items[..]), choices)
    {
      var j := choices[i];
      ghost var before := items[..];
      items[i], items[j] := items[j], items[i];
      assert items[..] == Swapped(before, i, j);
      assert choices[..i + 1][..i] == choices[..i];
      i := i - 1;
    }
  }

  /** One rounded count per landlord, then the correction of the first. */
  method CountRooms(landlords: seq<Landlord>, totalRooms: nat) returns (roomDistribution: seq<int>)
    requires landlords != []
    ensures roomDistribution == Corrected(landlords, totalRooms)
  {
    hide Share, Round;
    ghost var rounded := Rounded(landlords, totalRooms);
    roomDistribution := [];
    var totalAssigned := 0;
    for k := 0 to |landlords|
      invariant roomDistribution == rounded[..k]
      invariant totalAssigned + Sum(rounded[k..]) == Sum(rounded)
    {
      var targetCount := Round(Share(landlords[k], totalRooms));
      roomDistribution := roomDistribution + [targetCount];
      assert rounded[k..][1..] == rounded[k + 1..];
      totalAssigned := totalAssigned + targetCount;
    }
    assert roomDistribution == rounded;
    if totalAssigned != totalRooms {
      roomDistribution := roomDistribution[0 := roomDistribution[0] + (totalRooms - totalAssigned)];
    }
  }

  /** The inner loop of the hand-out: rooms are pushed while the landlord's count and the rooms last. */
  method PushRooms<T>(shuffled: seq<T>, start: nat, count: int) returns (pushed: seq<T>, roomIndex: nat)
    requires start <= |shuffled|
    ensures roomIndex == start + Taken(count, |shuffled| - start)
    ensures roomIndex <= |shuffled| && pushed == shuffled[start..roomIndex]
  {
    pushed, roomIndex := [], start;
    var i := 0;
    while i < count && roomIndex < |shuffled|
      invariant 0 <= i && roomIndex == start + i <= |shuffled| && (i == 0 || i <= count)
      invariant pushed == shuffled[start..roomIndex]
      decreases |shuffled| - roomIndex
    {
      pushed := pushed + [shuffled[roomIndex]];
      roomIndex := roomIndex + 1;
      i := i + 1;
    }
  }

  /** The whole distribution: the lists come back keyed by the landlord's e-mail address. */
  method DistributeRooms<T>(landlords: seq<Landlord>, rooms: seq<T>, choices: seq<nat>)
    returns (assignments: map<string, seq<T>>)
    requires landlords != [] && ValidChoices(choices) && |choices| == |rooms|
    requires forall i, j :: 0 <= i < j < |landlords| ==> landlords[i].email != landlords[j].email
    ensures forall i :: 0 <= i < |landlords| ==>
      landlords[i].email in assignments && assignments[landlords[i].email] == Assignment(landlords, rooms, choices)[i]
  {
    hide Corrected, Taken;
    var copy := new T[|rooms|](i requires 0 <= i < |rooms| => rooms[i]);
    assert copy[..] == rooms;
    ShuffleArray(copy, choices);
    var shuffled := copy[..];
    var counts := CountRooms(landlords, |rooms|);
    ghost var lists := HandOut(counts, shuffled);

    assignments := map[];
    var roomIndex := 0;
    assert counts[0..] == counts && shuffled[0..] == shuffled && lists[0..] == lists;
    for k := 0 to |landlords|
      invariant 0 <= roomIndex <= |shuffled|
      invariant forall i :: 0 <= i < k ==>
        landlords[i].email in assignments && assignments[landlords[i].email] == lists[i]
      invariant HandOut(counts[k..], shuffled[roomIndex..]) == lists[k..]
    {
      ghost var start := roomIndex;
      var pushed;
      pushed, roomIndex := PushRooms(shuffled, roomIndex, counts[k]);
      HandOutStep(counts, shuffled, lists, k, start, roomIndex);
      assignments := assignments[landlords[k].email := pushed];
    }
  }

  lemma HandOutStep<T>(counts: seq<int>, rooms: seq<T>, lists: seq<seq<T>>, k: nat, start: nat, end: nat)
    requires k < |counts| == |lists| && start <= end <= |rooms|
    requires HandOut(counts[k..], rooms[start..]) == lists[k..]
    requires end == start + Taken(counts[k], |rooms| - start)
    ensures lists[k] == rooms[start..end]
    ensures HandOut(counts[k + 1..], rooms[end..]) == lists[k + 1..]
  {
    hide Taken;
    var n := end - start;
    assert rooms[start..][..n] == rooms[start..end] && rooms[start..][n..] == rooms[end..];
    assert counts[k..][1..] == counts[k + 1..];
    assert lists[k..][0] == lists[k] && lists[k..][1..] == lists[k + 1..];
  }
}
