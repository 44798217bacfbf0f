/** The achievement catalog of the progress tracker (script.js): the record of one
    achievement and the values the manager derives from a list of them — the id
    assignment, the saved progress (unlocked ids and total points), the filtered view and
    its rarity order, and the list-wide updates (reset, merge with remote progress). */
module Achievements {
  import opened JsValues

  datatype Rarity = Comum | Incomum | Raro | Epico | Lendario

  /** `rarityOrder` (script.js:364). */
  function Rank(r: Rarity): (n: nat)
    ensures n <= 4
  {
    match r
    case Comum => 0
    case Incomum => 1
    case Raro => 2
    case Epico => 3
    case Lendario => 4
  }

  /** One catalog entry. A missing `id` is represented by 0, which never equals a
      position plus one; a missing `areaId` by `None`; a missing `unlocked` by false. */
  datatype Achievement = Achievement(
    id: int,
    name: string,
    description: string,
    points: int,
    rarity: Rarity,
    areaId: Option<int>,
    icon: string,
    unlocked: bool)

  // ---------------------------------------------------------------------------
  // autoGenerateIds
  // ---------------------------------------------------------------------------

  predicate HasSequentialIds(s: seq<Achievement>) {
    forall i :: 0 <= i < |s| ==> s[i].id == i + 1
  }

  predicate DistinctIds(s: seq<Achievement>) {
    forall i, j :: 0 <= i < j < |s| ==> s[i].id != s[j].id
  }

  /** Element i gets id i + 1 and keeps every other field; a list already numbered that
      way is returned as it is. */
  function AutoGenerateIds(s: seq<Achievement>): (r: seq<Achievement>)
    ensures |r| == |s|
    ensures forall i :: 0 <= i < |s| ==> r[i] == s[i].(id := i + 1)
    ensures HasSequentialIds(s) ==> r == s
    ensures HasSequentialIds(r) && DistinctIds(r)
  {
    if HasSequentialIds(s) then s
    else seq(|s|, i requires 0 <= i < |s| => s[i].(id := i + 1))
  }

  // ---------------------------------------------------------------------------
  // Saved progress: unlockedIds and totalPoints
  // ---------------------------------------------------------------------------

  /** `achievements.filter(a => a.unlocked).map(a => a.id)`. */
  function UnlockedIds(s: seq<Achievement>): seq<int> {
    if s == [] then [] else (if s[0].unlocked then [s[0].id] else []) + UnlockedIds(s[1..])
  }

  /** What one achievement adds to `totalPoints`. */
  function Contribution(a: Achievement): int {
    if a.unlocked then a.points else 0
  }

  /** `achievements.reduce((sum, a) => sum + (a.unlocked ? a.points : 0), 0)`. */
  function TotalPoints(s: seq<Achievement>): int {
    if s == [] then 0 else Contribution(s[0]) + TotalPoints(s[1..])
  }

  function CountUnlocked(s: seq<Achievement>): nat {
    if s == [] then 0 else (if s[0].unlocked then 1 else 0) + CountUnlocked(s[1..])
  }

  predicate UnlockedWithId(s: seq<Achievement>, x: int) {
    exists i :: 0 <= i < |s| && s[i].unlocked && s[i].id == x
  }

  /** The saved ids are exactly the ids of unlocked achievements, one per unlocked
      achievement. */
  lemma {:induction false} UnlockedIdsExact(s: seq<Achievement>)
    ensures |UnlockedIds(s)| == CountUnlocked(s)
    ensures forall x :: x in UnlockedIds(s) <==> UnlockedWithId(s, x)
  {
    if s != [] {
      UnlockedIdsExact(s[1..]);
      forall x ensures x in UnlockedIds(s) <==> UnlockedWithId(s, x) {
        if UnlockedWithId(s[1..], x) {
          var i :| 0 <= i < |s[1..]| && s[1..][i].unlocked && s[1..][i].id == x;
          assert s[i + 1] == s[1..][i];
        }
        if UnlockedWithId(s, x) {
          var i :| 0 <= i < |s| && s[i].unlocked && s[i].id == x;
          if i > 0 {
            assert s[1..][i - 1] == s[i];
            assert UnlockedWithId(s[1..], x);
          }
        }
      }
    }
  }

  /** The saved ids keep list order: the ids of a concatenation are the ids of the
      first part followed by those of the second. */
  lemma {:induction false} UnlockedIdsAppend(s: seq<Achievement>, t: seq<Achievement>)
    ensures UnlockedIds(s + t) == UnlockedIds(s) + UnlockedIds(t)
  {
    if s != [] {
      assert (s + t)[1..] == s[1..] + t;
      UnlockedIdsAppend(s[1..], t);
    } else {
      assert s + t == t;
    }
  }

  lemma {:induction false} TotalPointsAppend(s: seq<Achievement>, t: seq<Achievement>)
    ensures TotalPoints(s + t) == TotalPoints(s) + TotalPoints(t)
  {
    if s != [] {
      assert (s + t)[1..] == s[1..] + t;
      TotalPointsAppend(s[1..], t);
    } else {
      assert s + t == t;
    }
  }

  lemma {:induction false} CountUnlockedAppend(s: seq<Achievement>, t: seq<Achievement>)
    ensures CountUnlocked(s + t) == CountUnlocked(s) + CountUnlocked(t)
  {
    if s != [] {
      assert (s + t)[1..] == s[1..] + t;
      CountUnlockedAppend(s[1..], t);
    } else {
      assert s + t == t;
    }
  }

  /** Replacing one achievement changes the total by the difference of the two
      contributions, and the count of unlocked achievements likewise. */
  lemma UpdateAtTotals(s: seq<Achievement>, i: nat, b: Achievement)
    requires i < |s|
    ensures TotalPoints(s[i := b]) == TotalPoints(s) - Contribution(s[i]) + Contribution(b)
    ensures CountUnlocked(s[i := b]) ==
            CountUnlocked(s) - (if s[i].unlocked then 1 else 0) + (if b.unlocked then 1 else 0)
  {
    var u := s[i := b];
    assert s == s[..i] + [s[i]] + s[i + 1..];
    assert u == s[..i] + [b] + s[i + 1..];
    TotalPointsAppend(s[..i] + [s[i]], s[i + 1..]);
    TotalPointsAppend(s[..i], [s[i]]);
    TotalPointsAppend(s[..i] + [b], s[i + 1..]);
    TotalPointsAppend(s[..i], [b]);
    CountUnlockedAppend(s[..i] + [s[i]], s[i + 1..]);
    CountUnlockedAppend(s[..i], [s[i]]);
    CountUnlockedAppend(s[..i] + [b], s[i + 1..]);
    CountUnlockedAppend(s[..i], [b]);
  }

  /** Toggling one achievement moves the total by exactly its points and the unlocked
      count by exactly one, in the direction of the new flag. */
  lemma ToggleMovesTotals(s: seq<Achievement>, i: nat)
    requires i < |s|
    ensures var t := s[i := s[i].(unlocked := !s[i].unlocked)];
            && TotalPoints(t) == TotalPoints(s) + (if s[i].unlocked then -s[i].points else s[i].points)
            && CountUnlocked(t) == (if s[i].unlocked then CountUnlocked(s) - 1 else CountUnlocked(s) + 1)
  {
    UpdateAtTotals(s, i, s[i].(unlocked := !s[i].unlocked));
  }

  // ---------------------------------------------------------------------------
  // getFilteredAchievements: area and status filter, rarity order
  // ---------------------------------------------------------------------------

  /** With no area selected every achievement is in the area; otherwise those whose
      `areaId` equals the selected one. */
  predicate InArea(a: Achievement, area: Option<int>) {
    area.None? || a.areaId == area
  }

  /** `desbloqueadas` keeps the unlocked, `bloqueadas` the locked, anything else all. */
  predicate MatchesStatus(a: Achievement, filter: string) {
    if filter == "desbloqueadas" then a.unlocked
    else if filter == "bloqueadas" then !a.unlocked
    else true
  }

  predicate InView(a: Achievement, area: Option<int>, filter: string) {
    InArea(a, area) && MatchesStatus(a, filter)
  }

  /** Neither filter applies: `filtered` is still the manager's own array. */
  predicate ViewIsWholeList(area: Option<int>, filter: string) {
    area.None? && filter != "desbloqueadas" && filter != "bloqueadas"
  }

  /** The element tests that the view and unlockRandom filter the list by. */
  datatype Test =
    | OfRank(r: nat)
    | AtLeast(r: nat)
    | Locked
    | Shown(area: Option<int>, filter: string)
    | ShownLocked(area: Option<int>, filter: string)

  predicate Passes(a: Achievement, t: Test) {
    match t
    case OfRank(r) => Rank(a.rarity) == r
    case AtLeast(r) => Rank(a.rarity) >= r
    case Locked => !a.unlocked
    case Shown(area, filter) => InView(a, area, filter)
    case ShownLocked(area, filter) => IsCandidate(a, area, filter)
  }

  /** `s.filter(...)` with the test `t`: the elements that pass, each as often as in `s`,
      in the order of `s`. */
  function Keep(s: seq<Achievement>, t: Test): (r: seq<Achievement>)
    ensures forall x :: x in r ==> Passes(x, t)
    ensures |r| <= |s|
  {
    if s == [] then []
    else
      var rest := Keep(s[1..], t);
      if Passes(s[0], t) then [s[0]] + rest else rest
  }

  /** The filter keeps each passing element as often as `s` has it and drops the rest. */
  lemma {:induction false} KeepCount(s: seq<Achievement>, t: Test)
    ensures forall x :: multiset(Keep(s, t))[x] == if Passes(x, t) then multiset(s)[x] else 0
  {
    if s != [] {
      KeepCount(s[1..], t);
      assert s == [s[0]] + s[1..];
    }
  }

  /** The two `filter` calls of getFilteredAchievements: exactly the achievements in the
      view, each as often as in the list, in list order. */
  function FilterView(s: seq<Achievement>, area: Option<int>, filter: string): (r: seq<Achievement>)
    ensures forall x :: multiset(r)[x] == if InView(x, area, filter) then multiset(s)[x] else 0
    ensures forall x :: x in r ==> InView(x, area, filter)
    ensures ViewIsWholeList(area, filter) ==> r == s
  {
    var r := Keep(s, Shown(area, filter));
    KeepCount(s, Shown(area, filter));
    assert ViewIsWholeList(area, filter) ==> r == s by {
      if ViewIsWholeList(area, filter) {
        KeepAll(s, Shown(area, filter));
      }
    }
    r
  }

  /** Filtering by a test every element passes changes nothing. */
  lemma {:induction false} KeepAll(s: seq<Achievement>, t: Test)
    requires forall k :: 0 <= k < |s| ==> Passes(s[k], t)
    ensures Keep(s, t) == s
  {
    if s != [] {
      KeepAll(s[1..], t);
    }
  }

  /** Filtering by a test no element passes leaves nothing. */
  lemma {:induction false} KeepNone(s: seq<Achievement>, t: Test)
    requires forall k :: 0 <= k < |s| ==> !Passes(s[k], t)
    ensures Keep(s, t) == []
  {
    if s != [] {
      KeepNone(s[1..], t);
    }
  }

  lemma {:induction false} KeepAppend(s: seq<Achievement>, u: seq<Achievement>, t: Test)
    ensures Keep(s + u, t) == Keep(s, t) + Keep(u, t)
  {
    if s == [] {
      assert s + u == u;
    } else {
      assert (s + u)[1..] == s[1..] + u;
      KeepAppend(s[1..], u, t);
    }
  }

  lemma KeepOne(x: Achievement, t: Test)
    ensures Keep([x], t) == if Passes(x, t) then [x] else []
  {
    assert [x][1..] == [];
  }

  /** Two filters may be applied in either order. */
  lemma {:induction false} KeepCommutes(s: seq<Achievement>, t1: Test, t2: Test)
    ensures Keep(Keep(s, t1), t2) == Keep(Keep(s, t2), t1)
  {
    if s != [] {
      var x, tail := s[0], s[1..];
      assert s == [x] + tail;
      KeepAppend([x], tail, t1);
      KeepAppend([x], tail, t2);
      KeepOne(x, t1);
      KeepOne(x, t2);
      KeepAppend(Keep([x], t1), Keep(tail, t1), t2);
      KeepAppend(Keep([x], t2), Keep(tail, t2), t1);
      KeepOne(x, t1);
      if Passes(x, t1) { KeepOne(x, t2); }
      if Passes(x, t2) { KeepOne(x, t1); }
      KeepCommutes(tail, t1, t2);
    }
  }

  /** Filtering by two tests in turn is filtering by their conjunction. */
  lemma {:induction false} KeepBoth(s: seq<Achievement>, t1: Test, t2: Test, t3: Test)
    requires forall x :: Passes(x, t3) <==> Passes(x, t1) && Passes(x, t2)
    ensures Keep(Keep(s, t1), t2) == Keep(s, t3)
  {
    if s != [] {
      var x, tail := s[0], s[1..];
      assert s == [x] + tail;
      KeepAppend([x], tail, t1);
      KeepAppend([x], tail, t3);
      KeepOne(x, t1);
      KeepOne(x, t3);
      KeepAppend(Keep([x], t1), Keep(tail, t1), t2);
      if Passes(x, t1) { KeepOne(x, t2); }
      KeepBoth(tail, t1, t2, t3);
    }
  }

  predicate SortedByRarity(s: seq<Achievement>) {
    forall i, j :: 0 <= i < j < |s| ==> Rank(s[i].rarity) <= Rank(s[j].rarity)
  }

  /** Inserting `x` into a rarity-ordered list after every element of rank at most its
      own (which keeps equal ranks in their original order). */
  function Insert(p: seq<Achievement>, x: Achievement): (r: seq<Achievement>)
    ensures multiset(r) == multiset(p) + multiset{x}
    decreases |p|
  {
    if p == [] || Rank(p[|p| - 1].rarity) <= Rank(x.rarity) then p + [x]
    else
      assert p == p[..|p| - 1] + [p[|p| - 1]];
      Insert(p[..|p| - 1], x) + [p[|p| - 1]]
  }

  /** Every element of a multiset-equal list ranks at most `bound` if every element of the
      original and `x` do. */
  lemma RankBound(q: seq<Achievement>, p: seq<Achievement>, x: Achievement, bound: nat)
    requires multiset(q) == multiset(p) + multiset{x}
    requires forall k :: 0 <= k < |p| ==> Rank(p[k].rarity) <= bound
    requires Rank(x.rarity) <= bound
    ensures forall k :: 0 <= k < |q| ==> Rank(q[k].rarity) <= bound
  {
    forall k | 0 <= k < |q| ensures Rank(q[k].rarity) <= bound {
      assert q[k] in multiset(q);
      if q[k] != x {
        assert q[k] in multiset(p);
        assert q[k] in p;
      }
    }
  }

  /** Inserting into a rarity-ordered list keeps it ordered. */
  lemma {:induction false} InsertSorted(p: seq<Achievement>, x: Achievement)
    requires SortedByRarity(p)
    ensures SortedByRarity(Insert(p, x))
    decreases |p|
  {
    if p != [] && Rank(p[|p| - 1].rarity) > Rank(x.rarity) {
      var last := p[|p| - 1];
      var init := p[..|p| - 1];
      InsertSorted(init, x);
      RankBound(Insert(init, x), init, x, Rank(last.rarity));
    }
  }

  /** The stable sort by rarity rank that `filtered.sort(...)` performs (script.js:365-367). */
  function SortByRarity(s: seq<Achievement>): (r: seq<Achievement>)
    ensures multiset(r) == multiset(s)
    ensures SortedByRarity(r)
    decreases |s|
  {
    if s == [] then []
    else
      var init := SortByRarity(s[..|s| - 1]);
      assert s == s[..|s| - 1] + [s[|s| - 1]];
      InsertSorted(init, s[|s| - 1]);
      Insert(init, s[|s| - 1])
  }

  /** Where `Insert` puts `x`: right after the last element of rank at most its own. */
  lemma {:induction false} InsertAt(p: seq<Achievement>, x: Achievement, j: nat)
    requires j <= |p|
    requires forall k :: j <= k < |p| ==> Rank(p[k].rarity) > Rank(x.rarity)
    requires j == 0 || Rank(p[j - 1].rarity) <= Rank(x.rarity)
    ensures Insert(p, x) == p[..j] + [x] + p[j..]
    decreases |p|
  {
    if j == |p| {
      assert p[..j] == p && p[j..] == [];
    } else {
      InsertAt(p[..|p| - 1], x, j);
      SpliceLast(p, x, j);
    }
  }

  /** Splicing `x` in at `j` commutes with appending the last element. */
  lemma SpliceLast(p: seq<Achievement>, x: Achievement, j: nat)
    requires j < |p|
    ensures var init := p[..|p| - 1];
            (init[..j] + [x] + init[j..]) + [p[|p| - 1]] == p[..j] + [x] + p[j..]
  {
    var init := p[..|p| - 1];
    assert init[..j] == p[..j];
    assert init[j..] + [p[|p| - 1]] == p[j..];
  }

  /** Sorting a list that is already in rarity order leaves it as it is. */
  lemma {:induction false} SortOfSorted(s: seq<Achievement>)
    requires SortedByRarity(s)
    ensures SortByRarity(s) == s
    decreases |s|
  {
    if s != [] {
      var init := s[..|s| - 1];
      assert SortedByRarity(init);
      SortOfSorted(init);
      assert Insert(init, s[|s| - 1]) == init + [s[|s| - 1]];
      assert init + [s[|s| - 1]] == s;
    }
  }

  /** The rank groups of `s` from rank `r` up, each in the order of `s`. */
  function GroupsFrom(s: seq<Achievement>, r: nat): seq<Achievement>
    decreases 5 - r
  {
    if r >= 5 then [] else Keep(s, OfRank(r)) + GroupsFrom(s, r + 1)
  }

  /** Inserting `x` appends it to its own rank group and leaves the others alone. */
  lemma {:induction false} InsertKeepsGroups(p: seq<Achievement>, x: Achievement, r: nat)
    ensures Keep(Insert(p, x), OfRank(r)) == Keep(p, OfRank(r)) + Keep([x], OfRank(r))
    decreases |p|
  {
    var g := OfRank(r);
    if p == [] || Rank(p[|p| - 1].rarity) <= Rank(x.rarity) {
      KeepAppend(p, [x], g);
    } else {
      var init, last := p[..|p| - 1], p[|p| - 1];
      var ins := Insert(init, x);
      assert p == init + [last];
      assert Insert(p, x) == ins + [last];
      InsertKeepsGroups(init, x, r);
      KeepAppend(ins, [last], g);
      KeepAppend(init, [last], g);
      KeepOne(x, g);
      KeepOne(last, g);
      SwapPastEmpty(Keep(init, g), Keep([x], g), Keep([last], g));
    }
  }

  /** Of two parts, one empty, either may come first. */
  lemma SwapPastEmpty(a: seq<Achievement>, b: seq<Achievement>, c: seq<Achievement>)
    requires b == [] || c == []
    ensures a + b + c == a + c + b
  {
  }

  /** The sort is stable: each rank group keeps the order it had in the input. */
  lemma {:induction false} SortKeepsGroups(s: seq<Achievement>, r: nat)
    ensures Keep(SortByRarity(s), OfRank(r)) == Keep(s, OfRank(r))
    decreases |s|
  {
    if s != [] {
      var init, last := s[..|s| - 1], s[|s| - 1];
      assert s == init + [last];
      SortKeepsGroups(init, r);
      InsertKeepsGroups(SortByRarity(init), last, r);
      KeepAppend(init, [last], OfRank(r));
    }
  }

  /** In a rarity-ordered list, the elements of rank at least `r` are those of rank `r`
      followed by those of higher rank. */
  lemma {:induction false} SortedSplit(u: seq<Achievement>, r: nat)
    requires SortedByRarity(u)
    ensures Keep(u, AtLeast(r)) == Keep(u, OfRank(r)) + Keep(u, AtLeast(r + 1))
    decreases |u|
  {
    if u != [] {
      var init, x := u[..|u| - 1], u[|u| - 1];
      assert u == init + [x];
      SortedSplit(init, r);
      KeepAppend(init, [x], AtLeast(r));
      KeepAppend(init, [x], OfRank(r));
      KeepAppend(init, [x], AtLeast(r + 1));
      KeepOne(x, AtLeast(r));
      KeepOne(x, OfRank(r));
      KeepOne(x, AtLeast(r + 1));
      if Rank(x.rarity) == r {
        KeepNone(init, AtLeast(r + 1));
      }
    }
  }

  /** A rarity-ordered list is the concatenation of its rank groups. */
  lemma {:induction false} SortedGroups(u: seq<Achievement>, r: nat)
    requires SortedByRarity(u)
    ensures Keep(u, AtLeast(r)) == GroupsFrom(u, r)
    decreases 5 - r
  {
    if r >= 5 {
      KeepNone(u, AtLeast(r));
    } else {
      SortedSplit(u, r);
      SortedGroups(u, r + 1);
    }
  }

  /** Lists with the same rank groups have the same concatenation of them. */
  lemma {:induction false} GroupsAgree(s: seq<Achievement>, u: seq<Achievement>, r: nat)
    requires forall q :: r <= q < 5 ==> Keep(s, OfRank(q)) == Keep(u, OfRank(q))
    ensures GroupsFrom(s, r) == GroupsFrom(u, r)
    decreases 5 - r
  {
    if r < 5 {
      GroupsAgree(s, u, r + 1);
    }
  }

  /** The stable sort by rarity lists the rank groups of its input in rank order, each in
      input order. */
  lemma SortIsGroups(s: seq<Achievement>)
    ensures SortByRarity(s) == GroupsFrom(s, 0)
  {
    var u := SortByRarity(s);
    KeepAll(u, AtLeast(0));
    SortedGroups(u, 0);
    forall q | 0 <= q < 5 ensures Keep(u, OfRank(q)) == Keep(s, OfRank(q)) {
      SortKeepsGroups(s, q);
    }
    GroupsAgree(u, s, 0);
  }

  /** Filtering the rank groups is taking the rank groups of the filtered list. */
  lemma {:induction false} KeepGroups(s: seq<Achievement>, r: nat, t: Test)
    ensures Keep(GroupsFrom(s, r), t) == GroupsFrom(Keep(s, t), r)
    decreases 5 - r
  {
    if r < 5 {
      KeepAppend(Keep(s, OfRank(r)), GroupsFrom(s, r + 1), t);
      KeepCommutes(s, OfRank(r), t);
      KeepGroups(s, r + 1, t);
    }
  }

  // ---------------------------------------------------------------------------
  // resetAll, mergeRemoteProgress, unlockRandom
  // ---------------------------------------------------------------------------

  /** resetAll on one achievement: locked when in the current area (every achievement is,
      when no area is selected). */
  function ResetOne(a: Achievement, area: Option<int>): Achievement {
    if InArea(a, area) then a.(unlocked := false) else a
  }

  function Reset(s: seq<Achievement>, area: Option<int>): (r: seq<Achievement>)
    ensures |r| == |s|
    ensures forall i :: 0 <= i < |s| ==> r[i] == ResetOne(s[i], area)
  {
    seq(|s|, i requires 0 <= i < |s| => ResetOne(s[i], area))
  }

  /** A reset with no area selected leaves nothing unlocked: no saved ids, no points. */
  lemma {:induction false} ResetAllClearsProgress(s: seq<Achievement>)
    ensures UnlockedIds(Reset(s, None)) == []
    ensures TotalPoints(Reset(s, None)) == 0
    ensures CountUnlocked(Reset(s, None)) == 0
  {
    if s != [] {
      ResetAllClearsProgress(s[1..]);
      assert Reset(s, None)[1..] == Reset(s[1..], None);
    }
  }

  /** Resetting twice is resetting once. */
  lemma ResetIdempotent(s: seq<Achievement>, area: Option<int>)
    ensures Reset(Reset(s, area), area) == Reset(s, area)
  {
  }

  /** `mergedSet`: the remote ids together with the locally unlocked ids. */
  function MergedSet(s: seq<Achievement>, remote: seq<int>): set<int> {
    (set x | x in remote) + (set x | x in UnlockedIds(s))
  }

  function Merge(s: seq<Achievement>, remote: seq<int>): (r: seq<Achievement>)
    ensures |r| == |s|
    ensures forall i :: 0 <= i < |s| ==> r[i] == s[i].(unlocked := s[i].id in MergedSet(s, remote))
  {
    var m := MergedSet(s, remote);
    seq(|s|, i requires 0 <= i < |s| => s[i].(unlocked := s[i].id in m))
  }

  /** After the merge an achievement is unlocked exactly when its id is among the remote
      ids or some achievement with that id was unlocked before; so nothing unlocked
      becomes locked. */
  lemma MergeUnlockedIff(s: seq<Achievement>, remote: seq<int>, i: nat)
    requires i < |s|
    ensures Merge(s, remote)[i].unlocked <==> s[i].id in remote || UnlockedWithId(s, s[i].id)
    ensures s[i].unlocked ==> Merge(s, remote)[i].unlocked
  {
    UnlockedIdsExact(s);
  }

  /** With distinct ids (as autoGenerateIds gives), the merge is the plain union of the
      remote ids and the local flags, position by position. */
  lemma MergeUnionDistinct(s: seq<Achievement>, remote: seq<int>, i: nat)
    requires DistinctIds(s)
    requires i < |s|
    ensures Merge(s, remote)[i].unlocked <==> s[i].id in remote || s[i].unlocked
  {
    MergeUnlockedIff(s, remote, i);
  }

  /** Merging the same remote ids a second time changes nothing. */
  lemma MergeIdempotent(s: seq<Achievement>, remote: seq<int>)
    ensures Merge(Merge(s, remote), remote) == Merge(s, remote)
  {
    var m := Merge(s, remote);
    UnlockedIdsExact(m);
    UnlockedIdsExact(s);
    forall i | 0 <= i < |s| ensures Merge(m, remote)[i] == m[i] {
      if m[i].unlocked {
        assert UnlockedWithId(m, m[i].id);
      } else {
        assert s[i].id !in MergedSet(s, remote);
        forall j | 0 <= j < |m| && m[j].id == m[i].id ensures !m[j].unlocked {
          assert m[j].unlocked == (s[j].id in MergedSet(s, remote));
        }
        assert !UnlockedWithId(m, m[i].id);
      }
    }
  }

  function IdSet(s: seq<Achievement>): set<int> {
    set i | 0 <= i < |s| :: s[i].id
  }

  /** The saved ids after the merge are the locally unlocked ids together with those remote
      ids that the catalog has. */
  lemma MergeSavedIds(s: seq<Achievement>, remote: seq<int>)
    ensures (set x | x in UnlockedIds(Merge(s, remote))) ==
            (set x | x in UnlockedIds(s)) + ((set x | x in remote) * IdSet(s))
  {
    var m := Merge(s, remote);
    UnlockedIdsExact(m);
    UnlockedIdsExact(s);
    forall x ensures x in UnlockedIds(m) <==> x in UnlockedIds(s) || (x in remote && x in IdSet(s)) {
      if x in UnlockedIds(m) {
        var i :| 0 <= i < |m| && m[i].unlocked && m[i].id == x;
        assert x in IdSet(s);
      }
      if x in UnlockedIds(s) {
        var i :| 0 <= i < |s| && s[i].unlocked && s[i].id == x;
        assert m[i].unlocked;
      }
      if x in remote && x in IdSet(s) {
        var i :| 0 <= i < |s| && s[i].id == x;
        assert m[i].unlocked;
      }
    }
  }

  predicate IsCandidate(a: Achievement, area: Option<int>, filter: string) {
    InView(a, area, filter) && !a.unlocked
  }

  /** The positions, in increasing order, of the locked achievements among the first `n`
      that the view shows: the candidates of unlockRandom. */
  function LockedInView(s: seq<Achievement>, area: Option<int>, filter: string, n: nat): (c: seq<nat>)
    requires n <= |s|
    ensures forall k :: 0 <= k < |c| ==> c[k] < n && IsCandidate(s[c[k]], area, filter)
    ensures forall i :: 0 <= i < n && IsCandidate(s[i], area, filter) ==> i in c
    ensures forall k, l :: 0 <= k < l < |c| ==> c[k] < c[l]
    decreases n
  {
    if n == 0 then []
    else
      var c := LockedInView(s, area, filter, n - 1);
      if IsCandidate(s[n - 1], area, filter) then c + [n - 1] else c
  }

  /** The positions in `ps` whose achievement has rarity rank `r`, in the order of `ps`. */
  function RankGroup(s: seq<Achievement>, ps: seq<nat>, r: nat): (g: seq<nat>)
    ensures forall p :: p in g <==> p in ps && p < |s| && Rank(s[p].rarity) == r
    ensures forall k :: 0 <= k < |g| ==> g[k] < |s| && Rank(s[g[k]].rarity) == r
  {
    if ps == [] then []
    else
      var rest := RankGroup(s, ps[1..], r);
      assert forall p :: p in ps <==> p == ps[0] || p in ps[1..];
      if ps[0] < |s| && Rank(s[ps[0]].rarity) == r then [ps[0]] + rest else rest
  }

  predicate Ascending(xs: seq<nat>) {
    forall i, j :: 0 <= i < j < |xs| ==> xs[i] < xs[j]
  }

  /** A group keeps the order of `ps`: increasing positions stay increasing. */
  lemma {:induction false} RankGroupKeepsOrder(s: seq<Achievement>, ps: seq<nat>, r: nat)
    requires Ascending(ps)
    ensures Ascending(RankGroup(s, ps, r))
  {
    if ps != [] {
      var tail := ps[1..];
      AscendingTail(ps);
      RankGroupKeepsOrder(s, tail, r);
      var rest := RankGroup(s, tail, r);
      if ps[0] < |s| && Rank(s[ps[0]].rarity) == r {
        assert RankGroup(s, ps, r) == [ps[0]] + rest;
        AscendingCons(ps[0], rest);
      } else {
        assert RankGroup(s, ps, r) == rest;
      }
    }
  }

  /** The tail of an ascending sequence is ascending and lies above its head. */
  lemma AscendingTail(ps: seq<nat>)
    requires Ascending(ps) && ps != []
    ensures Ascending(ps[1..])
    ensures forall p :: p in ps[1..] ==> ps[0] < p
  {
    forall p | p in ps[1..] ensures ps[0] < p {
      var j :| 0 <= j < |ps[1..]| && ps[1..][j] == p;
      assert ps[j + 1] == p;
    }
  }

  lemma AscendingCons(x: nat, rest: seq<nat>)
    requires Ascending(rest) && forall p :: p in rest ==> x < p
    ensures Ascending([x] + rest)
  {
    var g := [x] + rest;
    forall k, l | 0 <= k < l < |g| ensures g[k] < g[l] {
      assert g[l] == rest[l - 1] && g[l] in rest;
      if k > 0 {
        assert g[k] == rest[k - 1] && rest[k - 1] < rest[l - 1];
      }
    }
  }

  /** Every entry of `ps` is a position of `s`. */
  predicate Positions(s: seq<Achievement>, ps: seq<nat>) {
    forall k :: 0 <= k < |ps| ==> ps[k] < |s|
  }

  /** The positions `ps` of rank at least `r` in the order a stable sort by rarity
      presents them: rank by rank, each rank in the order of `ps`. */
  function ViewOrderFrom(s: seq<Achievement>, ps: seq<nat>, r: nat): (v: seq<nat>)
    ensures forall p :: p in v <==> p in ps && p < |s| && Rank(s[p].rarity) >= r
    ensures forall k :: 0 <= k < |v| ==> v[k] < |s| && Rank(s[v[k]].rarity) >= r
    decreases 5 - r
  {
    if r >= 5 then [] else RankGroup(s, ps, r) + ViewOrderFrom(s, ps, r + 1)
  }

  /** The order in which the view that unlockRandom draws from presents the positions
      `ps`: the filtered list after its stable sort by rarity. */
  function ViewOrder(s: seq<Achievement>, ps: seq<nat>): (v: seq<nat>)
    ensures Positions(s, ps) ==> forall p :: p in v <==> p in ps
    ensures Positions(s, v)
  {
    ViewOrderFrom(s, ps, 0)
  }

  /** Ranks never decrease along `v`. */
  predicate RanksAscend(s: seq<Achievement>, v: seq<nat>) {
    forall k, l :: 0 <= k < l < |v| && v[k] < |s| && v[l] < |s| ==>
      Rank(s[v[k]].rarity) <= Rank(s[v[l]].rarity)
  }

  lemma RanksAscendConcat(s: seq<Achievement>, g: seq<nat>, rest: seq<nat>, r: nat)
    requires forall k :: 0 <= k < |g| ==> g[k] < |s| && Rank(s[g[k]].rarity) == r
    requires RanksAscend(s, rest)
    requires forall k :: 0 <= k < |rest| ==> rest[k] < |s| && Rank(s[rest[k]].rarity) > r
    ensures RanksAscend(s, g + rest)
  {
    var v := g + rest;
    forall k, l | 0 <= k < l < |v| && v[k] < |s| && v[l] < |s|
      ensures Rank(s[v[k]].rarity) <= Rank(s[v[l]].rarity)
    {
      if l < |g| {
        assert v[k] == g[k] && v[l] == g[l];
      } else if k < |g| {
        assert v[k] == g[k] && v[l] == rest[l - |g|];
      } else {
        assert v[k] == rest[k - |g|] && v[l] == rest[l - |g|];
      }
    }
  }

  /** The order goes by rank: rarer achievements come later. */
  lemma {:induction false} ViewOrderSorted(s: seq<Achievement>, ps: seq<nat>, r: nat)
    ensures RanksAscend(s, ViewOrderFrom(s, ps, r))
    decreases 5 - r
  {
    if r < 5 {
      var g, rest := RankGroup(s, ps, r), ViewOrderFrom(s, ps, r + 1);
      ViewOrderSorted(s, ps, r + 1);
      RanksAscendConcat(s, g, rest, r);
      assert ViewOrderFrom(s, ps, r) == g + rest;
    }
  }

  /** No position comes twice, and two positions of one rank come in increasing order. */
  predicate StableOrder(s: seq<Achievement>, v: seq<nat>) {
    forall k, l :: 0 <= k < l < |v| ==>
      v[k] != v[l] &&
      (v[k] < |s| && v[l] < |s| && Rank(s[v[k]].rarity) == Rank(s[v[l]].rarity) ==> v[k] < v[l])
  }

  /** A group of rank `r` in increasing order, followed by a stable order of higher ranks,
      is a stable order. */
  lemma StableConcat(s: seq<Achievement>, g: seq<nat>, rest: seq<nat>, r: nat)
    requires Ascending(g) && forall k :: 0 <= k < |g| ==> g[k] < |s| && Rank(s[g[k]].rarity) == r
    requires StableOrder(s, rest)
    requires forall k :: 0 <= k < |rest| ==> rest[k] < |s| && Rank(s[rest[k]].rarity) > r
    ensures StableOrder(s, g + rest)
  {
    var v := g + rest;
    forall k, l | 0 <= k < l < |v|
      ensures v[k] != v[l] &&
              (v[k] < |s| && v[l] < |s| && Rank(s[v[k]].rarity) == Rank(s[v[l]].rarity) ==> v[k] < v[l])
    {
      if l < |g| {
        assert v[k] == g[k] && v[l] == g[l];
      } else if k < |g| {
        assert v[k] == g[k] && v[l] == rest[l - |g|];
      } else {
        assert v[k] == rest[k - |g|] && v[l] == rest[l - |g|];
      }
    }
  }

  /** Within a rank the order keeps the order of `ps`: with `ps` increasing, two positions
      of one rank come out increasing, and no position comes out twice. */
  lemma {:induction false} ViewOrderStable(s: seq<Achievement>, ps: seq<nat>, r: nat)
    requires Ascending(ps)
    ensures StableOrder(s, ViewOrderFrom(s, ps, r))
    decreases 5 - r
  {
    if r < 5 {
      var g, rest := RankGroup(s, ps, r), ViewOrderFrom(s, ps, r + 1);
      RankGroupKeepsOrder(s, ps, r);
      ViewOrderStable(s, ps, r + 1);
      StableConcat(s, g, rest, r);
      assert ViewOrderFrom(s, ps, r) == g + rest;
    }
  }

  /** The achievements at the positions `ps`, in that order. */
  function At(s: seq<Achievement>, ps: seq<nat>): (r: seq<Achievement>)
    requires Positions(s, ps)
    ensures |r| == |ps| && forall k :: 0 <= k < |ps| ==> r[k] == s[ps[k]]
  {
    seq(|ps|, k requires 0 <= k < |ps| => s[ps[k]])
  }

  /** The candidates' positions name exactly the locked achievements of the view, in list
      order. */
  lemma {:induction false} AtLocked(s: seq<Achievement>, area: Option<int>, filter: string, n: nat)
    requires n <= |s|
    ensures At(s, LockedInView(s, area, filter, n)) == Keep(s[..n], ShownLocked(area, filter))
    decreases n
  {
    var t := ShownLocked(area, filter);
    if n == 0 {
      assert s[..n] == [];
    } else {
      var c := LockedInView(s, area, filter, n - 1);
      var init, x := s[..n - 1], s[n - 1];
      AtLocked(s, area, filter, n - 1);
      assert s[..n] == init + [x];
      KeepAppend(init, [x], t);
      KeepOne(x, t);
      if IsCandidate(x, area, filter) {
        assert LockedInView(s, area, filter, n) == c + [n - 1];
        AtSnoc(s, c, n - 1);
      } else {
        assert LockedInView(s, area, filter, n) == c;
        assert Keep(init, t) + Keep([x], t) == Keep(init, t);
      }
    }
  }

  lemma AtSnoc(s: seq<Achievement>, ps: seq<nat>, p: nat)
    requires Positions(s, ps) && p < |s|
    ensures Positions(s, ps + [p]) && At(s, ps + [p]) == At(s, ps) + [s[p]]
  {
    var q := ps + [p];
    assert forall k :: 0 <= k < |ps| ==> q[k] == ps[k];
  }

  lemma AtAppend(s: seq<Achievement>, ps: seq<nat>, qs: seq<nat>)
    requires Positions(s, ps) && Positions(s, qs)
    ensures Positions(s, ps + qs) && At(s, ps + qs) == At(s, ps) + At(s, qs)
  {
    var v := ps + qs;
    assert forall k :: 0 <= k < |ps| ==> v[k] == ps[k];
    assert forall k :: |ps| <= k < |v| ==> v[k] == qs[k - |ps|];
  }

  /** A rank group of positions names the rank group of the achievements they name. */
  lemma {:induction false} AtRankGroup(s: seq<Achievement>, ps: seq<nat>, r: nat)
    requires Positions(s, ps)
    ensures At(s, RankGroup(s, ps, r)) == Keep(At(s, ps), OfRank(r))
    decreases |ps|
  {
    if ps != [] {
      var tail := ps[1..];
      AtRankGroup(s, tail, r);
      var a := At(s, ps);
      assert a[1..] == At(s, tail);
      assert a == [a[0]] + a[1..];
      var rest := RankGroup(s, tail, r);
      if Rank(s[ps[0]].rarity) == r {
        AtAppend(s, [ps[0]], rest);
      }
    }
  }

  lemma {:induction false} AtViewOrder(s: seq<Achievement>, ps: seq<nat>, r: nat)
    requires Positions(s, ps)
    ensures At(s, ViewOrderFrom(s, ps, r)) == GroupsFrom(At(s, ps), r)
    decreases 5 - r
  {
    if r < 5 {
      var g, rest := RankGroup(s, ps, r), ViewOrderFrom(s, ps, r + 1);
      AtRankGroup(s, ps, r);
      AtViewOrder(s, ps, r + 1);
      AtAppend(s, g, rest);
    }
  }

  /** The positions in the view's order name exactly the locked achievements of the sorted
      view, in the same order: `filtered.filter(a => !a.unlocked)` of unlockRandom. */
  lemma ViewOrderIsSortedView(s: seq<Achievement>, area: Option<int>, filter: string)
    ensures var ps := LockedInView(s, area, filter, |s|);
            Positions(s, ViewOrder(s, ps)) &&
            At(s, ViewOrder(s, ps)) == Keep(SortByRarity(FilterView(s, area, filter)), Locked)
  {
    var ps := LockedInView(s, area, filter, |s|);
    var view := FilterView(s, area, filter);
    assert s[..|s|] == s;
    AtLocked(s, area, filter, |s|);
    KeepBoth(s, Shown(area, filter), Locked, ShownLocked(area, filter));
    assert At(s, ps) == Keep(view, Locked);
    AtViewOrder(s, ps, 0);
    KeepGroups(view, 0, Locked);
    SortIsGroups(view);
  }

  /** The view's order is empty exactly when there are no positions to order. */
  lemma ViewOrderEmpty(s: seq<Achievement>, ps: seq<nat>)
    requires Positions(s, ps)
    ensures ViewOrder(s, ps) == [] <==> ps == []
  {
    if ps != [] {
      assert ps[0] in ViewOrder(s, ps);
    }
  }

  /** The view's order of the candidates is empty exactly when there are none, and holds
      only candidates. */
  lemma ViewOrderCandidates(s: seq<Achievement>, area: Option<int>, filter: string)
    ensures var ps := LockedInView(s, area, filter, |s|);
            var c := ViewOrder(s, ps);
            (c == [] <==> ps == []) &&
            forall k :: 0 <= k < |c| ==> c[k] < |s| && IsCandidate(s[c[k]], area, filter)
  {
    var ps := LockedInView(s, area, filter, |s|);
    var c := ViewOrder(s, ps);
    ViewOrderEmpty(s, ps);
    forall k | 0 <= k < |c| ensures c[k] < |s| && IsCandidate(s[c[k]], area, filter) {
      assert c[k] in ps;
    }
  }

  /** unlockRandom's view contains a locked achievement exactly when some position holds a
      locked achievement the view shows. */
  lemma NoCandidatesIffAllUnlocked(s: seq<Achievement>, area: Option<int>, filter: string)
    ensures LockedInView(s, area, filter, |s|) == [] <==>
            forall i :: 0 <= i < |s| && InView(s[i], area, filter) ==> s[i].unlocked
  {
    var c := LockedInView(s, area, filter, |s|);
    if c != [] {
      assert IsCandidate(s[c[0]], area, filter);
    }
  }

  /** Unlocking one locked candidate adds one to the unlocked count and its points to the
      total, and keeps every other position. */
  lemma UnlockCandidate(s: seq<Achievement>, p: nat)
    requires p < |s| && !s[p].unlocked
    ensures CountUnlocked(s[p := s[p].(unlocked := true)]) == CountUnlocked(s) + 1
    ensures TotalPoints(s[p := s[p].(unlocked := true)]) == TotalPoints(s) + s[p].points
  {
    UpdateAtTotals(s, p, s[p].(unlocked := true));
  }
}
