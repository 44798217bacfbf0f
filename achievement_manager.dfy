/** The achievement progress manager of script.js: the in-memory list of achievements (an
    array whose elements the methods update in place), the selected area and status filter,
    the signed-in user, the browser's local storage and the armed save timer. */
module ProgressManager {
  import opened JsValues
  import opened Achievements

  /** The document saveUserProgressToServer writes for a user (script.js:260-262). */
  datatype ProgressWrite = ProgressWrite(uid: string, unlockedIds: seq<int>, totalPoints: int, lastUpdated: int)

  /** The progress saved for `uid` from the list `s` at time `now`: exactly the ids of the
      unlocked achievements, one entry per unlocked achievement, and their points. */
  function ProgressOf(uid: string, s: seq<Achievement>, now: int): (w: ProgressWrite)
    ensures w.uid == uid && w.lastUpdated == now
    ensures forall x :: x in w.unlockedIds <==> UnlockedWithId(s, x)
    ensures |w.unlockedIds| == CountUnlocked(s)
    ensures CountUnlocked(s) == 0 ==> w.totalPoints == 0
  {
    UnlockedIdsExact(s);
    ResetZeroPoints(s);
    ProgressWrite(uid, UnlockedIds(s), TotalPoints(s), now)
  }

  lemma {:induction false} ResetZeroPoints(s: seq<Achievement>)
    ensures CountUnlocked(s) == 0 ==> TotalPoints(s) == 0
  {
    if s != [] {
      ResetZeroPoints(s[1..]);
    }
  }

  /** loadData keeps the saved list only when it is non-empty and its first element has an
      `areaId` (script.js:52). */
  predicate SavedListUsable(saved: Option<seq<Achievement>>) {
    saved.Some? && |saved.value| > 0 && saved.value[0].areaId.Some?
  }

  /** What getFilteredAchievements does to the manager's own list: it sorts it by rarity
      when neither filter applies (the view is that very list) and leaves it otherwise. */
  function AfterViewSort(s: seq<Achievement>, area: Option<int>, filter: string): (r: seq<Achievement>)
    ensures multiset(r) == multiset(s)
    ensures ViewIsWholeList(area, filter) ==> SortedByRarity(r)
    ensures !ViewIsWholeList(area, filter) ==> r == s
  {
    if ViewIsWholeList(area, filter) then SortByRarity(s) else s
  }

  /** `Math.floor(Math.random() * n)` for a random number `rand` in [0, 1). */
  function PickIndex(rand: real, n: nat): (k: nat)
    requires 0.0 <= rand < 1.0 && n > 0
    ensures k < n
  {
    assert rand * n as real < n as real;
    (rand * n as real).Floor
  }

  /** The position unlockRandom unlocks in the list `s` after the view's sort: the candidate
      at `Math.floor(rand * n)` among the `n` locked achievements of the view, taken in the
      view's order; `None` when the view shows none. */
  function Pick(s: seq<Achievement>, area: Option<int>, filter: string, rand: real): (p: Option<nat>)
    requires 0.0 <= rand < 1.0
    ensures p.None? <==> LockedInView(s, area, filter, |s|) == []
    ensures p.Some? ==> p.value < |s| && IsCandidate(s[p.value], area, filter)
    ensures var c := ViewOrder(s, LockedInView(s, area, filter, |s|));
            p.Some? ==> c != [] && p.value == c[PickIndex(rand, |c|)]
  {
    var c := ViewOrder(s, LockedInView(s, area, filter, |s|));
    ViewOrderCandidates(s, area, filter);
    if c == [] then None else Some(c[PickIndex(rand, |c|)])
  }

  /** The achievement at the picked position is the one unlockRandom draws: element
      `Math.floor(rand * n)` of the `n` locked elements of the sorted view, and there is
      none to draw exactly when there is no pick. */
  lemma PickDrawsFromSortedView(s: seq<Achievement>, area: Option<int>, filter: string, rand: real)
    requires 0.0 <= rand < 1.0
    ensures var locked := Keep(SortByRarity(FilterView(s, area, filter)), Locked);
            var p := Pick(s, area, filter, rand);
            (p.None? <==> locked == []) &&
            (p.Some? ==> p.value < |s| && s[p.value] == locked[PickIndex(rand, |locked|)])
  {
    var c := ViewOrder(s, LockedInView(s, area, filter, |s|));
    var locked := Keep(SortByRarity(FilterView(s, area, filter)), Locked);
    var p := Pick(s, area, filter, rand);
    ViewOrderCandidates(s, area, filter);
    ViewOrderIsSortedView(s, area, filter);
    assert locked == At(s, c) && |locked| == |c|;
    if c == [] {
      assert p.None? && locked == [];
    } else {
      var k := PickIndex(rand, |c|);
      assert p == Some(c[k]);
      assert locked[k] == s[c[k]];
    }
  }

  /** A new array holding `s` (the arrays `filter` returns). */
  method NewArray(s: seq<Achievement>) returns (a: array<Achievement>)
    ensures fresh(a) && a[..] == s
  {
    a := new Achievement[|s|](i requires 0 <= i < |s| => s[i]);
  }

  /** A list that agrees with `sorted` before `j`, holds `x` at `j` and agrees with
      `sorted` shifted by one after `j` is `sorted` with `x` spliced in at `j`. */
  lemma SplicedAt(b: seq<Achievement>, sorted: seq<Achievement>, x: Achievement, j: nat)
    requires j <= |sorted| && |b| == |sorted| + 1
    requires forall k :: 0 <= k < j ==> b[k] == sorted[k]
    requires b[j] == x
    requires forall k :: j < k < |b| ==> b[k] == sorted[k - 1]
    ensures b == sorted[..j] + [x] + sorted[j..]
  {
    var t := sorted[..j] + [x] + sorted[j..];
    forall k | 0 <= k < |b| ensures b[k] == t[k] {
      if k < j {
        assert t[k] == sorted[k];
      } else if k > j {
        assert t[k] == sorted[k - 1];
      }
    }
  }

  /** The loop of one sorting step: swaps `a[i]` leftwards while its left neighbour has a
      higher rank, and returns where it stopped. */
  method ShiftLeft(a: array<Achievement>, i: nat) returns (j: nat)
    requires i < a.Length
    modifies a
    ensures j <= i && a[j] == old(a[i])
    ensures forall k :: 0 <= k < j ==> a[k] == old(a[k])
    ensures forall k :: j < k <= i ==> a[k] == old(a[k - 1])
    ensures forall k :: j <= k < i ==> Rank(old(a[k]).rarity) > Rank(old(a[i]).rarity)
    ensures j == 0 || Rank(old(a[j - 1]).rarity) <= Rank(old(a[i]).rarity)
    ensures forall k :: i < k < a.Length ==> a[k] == old(a[k])
  {
    var x := a[i];
    j := i;
    while j > 0 && Rank(a[j - 1].rarity) > Rank(x.rarity)
      invariant 0 <= j <= i
      invariant a[j] == x
      invariant forall k :: 0 <= k < j ==> a[k] == old(a[k])
      invariant forall k :: j < k <= i ==> a[k] == old(a[k - 1])
      invariant forall k :: j <= k < i ==> Rank(old(a[k]).rarity) > Rank(x.rarity)
      invariant forall k :: i < k < a.Length ==> a[k] == old(a[k])
    {
      a[j - 1], a[j] := a[j], a[j - 1];
      j := j - 1;
    }
  }

  /** One step of the in-place sort: moves `a[i]` left past every element of higher rank,
      so that the first i + 1 elements become `Insert` of the first i and `a[i]`. */
  method InsertIntoPrefix(a: array<Achievement>, i: nat)
    requires i < a.Length
    modifies a
    ensures a[..i + 1] == Insert(old(a[..i]), old(a[i]))
    ensures forall k :: i < k < a.Length ==> a[k] == old(a[k])
  {
    ghost var sorted := a[..i];
    ghost var x := a[i];
    var j := ShiftLeft(a, i);
    InsertAt(sorted, x, j);
    SplicedAt(a[..i + 1], sorted, x, j);
  }

  /** Sorting one more element of `s` is inserting it into the sorted prefix. */
  lemma SortStep(s: seq<Achievement>, i: nat)
    requires i < |s|
    ensures SortByRarity(s[..i + 1]) == Insert(SortByRarity(s[..i]), s[i])
  {
    assert s[..i + 1][..i] == s[..i];
  }

  /** The in-place sort of `filtered.sort(...)`: afterwards the array holds the stable
      rarity sort of what it held before. */
  method SortByRarityInPlace(a: array<Achievement>)
    modifies a
    ensures a[..] == SortByRarity(old(a[..]))
  {
    ghost var orig := a[..];
    var i := 0;
    while i < a.Length
      invariant 0 <= i <= a.Length
      invariant a[..i] == SortByRarity(orig[..i])
      invariant forall k :: i <= k < a.Length ==> a[k] == orig[k]
    {
      InsertIntoPrefix(a, i);
      SortStep(orig, i);
      i := i + 1;
    }
    assert a[..] == a[..a.Length] && orig == orig[..a.Length];
  }

  class AchievementManager {
    var achievements: array<Achievement>
    /** The selected area; None shows every area. */
    var currentAreaId: Option<int>
    /** The status filter button's value: `todas`, `desbloqueadas` or `bloqueadas`. */
    var currentFilter: string
    var currentUser: Option<string>
    /** The debounce timer (`saveTimeout`): the uid the armed timer will save for, None when
        no timer is armed. */
    var pendingSave: Option<string>
    /** localStorage `dataVersion` and `achievements`. */
    var storedVersion: Option<string>
    var storedAchievements: Option<seq<Achievement>>

    /** A manager before loadData has run, over what local storage already holds. */
    constructor (storedVersion: Option<string>, storedAchievements: Option<seq<Achievement>>)
      ensures fresh(achievements) && achievements.Length == 0
      ensures currentAreaId == None && currentFilter == "todas"
      ensures currentUser == None && pendingSave == None
      ensures this.storedVersion == storedVersion && this.storedAchievements == storedAchievements
    {
      achievements := new Achievement[0];
      currentAreaId := None;
      currentFilter := "todas";
      currentUser := None;
      pendingSave := None;
      this.storedVersion := storedVersion;
      this.storedAchievements := storedAchievements;
    }

    /** Makes `s` the manager's list, in a new array. */
    method Install(s: seq<Achievement>)
      modifies this`achievements
      ensures fresh(achievements) && achievements[..] == s
    {
      achievements := new Achievement[|s|](i requires 0 <= i < |s| => s[i]);
    }

    /** debouncedSaveToServer: cancels any armed timer and arms one for `uid`. */
    method DebouncedSaveToServer(uid: string)
      modifies this`pendingSave
      ensures pendingSave == Some(uid)
    {
      pendingSave := Some(uid);
    }

    /** saveToLocalStorage: stores the list and, with a user signed in, re-arms the timer. */
    method SaveToLocalStorage()
      modifies this`storedAchievements, this`pendingSave
      ensures storedAchievements == Some(achievements[..])
      ensures pendingSave == if currentUser.Some? then currentUser else old(pendingSave)
    {
      storedAchievements := Some(achievements[..]);
      if currentUser.Some? {
        DebouncedSaveToServer(currentUser.value);
      }
    }

    /** The armed timer runs out: the progress write it issues, if one was armed. */
    method SaveTimerFires(now: int) returns (w: Option<ProgressWrite>)
      modifies this`pendingSave
      ensures pendingSave == None
      ensures old(pendingSave).None? ==> w == None
      ensures old(pendingSave).Some? ==> w == Some(ProgressOf(old(pendingSave).value, achievements[..], now))
    {
      if pendingSave.Some? {
        w := Some(ProgressOf(pendingSave.value, achievements[..], now));
      } else {
        w := None;
      }
      pendingSave := None;
    }

    /** The cache decision of loadData for the catalog just fetched and its serialisation
        `catalogHash`: a changed catalog replaces the cache; an unchanged one keeps a usable
        saved list; otherwise the fresh catalog is used. */
    method LoadData(catalog: seq<Achievement>, catalogHash: string)
      modifies this`achievements, this`storedVersion, this`storedAchievements, this`pendingSave
      ensures fresh(achievements)
      ensures storedVersion == Some(catalogHash)
      ensures storedAchievements == Some(achievements[..])
      ensures old(storedVersion) != Some(catalogHash) ==> achievements[..] == AutoGenerateIds(catalog)
      ensures old(storedVersion) == Some(catalogHash) && SavedListUsable(old(storedAchievements)) ==>
                achievements[..] == old(storedAchievements).value && pendingSave == old(pendingSave)
      ensures old(storedVersion) == Some(catalogHash) && !SavedListUsable(old(storedAchievements)) ==>
                achievements[..] == AutoGenerateIds(catalog)
      ensures achievements[..] == AutoGenerateIds(catalog) || achievements[..] == old(storedAchievements).value
      ensures old(storedVersion) != Some(catalogHash) || !SavedListUsable(old(storedAchievements)) ==>
                pendingSave == if currentUser.Some? then currentUser else old(pendingSave)
    {
      var withIds := AutoGenerateIds(catalog);
      if storedVersion != Some(catalogHash) {
        storedVersion := Some(catalogHash);
        storedAchievements := None;
        Install(withIds);
        SaveToLocalStorage();
      } else if storedAchievements.Some? {
        var parsed := storedAchievements.value;
        if |parsed| > 0 && parsed[0].areaId.Some? {
          Install(parsed);
        } else {
          Install(withIds);
          SaveToLocalStorage();
        }
      } else {
        Install(withIds);
        SaveToLocalStorage();
      }
    }

    /** The sign-in observer records the current user (script.js:200). */
    method SetCurrentUser(user: Option<string>)
      modifies this`currentUser
      ensures currentUser == user
    {
      currentUser := user;
    }

    /** selectArea: a new area resets the status filter to `todas`. */
    method SelectArea(areaId: Option<int>)
      modifies this`currentAreaId, this`currentFilter
      ensures currentAreaId == areaId && currentFilter == "todas"
    {
      currentAreaId := areaId;
      currentFilter := "todas";
    }

    /** A filter button sets the status filter. */
    method SetFilter(filter: string)
      modifies this`currentFilter
      ensures currentFilter == filter
    {
      currentFilter := filter;
    }

    /** `this.achievements.find(a => a.id === achievementId)`: the first position holding
        that id, if any. */
    method FindById(id: int) returns (idx: Option<nat>)
      ensures idx.Some? ==> idx.value < achievements.Length && achievements[idx.value].id == id
      ensures idx.Some? ==> forall k :: 0 <= k < idx.value ==> achievements[k].id != id
      ensures idx.None? ==> forall k :: 0 <= k < achievements.Length ==> achievements[k].id != id
    {
      var i := 0;
      while i < achievements.Length
        invariant 0 <= i <= achievements.Length
        invariant forall k :: 0 <= k < i ==> achievements[k].id != id
      {
        if achievements[i].id == id {
          return Some(i);
        }
        i := i + 1;
      }
      return None;
    }

    /** toggleAchievement: flips exactly the given achievement and stores the list. */
    method ToggleAchievement(i: nat)
      requires i < achievements.Length
      modifies achievements, this`storedAchievements, this`pendingSave
      ensures achievements[..] == old(achievements[..])[i := old(achievements[i]).(unlocked := !old(achievements[i].unlocked))]
      ensures storedAchievements == Some(achievements[..])
      ensures pendingSave == if currentUser.Some? then currentUser else old(pendingSave)
    {
      achievements[i] := achievements[i].(unlocked := !achievements[i].unlocked);
      SaveToLocalStorage();
    }

    /** resetAll: locks every achievement of the selected area (every achievement when no
        area is selected), leaves the rest, and stores the list. */
    method ResetAll()
      modifies achievements, this`storedAchievements, this`pendingSave
      ensures forall k :: 0 <= k < achievements.Length ==>
                achievements[k] == if InArea(old(achievements[k]), currentAreaId)
                                   then old(achievements[k]).(unlocked := false)
                                   else old(achievements[k])
      ensures achievements[..] == Reset(old(achievements[..]), currentAreaId)
      ensures storedAchievements == Some(achievements[..])
      ensures pendingSave == if currentUser.Some? then currentUser else old(pendingSave)
    {
      var i := 0;
      while i < achievements.Length
        modifies achievements
        invariant 0 <= i <= achievements.Length
        invariant forall k :: 0 <= k < i ==> achievements[k] == ResetOne(old(achievements[k]), currentAreaId)
        invariant forall k :: i <= k < achievements.Length ==> achievements[k] == old(achievements[k])
      {
        if InArea(achievements[i], currentAreaId) {
          achievements[i] := achievements[i].(unlocked := false);
        }
        i := i + 1;
      }
      assert achievements[..] == Reset(old(achievements[..]), currentAreaId);
      SaveToLocalStorage();
    }

    /** mergeRemoteProgress: every achievement becomes unlocked exactly when its id is in
        the union of the remote ids and the locally unlocked ids; the merged list is
        stored, rendered (which re-sorts it in place when the view is the whole list) and,
        with a user signed in, the rendered list's progress is written back at once. */
    method MergeRemoteProgress(remoteUnlockedIds: Option<seq<int>>, now: int) returns (serverWrite: Option<ProgressWrite>)
      modifies achievements, this`storedAchievements, this`pendingSave
      ensures storedAchievements == Some(Merge(old(achievements[..]), remoteUnlockedIds.GetOr([])))
      ensures achievements[..] == AfterViewSort(Merge(old(achievements[..]), remoteUnlockedIds.GetOr([])), currentAreaId, currentFilter)
      ensures pendingSave == if currentUser.Some? then currentUser else old(pendingSave)
      ensures serverWrite == if currentUser.Some? then Some(ProgressOf(currentUser.value, achievements[..], now)) else None
    {
      var remote := remoteUnlockedIds.GetOr([]);
      var merged := MergedSet(achievements[..], remote);
      var i := 0;
      while i < achievements.Length
        modifies achievements
        invariant 0 <= i <= achievements.Length
        invariant merged == MergedSet(old(achievements[..]), remote)
        invariant forall k :: 0 <= k < i ==> achievements[k] == old(achievements[k]).(unlocked := old(achievements[k]).id in merged)
        invariant forall k :: i <= k < achievements.Length ==> achievements[k] == old(achievements[k])
      {
        achievements[i] := achievements[i].(unlocked := achievements[i].id in merged);
        i := i + 1;
      }
      assert achievements[..] == Merge(old(achievements[..]), remote);
      SaveToLocalStorage();
      Render();
      if currentUser.Some? {
        serverWrite := Some(ProgressOf(currentUser.value, achievements[..], now));
      } else {
        serverWrite := None;
      }
    }

    /** getFilteredAchievements: the achievements of the view sorted by rarity. With neither
        filter applying, the view is the manager's own array, sorted in place. */
    method GetFilteredAchievements() returns (view: array<Achievement>)
      modifies achievements
      ensures ViewIsWholeList(currentAreaId, currentFilter) ==>
                view == achievements && achievements[..] == SortByRarity(old(achievements[..]))
      ensures !ViewIsWholeList(currentAreaId, currentFilter) ==>
                fresh(view) && achievements[..] == old(achievements[..]) &&
                view[..] == SortByRarity(FilterView(old(achievements[..]), currentAreaId, currentFilter))
      ensures achievements[..] == AfterViewSort(old(achievements[..]), currentAreaId, currentFilter)
    {
      if ViewIsWholeList(currentAreaId, currentFilter) {
        SortByRarityInPlace(achievements);
        view := achievements;
      } else {
        var f := FilterView(achievements[..], currentAreaId, currentFilter);
        view := NewArray(f);
        SortByRarityInPlace(view);
      }
    }

    /** render: updateStats and then renderAchievements each take the view. The first sorts
        the list in place when the view is the whole list; the second finds it sorted. */
    method Render()
      modifies achievements
      ensures achievements[..] == AfterViewSort(old(achievements[..]), currentAreaId, currentFilter)
    {
      var stats := GetFilteredAchievements();
      ghost var once := achievements[..];
      if ViewIsWholeList(currentAreaId, currentFilter) {
        SortOfSorted(once);
      }
      var cards := GetFilteredAchievements();
    }

    /** unlockRandom with `Math.random()` given as `rand`: after the view's sort, either no
        locked achievement is in view and nothing else happens, or the candidate that `rand`
        picks from the locked ones in the view's order is unlocked, nothing else changes, and
        the list is stored. The view's elements are the list's own objects, so a candidate is
        named by its position in the list. */
    method UnlockRandom(rand: real)
      requires 0.0 <= rand < 1.0
      modifies achievements, this`storedAchievements, this`pendingSave
      ensures var mid := AfterViewSort(old(achievements[..]), currentAreaId, currentFilter);
              match Pick(mid, currentAreaId, currentFilter, rand)
              case None =>
                achievements[..] == mid && storedAchievements == old(storedAchievements) && pendingSave == old(pendingSave)
              case Some(p) =>
                && achievements[..] == mid[p := mid[p].(unlocked := true)]
                && storedAchievements == Some(achievements[..])
                && pendingSave == if currentUser.Some? then currentUser else old(pendingSave)
    {
      var view := GetFilteredAchievements();
      UnlockPicked(rand, AfterViewSort(old(achievements[..]), currentAreaId, currentFilter));
    }

    /** The rest of unlockRandom once the view is sorted: unlock the picked candidate and
        store the list, or do nothing when there is none. */
    method UnlockPicked(rand: real, ghost mid: seq<Achievement>)
      requires 0.0 <= rand < 1.0
      requires achievements[..] == mid
      modifies achievements, this`storedAchievements, this`pendingSave
      ensures match Pick(mid, currentAreaId, currentFilter, rand)
              case None =>
                achievements[..] == mid && storedAchievements == old(storedAchievements) && pendingSave == old(pendingSave)
              case Some(p) =>
                && achievements[..] == mid[p := mid[p].(unlocked := true)]
                && storedAchievements == Some(achievements[..])
                && pendingSave == if currentUser.Some? then currentUser else old(pendingSave)
    {
      var pick := Pick(achievements[..], currentAreaId, currentFilter, rand);
      if pick.None? {
        return;
      }
      Unlock(pick.value);
    }

    /** `randomAchievement.unlocked = true` followed by saveToLocalStorage. */
    method Unlock(p: nat)
      requires p < achievements.Length
      modifies achievements, this`storedAchievements, this`pendingSave
      ensures achievements[..] == old(achievements[..])[p := old(achievements[p]).(unlocked := true)]
      ensures storedAchievements == Some(achievements[..])
      ensures pendingSave == if currentUser.Some? then currentUser else old(pendingSave)
    {
      achievements[p] := achievements[p].(unlocked := true);
      SaveToLocalStorage();
    }
  }
}
