/** The callable backend functions of functions/index.js: importing a user's progress,
    reading the leaderboard, and backing up the users collection. The store is a map from
    collection name to documents; the caller's authentication context and the server
    clock are inputs. */
module Callables {
  import opened JsValues

  /** The HttpsError codes the functions throw. */
  datatype CallError = Unauthenticated | InvalidArgument | PermissionDenied | Internal

  datatype Result<T> = Ok(value: T) | Err(error: CallError)

  /** `context.auth`: the caller's uid and the claims of its token. */
  datatype Auth = Auth(uid: string, token: Doc)

  /** `context.auth.token && context.auth.token.admin === true` */
  predicate IsAdmin(a: Auth) {
    Field(a.token, "admin") == Bool(true)
  }

  predicate Distinct(s: seq<Value>) {
    forall i, j :: 0 <= i < j < |s| ==> s[i] != s[j]
  }

  // ---------------------------------------------------------------------------
  // importUserProgress
  // ---------------------------------------------------------------------------

  /** The guards of importUserProgress, in the order the code checks them. */
  function ImportGuard(auth: Option<Auth>, data: Doc): (e: Option<CallError>)
    ensures e == Some(Unauthenticated) <==> auth.None?
    ensures e == Some(InvalidArgument) <==> auth.Some? && !Truthy(Field(data, "uid"))
    ensures e == Some(PermissionDenied) <==>
              auth.Some? && Truthy(Field(data, "uid")) && Field(data, "uid") != Str(auth.value.uid) && !IsAdmin(auth.value)
    ensures e.None? <==> auth.Some? && Truthy(Field(data, "uid")) &&
                         (Field(data, "uid") == Str(auth.value.uid) || IsAdmin(auth.value))
  {
    if auth.None? then Some(Unauthenticated)
    else if !Truthy(Field(data, "uid")) then Some(InvalidArgument)
    else if Field(data, "uid") != Str(auth.value.uid) && !IsAdmin(auth.value) then Some(PermissionDenied)
    else None
  }

  /** `Array.isArray(data.unlockedIds) ? data.unlockedIds : []` */
  function SuppliedIds(data: Doc): (ids: seq<Value>)
    ensures Field(data, "unlockedIds").Arr? ==> ids == Field(data, "unlockedIds").items
    ensures !Field(data, "unlockedIds").Arr? ==> ids == []
  {
    match Field(data, "unlockedIds")
    case Arr(items) => items
    case _ => []
  }

  /** `typeof data.totalPoints === 'number' ? data.totalPoints : 0` */
  function SuppliedPoints(data: Doc): (p: Value)
    ensures p.Num?
    ensures Field(data, "totalPoints").Num? ==> p == Field(data, "totalPoints")
    ensures !Field(data, "totalPoints").Num? ==> p == Num(0)
  {
    match Field(data, "totalPoints")
    case Num(n) => Num(n)
    case _ => Num(0)
  }

  /** `data.merge !== undefined ? !!data.merge : true` */
  function MergeFlag(data: Doc): (m: bool)
    ensures Field(data, "merge") == Undefined ==> m
    ensures Field(data, "merge") != Undefined ==> (m <==> Truthy(Field(data, "merge")))
  {
    var v := Field(data, "merge");
    if v != Undefined then Truthy(v) else true
  }

  /** Adding each of `xs` in turn to the insertion-ordered set `acc`, as `Set.add` does. */
  function AddAll(acc: seq<Value>, xs: seq<Value>): (r: seq<Value>)
    ensures forall v :: v in r <==> v in acc || v in xs
    ensures |acc| <= |r| && r[..|acc|] == acc
    ensures Distinct(acc) ==> Distinct(r)
    decreases |xs|
  {
    if xs == [] then acc
    else
      var next := if xs[0] in acc then acc else acc + [xs[0]];
      assert next[..|acc|] == acc;
      var r := AddAll(next, xs[1..]);
      assert r[..|acc|] == r[..|next|][..|acc|];
      assert forall v :: v in xs <==> v == xs[0] || v in xs[1..];
      r
  }

  /** `doc.data().unlockedIds || []`, which the code then walks with `forEach`: a truthy
      non-array there throws, and the function fails with `internal`. */
  function StoredIds(existing: Doc): (r: Result<seq<Value>>)
    ensures !Truthy(Field(existing, "unlockedIds")) ==> r == Ok([])
    ensures Field(existing, "unlockedIds").Arr? ==> r == Ok(Field(existing, "unlockedIds").items)
    ensures r.Err? <==> Truthy(Field(existing, "unlockedIds")) && !Field(existing, "unlockedIds").Arr?
    ensures r.Err? ==> r.error == Internal
  {
    match Or(Field(existing, "unlockedIds"), Arr([]))
    case Arr(items) => Ok(items)
    case _ => Err(Internal)
  }

  /** `finalUnlocked`: the supplied ids without repeats, followed, when the document exists
      and `merge` holds, by the stored ids not supplied. */
  function FinalUnlocked(supplied: seq<Value>, existing: Option<Doc>, merge: bool): (r: Result<seq<Value>>)
    ensures r.Ok? ==> Distinct(r.value)
    ensures r.Ok? ==> forall v :: v in r.value <==>
              v in supplied || (existing.Some? && merge && StoredIds(existing.value).Ok? && v in StoredIds(existing.value).value)
    ensures r.Err? <==> existing.Some? && merge && StoredIds(existing.value).Err?
  {
    var base := AddAll([], supplied);
    if existing.Some? && merge then
      match StoredIds(existing.value)
      case Ok(stored) => Ok(AddAll(base, stored))
      case Err(e) => Err(e)
    else Ok(base)
  }

  /** The fields importUserProgress writes, merged over the user's document. */
  function Progress(unlocked: seq<Value>, totalPoints: Value, now: int): Doc {
    map["unlockedIds" := Arr(unlocked), "totalPoints" := totalPoints, "lastUpdated" := Stamp(now)]
  }

  /** importUserProgress over the users collection: the error, or the number of unlocked
      ids stored, and the collection afterwards. */
  function Import(auth: Option<Auth>, data: Doc, now: int, users: map<string, Doc>): (r: (Result<nat>, map<string, Doc>))
    ensures r.0.Err? ==> r.1 == users
    ensures ImportGuard(auth, data).Some? ==> r.0 == Err(ImportGuard(auth, data).value)
    ensures ImportGuard(auth, data).None? && r.0.Err? ==> r.0.error == Internal
    ensures r.0.Ok? ==> ImportGuard(auth, data).None? && Field(data, "uid").Str?
  {
    match ImportGuard(auth, data)
    case Some(e) => (Err(e), users)
    case None =>
      if !Field(data, "uid").Str? then (Err(Internal), users)
      else
        var uid := data["uid"].s;
        var existing := if uid in users then Some(users[uid]) else None;
        match FinalUnlocked(SuppliedIds(data), existing, MergeFlag(data))
        case Err(e) => (Err(e), users)
        case Ok(final) =>
          var before: Doc := if uid in users then users[uid] else map[];
          (Ok(|final|), users[uid := before + Progress(final, SuppliedPoints(data), now)])
  }

  /** A distinct list has as many elements as its set. */
  lemma {:induction false} DistinctCard(s: seq<Value>)
    requires Distinct(s)
    ensures |set v | v in s| == |s|
    decreases |s|
  {
    if s != [] {
      var init := s[..|s| - 1];
      assert Distinct(init);
      DistinctCard(init);
      assert (set v | v in s) == (set v | v in init) + {s[|s| - 1]};
      assert s[|s| - 1] !in (set v | v in init);
    }
  }

  /** A successful import stores, under the target uid, exactly the supplied ids united with
      the stored ones (when the document exists and `merge` holds), each once; it stores the
      supplied points as given, keeps the document's other fields and every other user, and
      returns the size of the stored set. */
  lemma ImportStoresUnion(auth: Option<Auth>, data: Doc, now: int, users: map<string, Doc>)
    requires Import(auth, data, now, users).0.Ok?
    ensures var (r, users') := Import(auth, data, now, users);
            var uid := data["uid"].s;
            var stored := if uid in users && MergeFlag(data) then StoredIds(users[uid]).value else [];
            && uid in users'
            && users'.Keys == users.Keys + {uid}
            && (forall u :: u in users && u != uid ==> users'[u] == users[u])
            && users'[uid]["unlockedIds"].Arr?
            && Distinct(users'[uid]["unlockedIds"].items)
            && (forall v :: v in users'[uid]["unlockedIds"].items <==> v in SuppliedIds(data) || v in stored)
            && r.value == |users'[uid]["unlockedIds"].items| == |set v | v in users'[uid]["unlockedIds"].items|
            && users'[uid]["totalPoints"] == SuppliedPoints(data)
            && users'[uid]["lastUpdated"] == Stamp(now)
            && (uid in users ==> forall k :: k in users[uid] && k !in Progress([], Num(0), 0) ==>
                                   k in users'[uid] && users'[uid][k] == users[uid][k])
  {
    var uid := data["uid"].s;
    var existing := if uid in users then Some(users[uid]) else None;
    var final := FinalUnlocked(SuppliedIds(data), existing, MergeFlag(data)).value;
    ImportWrites(auth, data, now, users, final);
    var before: Doc := if uid in users then users[uid] else map[];
    var d := before + Progress(final, SuppliedPoints(data), now);
    assert d["unlockedIds"] == Arr(final);
    assert d["totalPoints"] == SuppliedPoints(data) && d["lastUpdated"] == Stamp(now);
    DistinctCard(final);
  }

  /** Re-importing the same ids with `merge` changes nothing in what is stored: the union is
      already there, in the same order. */
  lemma {:induction false} AddAllAbsorbs(p: seq<Value>, rest: seq<Value>)
    requires Distinct(p + rest)
    ensures AddAll(p, p + rest) == p + rest
  {
    AddAllPresent(p, p);
    assert (p + rest)[..|p|] == p && (p + rest)[|p|..] == rest;
    AddAllSplit(p, p, rest);
    AddAllFresh(p, rest);
  }

  /** Adding elements already present changes nothing. */
  lemma {:induction false} AddAllPresent(acc: seq<Value>, xs: seq<Value>)
    requires forall v :: v in xs ==> v in acc
    ensures AddAll(acc, xs) == acc
    decreases |xs|
  {
    if xs != [] {
      AddAllPresent(acc, xs[1..]);
    }
  }

  /** Adding distinct new elements appends them in order. */
  lemma {:induction false} AddAllFresh(acc: seq<Value>, xs: seq<Value>)
    requires Distinct(acc + xs)
    ensures AddAll(acc, xs) == acc + xs
    decreases |xs|
  {
    if xs != [] {
      assert (acc + xs)[|acc|] == xs[0];
      assert xs[0] !in acc by {
        forall i | 0 <= i < |acc| ensures acc[i] != xs[0] {
          assert (acc + xs)[i] == acc[i];
        }
      }
      assert acc + [xs[0]] + xs[1..] == acc + xs;
      AddAllFresh(acc + [xs[0]], xs[1..]);
    }
  }

  /** Adding `xs + ys` is adding `xs` and then `ys`. */
  lemma {:induction false} AddAllSplit(acc: seq<Value>, xs: seq<Value>, ys: seq<Value>)
    ensures AddAll(acc, xs + ys) == AddAll(AddAll(acc, xs), ys)
    decreases |xs|
  {
    if xs == [] {
      assert xs + ys == ys;
    } else {
      assert (xs + ys)[0] == xs[0] && (xs + ys)[1..] == xs[1..] + ys;
      var next := if xs[0] in acc then acc else acc + [xs[0]];
      AddAllSplit(next, xs[1..], ys);
    }
  }

  /** Uniting a list of ids with a stored list that starts with them, without repeats,
      gives that stored list back. */
  lemma ReimportSame(base: seq<Value>, final: seq<Value>)
    requires Distinct(final)
    requires |base| <= |final| && final[..|base|] == base
    ensures AddAll(base, final) == final
  {
    var rest := final[|base|..];
    assert final == base + rest;
    AddAllAbsorbs(base, rest);
  }

  /** Merging the same fields twice is merging them once. */
  lemma MergeTwice(d: Doc, p: Doc)
    ensures (d + p) + p == d + p
  {
  }

  /** The write of an import that passes its guards and whose union succeeds. */
  lemma ImportWrites(auth: Option<Auth>, data: Doc, now: int, users: map<string, Doc>, final: seq<Value>)
    requires ImportGuard(auth, data).None? && Field(data, "uid").Str?
    requires var uid := data["uid"].s;
             FinalUnlocked(SuppliedIds(data), if uid in users then Some(users[uid]) else None, MergeFlag(data)) == Ok(final)
    ensures var uid := data["uid"].s;
            Import(auth, data, now, users) ==
              (Ok(|final| as nat), users[uid := (if uid in users then users[uid] else map[]) + Progress(final, SuppliedPoints(data), now)])
  {
  }

  /** Importing the same request twice with `merge` stores what the first import stored:
      the second import unites the supplied ids with what the first stored, which already
      holds them, first and in the same order. */
  lemma ImportTwiceStable(auth: Option<Auth>, data: Doc, now: int, users: map<string, Doc>)
    requires Import(auth, data, now, users).0.Ok?
    requires MergeFlag(data)
    ensures var (r1, users1) := Import(auth, data, now, users);
            Import(auth, data, now, users1) == (r1, users1)
  {
    var uid := data["uid"].s;
    var supplied := SuppliedIds(data);
    var existing := if uid in users then Some(users[uid]) else None;
    var final1 := FinalUnlocked(supplied, existing, true).value;
    var before1: Doc := if uid in users then users[uid] else map[];
    var p := Progress(final1, SuppliedPoints(data), now);
    ImportWrites(auth, data, now, users, final1);
    var users1 := users[uid := before1 + p];
    StoredAfterWrite(before1, final1, SuppliedPoints(data), now);
    ReimportStable(supplied, existing, users1[uid]);
    ImportWrites(auth, data, now, users1, final1);
    MergeTwice(before1, p);
    assert users1[uid := users1[uid] + p] == users1;
  }

  /** The stored ids after an import are the ids it wrote. */
  lemma StoredAfterWrite(before: Doc, final: seq<Value>, points: Value, now: int)
    ensures StoredIds(before + Progress(final, points, now)) == Ok(final)
  {
    assert Field(before + Progress(final, points, now), "unlockedIds") == Arr(final);
  }

  /** Uniting the supplied ids with what a merging import stored gives what it stored. */
  lemma ReimportStable(supplied: seq<Value>, existing: Option<Doc>, d: Doc)
    requires FinalUnlocked(supplied, existing, true).Ok?
    requires StoredIds(d) == Ok(FinalUnlocked(supplied, existing, true).value)
    ensures FinalUnlocked(supplied, Some(d), true) == FinalUnlocked(supplied, existing, true)
  {
    var final := FinalUnlocked(supplied, existing, true).value;
    var base := AddAll([], supplied);
    assert |base| <= |final| && final[..|base|] == base by {
      if existing.Some? {
        assert final == AddAll(base, StoredIds(existing.value).value);
      }
    }
    ReimportSame(base, final);
  }

  // ---------------------------------------------------------------------------
  // getLeaderboard
  // ---------------------------------------------------------------------------

  /** One leaderboard entry. */
  datatype Entry = Entry(uid: string, totalPoints: Value, lastUpdated: Value)

  /** `typeof data.limit === 'number' ? data.limit : 10` */
  function LimitArg(data: Doc): (n: int)
    ensures !Field(data, "limit").Num? ==> n == 10
    ensures Field(data, "limit").Num? ==> n == Field(data, "limit").n
  {
    match Field(data, "limit")
    case Num(n) => n
    case _ => 10
  }

  /** A document's entry: `totalPoints || 0` and `lastUpdated || null`. */
  function EntryOf(uid: string, d: Doc): (e: Entry)
    ensures e.uid == uid
    ensures !Truthy(Field(d, "totalPoints")) ==> e.totalPoints == Num(0)
    ensures !Truthy(Field(d, "lastUpdated")) ==> e.lastUpdated == Null
    ensures Truthy(Field(d, "totalPoints")) ==> e.totalPoints == d["totalPoints"]
    ensures Truthy(Field(d, "lastUpdated")) ==> e.lastUpdated == d["lastUpdated"]
  {
    Entry(uid, Or(Field(d, "totalPoints"), Num(0)), Or(Field(d, "lastUpdated"), Null))
  }

  /** The points a document ranks by: its numeric `totalPoints`, 0 otherwise. */
  function Points(d: Doc): int {
    match Field(d, "totalPoints")
    case Num(n) => n
    case _ => 0
  }

  function EntryPoints(e: Entry): int {
    match e.totalPoints
    case Num(n) => n
    case _ => 0
  }

  predicate RankedByPoints(ranked: seq<(string, Doc)>) {
    forall i, j :: 0 <= i < j < |ranked| ==> Points(ranked[i].1) >= Points(ranked[j].1)
  }

  predicate EntriesByPoints(entries: seq<Entry>) {
    forall i, j :: 0 <= i < j < |entries| ==> EntryPoints(entries[i]) >= EntryPoints(entries[j])
  }

  /** getLeaderboard over `ranked`, the users collection as the query ordered by points
      returns it: the first `limit` documents as entries; a negative limit makes the store
      refuse the query and the function fail with `internal`. */
  function Leaderboard(data: Doc, ranked: seq<(string, Doc)>): (r: Result<seq<Entry>>)
    ensures r.Err? <==> LimitArg(data) < 0
    ensures r.Err? ==> r.error == Internal
    ensures r.Ok? ==> |r.value| <= LimitArg(data) && |r.value| <= |ranked|
    ensures r.Ok? && |ranked| <= LimitArg(data) ==> |r.value| == |ranked|
    ensures r.Ok? && LimitArg(data) <= |ranked| ==> |r.value| == LimitArg(data)
    ensures r.Ok? ==> forall i :: 0 <= i < |r.value| ==> r.value[i] == EntryOf(ranked[i].0, ranked[i].1)
  {
    var n := LimitArg(data);
    if n < 0 then Err(Internal)
    else
      var docs := if |ranked| <= n then ranked else ranked[..n];
      Ok(seq(|docs|, i requires 0 <= i < |docs| => EntryOf(docs[i].0, docs[i].1)))
  }

  /** An entry shows the points its document ranks by. */
  lemma EntryKeepsPoints(uid: string, d: Doc)
    ensures EntryPoints(EntryOf(uid, d)) == Points(d)
  {
  }

  /** The leaderboard keeps the query's descending order of points. */
  lemma LeaderboardDescending(data: Doc, ranked: seq<(string, Doc)>)
    requires RankedByPoints(ranked)
    requires Leaderboard(data, ranked).Ok?
    ensures EntriesByPoints(Leaderboard(data, ranked).value)
  {
    var entries := Leaderboard(data, ranked).value;
    forall i, j | 0 <= i < j < |entries| ensures EntryPoints(entries[i]) >= EntryPoints(entries[j]) {
      EntryKeepsPoints(ranked[i].0, ranked[i].1);
      EntryKeepsPoints(ranked[j].0, ranked[j].1);
    }
  }

  /** `leaderboard.push(...)` over the query's documents. */
  method GetLeaderboard(data: Doc, ranked: seq<(string, Doc)>) returns (r: Result<seq<Entry>>)
    ensures r == Leaderboard(data, ranked)
  {
    var limit := LimitArg(data);
    if limit < 0 {
      return Err(Internal);
    }
    var snapshot := if |ranked| <= limit then ranked else ranked[..limit];
    var leaderboard: seq<Entry> := [];
    var i := 0;
    while i < |snapshot|
      invariant 0 <= i <= |snapshot|
      invariant |leaderboard| == i
      invariant forall k :: 0 <= k < i ==> leaderboard[k] == EntryOf(snapshot[k].0, snapshot[k].1)
    {
      var (uid, d) := snapshot[i];
      leaderboard := leaderboard + [EntryOf(uid, d)];
      i := i + 1;
    }
    assert leaderboard == seq(|snapshot|, k requires 0 <= k < |snapshot| => EntryOf(snapshot[k].0, snapshot[k].1));
    r := Ok(leaderboard);
  }

  // ---------------------------------------------------------------------------
  // backupAllUsers
  // ---------------------------------------------------------------------------

  /** `typeof name === 'string' && name.length > 0 ? name : 'users_backup'` */
  function BackupName(data: Doc): (name: string)
    ensures name != ""
    ensures Field(data, "backupCollectionName").Str? && Field(data, "backupCollectionName").s != "" ==>
              name == Field(data, "backupCollectionName").s
    ensures !(Field(data, "backupCollectionName").Str? && Field(data, "backupCollectionName").s != "") ==>
              name == "users_backup"
  {
    match Field(data, "backupCollectionName")
    case Str(s) => if |s| > 0 then s else "users_backup"
    case _ => "users_backup"
  }

  /** `{ ...doc.data(), backedUpAt }` for every user. */
  function BackupCopy(users: map<string, Doc>, now: int): (copy: map<string, Doc>)
    ensures copy.Keys == users.Keys
    ensures forall id :: id in users ==> copy[id] == users[id]["backedUpAt" := Stamp(now)]
  {
    map id | id in users :: users[id]["backedUpAt" := Stamp(now)]
  }

  // ---------------------------------------------------------------------------
  // The store
  // ---------------------------------------------------------------------------

  class Backend {
    /** Every collection of the store by name, each a map from document id to document. */
    var collections: map<string, map<string, Doc>>

    /** A collection; one never written is empty. */
    function Coll(name: string): map<string, Doc>
      reads this
    {
      if name in collections then collections[name] else map[]
    }

    constructor (collections: map<string, map<string, Doc>>)
      ensures this.collections == collections
    {
      this.collections := collections;
    }

    /** importUserProgress. */
    method ImportUserProgress(auth: Option<Auth>, data: Doc, now: int) returns (r: Result<nat>)
      modifies this`collections
      ensures (r, Coll("users")) == Import(auth, data, now, old(Coll("users")))
      ensures r.Err? ==> collections == old(collections)
      ensures r.Ok? ==> collections == old(collections)["users" := Coll("users")]
    {
      if auth.None? {
        return Err(Unauthenticated);
      }
      var requesterUid := auth.value.uid;
      var targetUid := Field(data, "uid");
      var unlockedIds := SuppliedIds(data);
      var totalPoints := SuppliedPoints(data);
      var merge := MergeFlag(data);
      if !Truthy(targetUid) {
        return Err(InvalidArgument);
      }
      var isAdmin := IsAdmin(auth.value);
      if targetUid != Str(requesterUid) && !isAdmin {
        return Err(PermissionDenied);
      }
      if !targetUid.Str? {
        return Err(Internal);
      }
      var uid := targetUid.s;
      var users := Coll("users");
      var finalUnlocked := AddEach([], unlockedIds);
      if uid in users && merge {
        var stored := StoredIds(users[uid]);
        if stored.Err? {
          return Err(Internal);
        }
        finalUnlocked := AddEach(finalUnlocked, stored.value);
      }
      var before: Doc := if uid in users then users[uid] else map[];
      collections := collections["users" := users[uid := before + Progress(finalUnlocked, totalPoints, now)]];
      r := Ok(|finalUnlocked|);
    }

    /** backupAllUsers: copies every user document, stamped, into the backup collection,
        overwriting documents of the same id there, and returns how many it copied. */
    method BackupAllUsers(auth: Option<Auth>, data: Doc, now: int) returns (r: Result<nat>)
      modifies this`collections
      ensures auth.None? || !IsAdmin(auth.value) ==> r == Err(PermissionDenied) && collections == old(collections)
      ensures auth.Some? && IsAdmin(auth.value) ==>
                && r == Ok(|old(Coll("users")).Keys|)
                && collections == old(collections)[BackupName(data) := old(Coll(BackupName(data))) + BackupCopy(old(Coll("users")), now)]
    {
      if auth.None? || !IsAdmin(auth.value) {
        return Err(PermissionDenied);
      }
      var backupCollection := BackupName(data);
      var users := Coll("users");
      var batch: map<string, Doc> := map[];
      var rest := users.Keys;
      while rest != {}
        invariant rest <= users.Keys
        invariant batch.Keys == users.Keys - rest
        invariant forall id :: id in batch ==> batch[id] == users[id]["backedUpAt" := Stamp(now)]
        decreases rest
      {
        var id :| id in rest;
        batch := batch[id := users[id]["backedUpAt" := Stamp(now)]];
        rest := rest - {id};
      }
      assert batch == BackupCopy(users, now);
      collections := collections[backupCollection := Coll(backupCollection) + batch];
      r := Ok(|users.Keys|);
    }
  }

  /** `ids.forEach(id => finalUnlocked.add(id))` */
  method AddEach(acc: seq<Value>, xs: seq<Value>) returns (r: seq<Value>)
    ensures r == AddAll(acc, xs)
  {
    r := acc;
    var i := 0;
    while i < |xs|
      invariant 0 <= i <= |xs|
      invariant AddAll(r, xs[i..]) == AddAll(acc, xs)
    {
      assert xs[i..][0] == xs[i] && xs[i..][1..] == xs[i + 1..];
      if xs[i] !in r {
        r := r + [xs[i]];
      }
      i := i + 1;
    }
  }

  /** A backup run by an admin copies every user: the backup collection then holds each
      user document under its id, stamped, and the count returned is the number of users. */
  lemma BackupCopiesEveryUser(users: map<string, Doc>, target: map<string, Doc>, now: int)
    ensures var after := target + BackupCopy(users, now);
            && (forall id :: id in users ==> id in after && after[id] - {"backedUpAt"} == users[id] - {"backedUpAt"}
                                                          && after[id]["backedUpAt"] == Stamp(now))
            && (forall id :: id in target && id !in users ==> after[id] == target[id])
            && |BackupCopy(users, now).Keys| == |users.Keys|
  {
    var copy := BackupCopy(users, now);
    var after := target + copy;
    forall id | id in users
      ensures id in after && after[id] - {"backedUpAt"} == users[id] - {"backedUpAt"}
      ensures after[id]["backedUpAt"] == Stamp(now)
    {
      assert after[id] == users[id]["backedUpAt" := Stamp(now)];
      StampKeepsRest(users[id], Stamp(now));
    }
  }

  /** Setting `backedUpAt` leaves every other field as it was. */
  lemma StampKeepsRest(d: Doc, v: Value)
    ensures d["backedUpAt" := v] - {"backedUpAt"} == d - {"backedUpAt"}
  {
  }
}
