/** The document store as firebase-service.js uses it: the collections the friend
    operations read and write, held as fields that the operations update in place. Each
    operation reads step by step, as the code's queries and loops do, and is proved to act
    as the corresponding rule of `Friends` or `Search`. The signed-in user is passed in. */
module FriendStore {
  import opened JsValues
  import opened Friends
  import opened Search

  class Store {
    /** usersPublic/{uid} */
    var usersPublic: map<Uid, Doc>
    /** users/{uid} */
    var users: map<Uid, Doc>
    /** users/{owner}/friends/{friend}, as (owner, friend) */
    var friends: set<(Uid, Uid)>
    /** friendRequests/{id} */
    var requests: map<RequestId, FriendRequest>
    /** The next id the store hands out to an added request. */
    var nextId: nat

    /** The store's contents as the rules of `Friends` see them. */
    function Snapshot(): Ledger
      reads this
    {
      Ledger(usersPublic, users, friends, requests, nextId)
    }

    predicate Valid()
      reads this
    {
      Friends.Valid(Snapshot())
    }

    constructor (usersPublic: map<Uid, Doc>, users: map<Uid, Doc>)
      ensures Valid()
      ensures Snapshot() == Ledger(usersPublic, users, {}, map[], 0)
    {
      this.usersPublic := usersPublic;
      this.users := users;
      friends := {};
      requests := map[];
      nextId := 0;
    }

    /** sendFriendRequest: the guards in order, then the query for requests from the caller
        to `toUid`, then the query for requests back, each read in id order. */
    method SendFriendRequest(caller: Option<Uid>, toUid: Uid) returns (r: Result<RequestId>)
      requires Valid()
      modifies this
      ensures Valid()
      ensures (r, Snapshot()) == Send(caller, toUid, old(Snapshot()))
    {
      if caller.None? {
        return Err(Unauthenticated);
      }
      var fromUid := caller.value;
      if toUid == "" || fromUid == toUid {
        return Err(InvalidArgument);
      }
      if toUid !in usersPublic {
        return Err(NotFound);
      }
      if (fromUid, toUid) in friends {
        return Err(AlreadyFriends);
      }
      var id := 0;
      while id < nextId
        invariant 0 <= id <= nextId
        invariant forall k :: 0 <= k < id ==> !LiveRequest(requests, k, fromUid, toUid)
      {
        if id in requests && requests[id].fromUid == fromUid && requests[id].toUid == toUid {
          var status := requests[id].status;
          if status == Pending || status == Accepted {
            assert LiveRequest(requests, id, fromUid, toUid);
            return Err(AlreadyExists);
          }
        }
        id := id + 1;
      }
      assert !HasLive(requests, fromUid, toUid);
      id := 0;
      while id < nextId
        invariant 0 <= id <= nextId
        invariant FirstLive(requests, toUid, fromUid, 0, nextId) == FirstLive(requests, toUid, fromUid, id, nextId)
      {
        if id in requests && requests[id].fromUid == toUid && requests[id].toUid == fromUid {
          var status := requests[id].status;
          if status == Pending {
            return Err(ReversePending);
          }
          if status == Accepted {
            return Err(AlreadyFriends);
          }
        }
        id := id + 1;
      }
      r := Ok(nextId);
      requests := requests[nextId := FriendRequest(fromUid, toUid, Pending)];
      nextId := nextId + 1;
    }

    /** acceptFriendRequest. */
    method AcceptFriendRequest(caller: Option<Uid>, id: RequestId) returns (r: Result<()>)
      requires Valid()
      modifies this`requests, this`friends
      ensures Valid()
      ensures (r, Snapshot()) == Accept(caller, id, old(Snapshot()))
    {
      if caller.None? {
        return Err(Unauthenticated);
      }
      var uid := caller.value;
      if id !in requests {
        return Err(NotFound);
      }
      var reqData := requests[id];
      if reqData.toUid != uid {
        return Err(PermissionDenied);
      }
      if reqData.status == Accepted {
        return Ok(());
      }
      requests := requests[id := reqData.(status := Accepted)];
      var friendId := reqData.fromUid;
      friends := friends + {(uid, friendId)};
      r := Ok(());
    }

    /** rejectFriendRequest. */
    method RejectFriendRequest(caller: Option<Uid>, id: RequestId) returns (r: Result<()>)
      requires Valid()
      modifies this`requests
      ensures Valid()
      ensures (r, Snapshot()) == Reject(caller, id, old(Snapshot()))
    {
      if caller.None? {
        return Err(Unauthenticated);
      }
      var uid := caller.value;
      if id !in requests {
        return Err(NotFound);
      }
      var reqData := requests[id];
      if reqData.fromUid != uid && reqData.toUid != uid {
        return Err(PermissionDenied);
      }
      if reqData.status == Rejected {
        return Ok(());
      }
      requests := requests[id := reqData.(status := Rejected)];
      r := Ok(());
    }

    /** getFriendProfile: reads only. */
    method GetFriendProfile(caller: Option<Uid>, friendUid: Uid) returns (r: Result<FriendProfile>)
      ensures r == Friends.GetFriendProfile(caller, friendUid, Snapshot())
    {
      if caller.None? {
        return Err(Unauthenticated);
      }
      var requesterUid := caller.value;
      var publicData: Doc := if friendUid in usersPublic then usersPublic[friendUid] else map[];
      var isFriend := (friendUid, requesterUid) in friends;
      var privateData := Hidden;
      if isFriend {
        if friendUid in users {
          var d := users[friendUid];
          privateData := map["unlockedIds" := Or(Field(d, "unlockedIds"), Arr([])),
                              "totalPoints" := Or(Field(d, "totalPoints"), Num(0))];
        }
      }
      r := Ok(FriendProfile(publicData + privateData, isFriend));
    }

    /** searchUsersPublic over `listing`, the public profiles in the order the store returns
        them: the prefix query's documents are pushed, then, if there are none, the fallback
        scan pushes the matching documents among the first 500 until a display name throws;
        finally the results are filtered, and a display name that throws there yields []. */
    method SearchUsersPublic(query: Option<string>, listing: seq<(string, Doc)>) returns (out: seq<Doc>)
      requires IsListing(listing, usersPublic)
      ensures out == SearchSpec(query, listing)
      ensures forall x :: x in out ==> exists uid :: uid in usersPublic && x == Hit(uid, usersPublic[uid])
    {
      ResultsFromCollection(query, listing, usersPublic);
      var q := NormalizeQuery(query);
      if q == "" {
        return [];
      }
      var results := PushHits(PrimarySnapshot(q, listing));
      if results == [] {
        results := FallbackScanLoop(q, Limit(listing, 500));
      }
      assert results == Gathered(q, listing);
      out := FilterByName(q, results);
    }

    /** savePublicProfile: the document merged into usersPublic/{uid}, or
        false and no write when the display name is a truthy non-string. */
    method SavePublicProfile(uid: Uid, publicData: Doc) returns (ok: bool)
      modifies this`usersPublic
      ensures ok <==> ProfileToSave(publicData).Some?
      ensures ok ==>
                usersPublic == old(usersPublic)[uid := (if uid in old(usersPublic) then old(usersPublic)[uid] else map[]) +
                                                       ProfileToSave(publicData).value]
      ensures !ok ==> usersPublic == old(usersPublic)
    {
      var dataToSave := publicData;
      var name := Field(dataToSave, "displayName");
      if Truthy(name) {
        if !name.Str? {
          return false;
        }
        dataToSave := dataToSave["searchName" := Str(Lower(Trim(name.s)))];
      }
      assert ProfileToSave(publicData) == Some(dataToSave);
      var existing: Doc := if uid in usersPublic then usersPublic[uid] else map[];
      usersPublic := usersPublic[uid := existing + dataToSave];
      ok := true;
    }
  }

  /** `snapshot.forEach(doc => results.push({ uid: doc.id, ...doc.data() }))`. */
  method PushHits(snapshot: seq<(string, Doc)>) returns (results: seq<Doc>)
    ensures results == Hits(snapshot)
  {
    results := [];
    var i := 0;
    while i < |snapshot|
      invariant 0 <= i <= |snapshot|
      invariant results == Hits(snapshot[..i])
    {
      results := results + [Hit(snapshot[i].0, snapshot[i].1)];
      i := i + 1;
    }
    assert snapshot[..i] == snapshot;
  }

  /** The fallback loop: pushes the matching documents until a display name throws. */
  method FallbackScanLoop(q: string, docs: seq<(string, Doc)>) returns (pushed: seq<Doc>)
    ensures pushed == FallbackScan(q, docs).pushed
  {
    pushed := [];
    var i := 0;
    while i < |docs|
      invariant 0 <= i <= |docs|
      invariant FallbackScan(q, docs[..i]) == Scan(pushed, false)
    {
      assert docs[..i + 1][..i] == docs[..i];
      var (uid, data) := docs[i];
      var name := NameOf(data);
      if name.None? {
        assert FallbackScan(q, docs[..i + 1]).pushed == pushed && FallbackScan(q, docs[..i + 1]).stopped;
        StoppedScanStays(q, docs, i + 1);
        return;
      }
      if Contains(Lower(name.value), q) {
        pushed := pushed + [Hit(uid, data)];
      }
      i := i + 1;
    }
    assert docs[..i] == docs;
  }

  /** Once the scan has stopped, later documents change nothing: the first display name
      that throws is the same one. */
  lemma StoppedScanStays(q: string, docs: seq<(string, Doc)>, n: nat)
    requires n <= |docs| && FallbackScan(q, docs[..n]).stopped
    ensures FallbackScan(q, docs) == FallbackScan(q, docs[..n])
  {
    var prefix := docs[..n];
    var k := FirstThrow(prefix);
    assert k < n && prefix[k] == docs[k];
    assert forall j :: 0 <= j < k ==> prefix[j] == docs[j];
    assert FirstThrow(docs) == k;
    assert prefix[..k] == docs[..k];
  }

  /** `results.filter(...)`: keeps the results whose display name contains the query; a
      display name that throws ends the search with []. */
  method FilterByName(q: string, results: seq<Doc>) returns (out: seq<Doc>)
    ensures out == Filtered(q, results)
  {
    out := [];
    var i := 0;
    while i < |results|
      invariant 0 <= i <= |results|
      invariant FinalFilter(q, results[..i]) == Some(out)
    {
      ghost var next := results[..i + 1];
      assert next[..|next| - 1] == results[..i] && next[|next| - 1] == results[i];
      if NameOf(results[i]).None? {
        NoneStays(q, results, i + 1);
        return [];
      }
      assert FinalFilter(q, next) == Some(out + (if Matches(q, results[i]) then [results[i]] else []));
      if Matches(q, results[i]) {
        out := out + [results[i]];
      } else {
        assert out + [] == out;
      }
      i := i + 1;
    }
    assert results[..i] == results;
  }

  /** Once a display name has thrown, the filter's outcome is settled. */
  lemma {:induction false} NoneStays(q: string, rs: seq<Doc>, n: nat)
    requires n <= |rs| && FinalFilter(q, rs[..n]).None?
    ensures FinalFilter(q, rs).None?
    decreases |rs| - n
  {
    if n < |rs| {
      assert rs[..n + 1][..n] == rs[..n];
      NoneStays(q, rs, n + 1);
    } else {
      assert rs[..n] == rs;
    }
  }
}
