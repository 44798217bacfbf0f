/** The friend-request rules of firebase-service.js as functions over the part of the
    document store they touch: public profiles, private user documents, friendship edges
    and friend requests. Each operation is a chain of guards, each of which either fails
    with a named error or lets the next one run, followed by a small write. */
module Friends {
  import opened JsValues

  type Uid = string
  type RequestId = nat

  datatype Status = Pending | Accepted | Rejected

  datatype FriendRequest = FriendRequest(fromUid: Uid, toUid: Uid, status: Status)

  /** The error codes the operations throw. */
  datatype FriendError =
    | Unauthenticated
    | InvalidArgument
    | NotFound
    | AlreadyFriends
    | AlreadyExists
    | ReversePending
    | PermissionDenied

  datatype Result<T> = Ok(value: T) | Err(error: FriendError)

  /** The store as the friend operations see it. The edge (owner, friend) stands for the
      document users/{owner}/friends/{friend}; `nextId` stands for the store's supply of
      fresh request ids. */
  datatype Ledger = Ledger(
    usersPublic: map<Uid, Doc>,
    users: map<Uid, Doc>,
    friends: set<(Uid, Uid)>,
    requests: map<RequestId, FriendRequest>,
    nextId: nat)

  /** Every request id in use was handed out before `nextId`. */
  predicate Valid(l: Ledger) {
    forall id :: id in l.requests ==> id < l.nextId
  }

  /** A pending or accepted request still counts; a rejected one does not. */
  predicate Live(s: Status) {
    s == Pending || s == Accepted
  }

  predicate LiveRequest(reqs: map<RequestId, FriendRequest>, id: RequestId, from: Uid, to: Uid) {
    id in reqs && reqs[id].fromUid == from && reqs[id].toUid == to && Live(reqs[id].status)
  }

  predicate HasLive(reqs: map<RequestId, FriendRequest>, from: Uid, to: Uid) {
    exists id :: id in reqs && LiveRequest(reqs, id, from, to)
  }

  /** The status of the first live request from `from` to `to` among the ids in [lo, hi),
      scanning the ids upwards, as the loop over the reverse query's documents does. */
  function FirstLive(reqs: map<RequestId, FriendRequest>, from: Uid, to: Uid, lo: nat, hi: nat): (r: Option<Status>)
    ensures r.None? <==> forall id :: lo <= id < hi ==> !LiveRequest(reqs, id, from, to)
    ensures r.Some? ==> exists id :: lo <= id < hi && LiveRequest(reqs, id, from, to) && reqs[id].status == r.value &&
                          forall k :: lo <= k < id ==> !LiveRequest(reqs, k, from, to)
    decreases hi - lo
  {
    if lo >= hi then None
    else if LiveRequest(reqs, lo, from, to) then
      Some(reqs[lo].status)
    else
      var r := FirstLive(reqs, from, to, lo + 1, hi);
      assert forall k :: lo <= k < lo + 1 ==> !LiveRequest(reqs, k, from, to);
      r
  }

  /** The guards of sendFriendRequest, in the order the code checks them. */
  function SendGuard(caller: Option<Uid>, toUid: Uid, l: Ledger): Option<FriendError> {
    if caller.None? then Some(Unauthenticated)
    else if toUid == "" || toUid == caller.value then Some(InvalidArgument)
    else if toUid !in l.usersPublic then Some(NotFound)
    else if (caller.value, toUid) in l.friends then Some(AlreadyFriends)
    else if HasLive(l.requests, caller.value, toUid) then Some(AlreadyExists)
    else match FirstLive(l.requests, toUid, caller.value, 0, l.nextId)
      case Some(Pending) => Some(ReversePending)
      case Some(Accepted) => Some(AlreadyFriends)
      case _ => None
  }

  /** sendFriendRequest: on success a new pending request under a fresh id; on failure the
      store is as it was. */
  function Send(caller: Option<Uid>, toUid: Uid, l: Ledger): (r: (Result<RequestId>, Ledger))
    ensures caller.None? <==> r.0 == Err(Unauthenticated)
    ensures r.0 == Err(InvalidArgument) <==> caller.Some? && (toUid == "" || toUid == caller.value)
    ensures r.0 == Err(NotFound) <==> caller.Some? && toUid != "" && toUid != caller.value && toUid !in l.usersPublic
    ensures r.0.Err? ==> r.1 == l
    ensures r.0.Ok? ==> caller.Some? && r.0.value == l.nextId && r.1.nextId == l.nextId + 1 &&
                        r.1.requests == l.requests[l.nextId := FriendRequest(caller.value, toUid, Pending)] &&
                        r.1.friends == l.friends && r.1.usersPublic == l.usersPublic && r.1.users == l.users
  {
    match SendGuard(caller, toUid, l)
    case Some(e) => (Err(e), l)
    case None =>
      var id := l.nextId;
      (Ok(id), l.(requests := l.requests[id := FriendRequest(caller.value, toUid, Pending)], nextId := id + 1))
  }

  /** acceptFriendRequest: only the addressee may accept; an accepted request is left as
      it is; otherwise (pending or rejected) it becomes accepted and the acceptor's edge to
      the sender is written. */
  function Accept(caller: Option<Uid>, id: RequestId, l: Ledger): (r: (Result<()>, Ledger))
    ensures caller.None? <==> r.0 == Err(Unauthenticated)
    ensures r.0 == Err(NotFound) <==> caller.Some? && id !in l.requests
    ensures r.0 == Err(PermissionDenied) <==>
              caller.Some? && id in l.requests && l.requests[id].toUid != caller.value
    ensures (caller.Some? && id in l.requests && l.requests[id].toUid == caller.value &&
             l.requests[id].status == Accepted) ==> r == (Ok(()), l)
    ensures r.0.Err? ==> r.1 == l
    ensures r.1.usersPublic == l.usersPublic && r.1.users == l.users && r.1.nextId == l.nextId
    ensures r.1.requests.Keys == l.requests.Keys
  {
    if caller.None? then (Err(Unauthenticated), l)
    else if id !in l.requests then (Err(NotFound), l)
    else
      var req := l.requests[id];
      if req.toUid != caller.value then (Err(PermissionDenied), l)
      else if req.status == Accepted then (Ok(()), l)
      else (Ok(()), l.(requests := l.requests[id := req.(status := Accepted)],
                       friends := l.friends + {(caller.value, req.fromUid)}))
  }

  /** rejectFriendRequest: either party may reject; a rejected request is left as it is;
      otherwise (pending or accepted) it becomes rejected. No edge is touched. */
  function Reject(caller: Option<Uid>, id: RequestId, l: Ledger): (r: (Result<()>, Ledger))
    ensures caller.None? <==> r.0 == Err(Unauthenticated)
    ensures r.0 == Err(NotFound) <==> caller.Some? && id !in l.requests
    ensures r.0 == Err(PermissionDenied) <==>
              caller.Some? && id in l.requests &&
              l.requests[id].fromUid != caller.value && l.requests[id].toUid != caller.value
    ensures (caller.Some? && id in l.requests &&
             (l.requests[id].fromUid == caller.value || l.requests[id].toUid == caller.value) &&
             l.requests[id].status == Rejected) ==> r == (Ok(()), l)
    ensures r.0.Err? ==> r.1 == l
    ensures r.1.usersPublic == l.usersPublic && r.1.users == l.users && r.1.nextId == l.nextId
    ensures r.1.friends == l.friends && r.1.requests.Keys == l.requests.Keys
  {
    if caller.None? then (Err(Unauthenticated), l)
    else if id !in l.requests then (Err(NotFound), l)
    else
      var req := l.requests[id];
      if req.fromUid != caller.value && req.toUid != caller.value then (Err(PermissionDenied), l)
      else if req.status == Rejected then (Ok(()), l)
      else (Ok(()), l.(requests := l.requests[id := req.(status := Rejected)]))
  }

  /** What getFriendProfile returns: the merged profile and whether the friend has an edge
      to the requester. */
  datatype FriendProfile = FriendProfile(profile: Doc, isFriend: bool)

  /** The private part shown to a friend: `unlockedIds || []` and `totalPoints || 0`. */
  function PrivateOf(d: Doc): (p: Doc)
    ensures p.Keys == {"unlockedIds", "totalPoints"}
    ensures Truthy(Field(d, "unlockedIds")) ==> p["unlockedIds"] == d["unlockedIds"]
    ensures Truthy(Field(d, "totalPoints")) ==> p["totalPoints"] == d["totalPoints"]
    ensures !Truthy(Field(d, "unlockedIds")) ==> p["unlockedIds"] == Arr([])
    ensures !Truthy(Field(d, "totalPoints")) ==> p["totalPoints"] == Num(0)
  {
    map["unlockedIds" := Or(Field(d, "unlockedIds"), Arr([])), "totalPoints" := Or(Field(d, "totalPoints"), Num(0))]
  }

  /** The private part shown to anyone else. */
  const Hidden: Doc := map["unlockedIds" := Arr([]), "totalPoints" := Num(0)]

  /** getFriendProfile: the target's public profile, overridden by the private part, which
      is real only when the target has an edge to the requester and a private document. */
  function GetFriendProfile(caller: Option<Uid>, friendUid: Uid, l: Ledger): (r: Result<FriendProfile>)
    ensures caller.None? <==> r == Err(Unauthenticated)
    ensures caller.Some? ==> r.Ok?
    ensures r.Ok? ==> (r.value.isFriend <==> (friendUid, caller.value) in l.friends)
    ensures r.Ok? && r.value.isFriend && friendUid in l.users ==>
              "unlockedIds" in r.value.profile && "totalPoints" in r.value.profile &&
              r.value.profile["unlockedIds"] == PrivateOf(l.users[friendUid])["unlockedIds"] &&
              r.value.profile["totalPoints"] == PrivateOf(l.users[friendUid])["totalPoints"]
    ensures r.Ok? && (!r.value.isFriend || friendUid !in l.users) ==>
              "unlockedIds" in r.value.profile && "totalPoints" in r.value.profile &&
              r.value.profile["unlockedIds"] == Arr([]) && r.value.profile["totalPoints"] == Num(0)
    ensures r.Ok? ==> forall k :: k in r.value.profile <==>
              (k == "unlockedIds" || k == "totalPoints" || (friendUid in l.usersPublic && k in l.usersPublic[friendUid]))
    ensures r.Ok? ==> forall k :: k in r.value.profile && k != "unlockedIds" && k != "totalPoints" ==>
              r.value.profile[k] == l.usersPublic[friendUid][k]
  {
    if caller.None? then Err(Unauthenticated)
    else
      var publicData: Doc := if friendUid in l.usersPublic then l.usersPublic[friendUid] else map[];
      var isFriend := (friendUid, caller.value) in l.friends;
      var privateData := if isFriend && friendUid in l.users then PrivateOf(l.users[friendUid]) else Hidden;
      Ok(FriendProfile(publicData + privateData, isFriend))
  }

  // ---------------------------------------------------------------------------
  // sendFriendRequest
  // ---------------------------------------------------------------------------

  /** A send succeeds exactly when the caller is signed in, names another user that has a
      public profile, has no edge to that user, and no live request joins the two in either
      direction. */
  lemma SendOkIff(caller: Option<Uid>, toUid: Uid, l: Ledger)
    requires Valid(l)
    ensures Send(caller, toUid, l).0.Ok? <==>
              caller.Some? && toUid != "" && toUid != caller.value && toUid in l.usersPublic &&
              (caller.value, toUid) !in l.friends &&
              !HasLive(l.requests, caller.value, toUid) && !HasLive(l.requests, toUid, caller.value)
  {
    if caller.Some? && HasLive(l.requests, toUid, caller.value) {
      var id: RequestId :| id in l.requests && LiveRequest(l.requests, id, toUid, caller.value);
      assert 0 <= id < l.nextId;
    }
  }

  /** The lowest-numbered live request from `from` to `to` exists and has status `s`. */
  predicate LowestLive(reqs: map<RequestId, FriendRequest>, from: Uid, to: Uid, s: Status) {
    exists id :: id in reqs && LiveRequest(reqs, id, from, to) && reqs[id].status == s &&
                            forall k :: 0 <= k < id ==> !LiveRequest(reqs, k, from, to)
  }

  /** In a valid ledger, the scan over all ids finds the lowest-numbered live request. */
  lemma FirstLiveIsLowest(l: Ledger, from: Uid, to: Uid, s: Status)
    requires Valid(l)
    ensures FirstLive(l.requests, from, to, 0, l.nextId) == Some(s) <==> LowestLive(l.requests, from, to, s)
  {
    if LowestLive(l.requests, from, to, s) {
      var id :| id in l.requests && LiveRequest(l.requests, id, from, to) && l.requests[id].status == s &&
                           forall k :: 0 <= k < id ==> !LiveRequest(l.requests, k, from, to);
      FirstLiveFrom(l.requests, from, to, 0, l.nextId, id);
    }
  }

  /** The conflict errors of a send, each exactly when the guards before it pass and its
      condition holds: a live request already goes the same way; the oldest live request
      the other way is pending; or the users are friends already, through the caller's
      edge or an accepted request the other way. */
  lemma SendErrorMeaning(caller: Option<Uid>, toUid: Uid, l: Ledger)
    requires Valid(l)
    ensures var e := Send(caller, toUid, l).0;
            var pass := caller.Some? && toUid != "" && toUid != caller.value && toUid in l.usersPublic;
            && (e == Err(AlreadyExists) <==>
                  pass && (caller.value, toUid) !in l.friends && HasLive(l.requests, caller.value, toUid))
            && (e == Err(ReversePending) <==>
                  pass && (caller.value, toUid) !in l.friends && !HasLive(l.requests, caller.value, toUid) &&
                  LowestLive(l.requests, toUid, caller.value, Pending))
            && (e == Err(AlreadyFriends) <==>
                  pass && ((caller.value, toUid) in l.friends ||
                           (!HasLive(l.requests, caller.value, toUid) && LowestLive(l.requests, toUid, caller.value, Accepted))))
  {
    if caller.Some? {
      FirstLiveIsLowest(l, toUid, caller.value, Pending);
      FirstLiveIsLowest(l, toUid, caller.value, Accepted);
    }
  }

  /** A successful send adds exactly one request, under an id not used before, and keeps
      the ledger valid; nothing else changes. */
  lemma SendAddsOneRequest(caller: Option<Uid>, toUid: Uid, l: Ledger)
    requires Valid(l)
    requires Send(caller, toUid, l).0.Ok?
    ensures var (r, l') := Send(caller, toUid, l);
            && r.value !in l.requests
            && l'.requests.Keys == l.requests.Keys + {r.value}
            && l'.requests[r.value] == FriendRequest(caller.value, toUid, Pending)
            && (forall id :: id in l.requests ==> l'.requests[id] == l.requests[id])
            && l'.friends == l.friends
            && Valid(l')
  {
  }

  /** The ledger without its rejected requests. */
  function DropRejected(l: Ledger): (l': Ledger)
    ensures forall id, a, b :: LiveRequest(l'.requests, id, a, b) <==> LiveRequest(l.requests, id, a, b)
    ensures forall id :: id in l'.requests ==> id in l.requests && l.requests[id].status != Rejected
  {
    l.(requests := map id | id in l.requests && l.requests[id].status != Rejected :: l.requests[id])
  }

  lemma {:induction false} FirstLiveIgnoresRejected(l: Ledger, from: Uid, to: Uid, lo: nat, hi: nat)
    ensures FirstLive(l.requests, from, to, lo, hi) == FirstLive(DropRejected(l).requests, from, to, lo, hi)
    decreases hi - lo
  {
    if lo < hi {
      var reqs, reqs' := l.requests, DropRejected(l).requests;
      assert LiveRequest(reqs, lo, from, to) <==> LiveRequest(reqs', lo, from, to);
      if LiveRequest(reqs, lo, from, to) {
        assert reqs'[lo] == reqs[lo];
      } else {
        FirstLiveIgnoresRejected(l, from, to, lo + 1, hi);
      }
    }
  }

  /** Rejected requests never block a send: the outcome is the same as if they had never
      been made. */
  lemma RejectedNeverBlocks(caller: Option<Uid>, toUid: Uid, l: Ledger)
    ensures Send(caller, toUid, l).0 == Send(caller, toUid, DropRejected(l)).0
  {
    if caller.Some? {
      FirstLiveIgnoresRejected(l, toUid, caller.value, 0, l.nextId);
      assert HasLive(l.requests, caller.value, toUid) <==> HasLive(DropRejected(l).requests, caller.value, toUid);
    }
  }

  /** Once a request from `a` to `b` went through, a request back from `b` to `a` fails;
      when no earlier guard stops it, it fails because the first request is pending. */
  lemma {:induction false} ReverseSendFails(a: Uid, b: Uid, l: Ledger)
    requires Valid(l)
    requires Send(Some(a), b, l).0.Ok?
    ensures var l' := Send(Some(a), b, l).1;
            && Send(Some(b), a, l').0.Err?
            && (a != "" && a in l'.usersPublic && (b, a) !in l'.friends && !HasLive(l'.requests, b, a) ==>
                  Send(Some(b), a, l').0 == Err(ReversePending))
  {
    var l' := Send(Some(a), b, l).1;
    var id := l.nextId;
    assert LiveRequest(l'.requests, id, a, b);
    SendOkIff(Some(a), b, l);
    forall k | 0 <= k < id ensures !LiveRequest(l'.requests, k, a, b) {
      if LiveRequest(l'.requests, k, a, b) {
        assert LiveRequest(l.requests, k, a, b);
        assert false;
      }
    }
    FirstLiveFrom(l'.requests, a, b, 0, l'.nextId, id);
  }

  /** The scan returns the status of a live request when no live request precedes it. */
  lemma {:induction false} FirstLiveFrom(reqs: map<RequestId, FriendRequest>, from: Uid, to: Uid, lo: nat, hi: nat, id: nat)
    requires lo <= id < hi && LiveRequest(reqs, id, from, to)
    requires forall k :: lo <= k < id ==> !LiveRequest(reqs, k, from, to)
    ensures FirstLive(reqs, from, to, lo, hi) == Some(reqs[id].status)
    decreases id - lo
  {
    if lo < id {
      FirstLiveFrom(reqs, from, to, lo + 1, hi, id);
    }
  }

  // ---------------------------------------------------------------------------
  // At most one live request between two users
  // ---------------------------------------------------------------------------

  predicate SamePair(x: FriendRequest, y: FriendRequest) {
    (x.fromUid == y.fromUid && x.toUid == y.toUid) || (x.fromUid == y.toUid && x.toUid == y.fromUid)
  }

  /** No two live requests join the same two users, in either direction. */
  predicate UniqueLive(l: Ledger) {
    forall i, j ::
      (i in l.requests && j in l.requests && Live(l.requests[i].status) && Live(l.requests[j].status) &&
       SamePair(l.requests[i], l.requests[j])) ==> i == j
  }

  lemma SendPreservesUniqueLive(caller: Option<Uid>, toUid: Uid, l: Ledger)
    requires Valid(l) && UniqueLive(l)
    ensures UniqueLive(Send(caller, toUid, l).1)
  {
    var (r, l') := Send(caller, toUid, l);
    if r.Ok? {
      SendOkIff(caller, toUid, l);
    }
  }

  lemma RejectPreservesUniqueLive(caller: Option<Uid>, id: RequestId, l: Ledger)
    requires UniqueLive(l)
    ensures UniqueLive(Reject(caller, id, l).1)
  {
  }

  /** Accepting a pending request keeps the invariant. */
  lemma AcceptPendingPreservesUniqueLive(caller: Option<Uid>, id: RequestId, l: Ledger)
    requires UniqueLive(l)
    requires id in l.requests && l.requests[id].status == Pending
    ensures UniqueLive(Accept(caller, id, l).1)
  {
    var l' := Accept(caller, id, l).1;
    forall i | i in l'.requests ensures Live(l'.requests[i].status) <==> Live(l.requests[i].status) {
    }
    forall i | i in l'.requests ensures l'.requests[i].fromUid == l.requests[i].fromUid && l'.requests[i].toUid == l.requests[i].toUid {
    }
  }

  /** Accepting a rejected request revives it even when a newer live request joins the
      same users, so accept does not keep the invariant in general. */
  lemma AcceptCanBreakUniqueLive()
    ensures var l := Ledger(map[], map[], {}, map[0 := FriendRequest("ana", "bia", Rejected),
                                                  1 := FriendRequest("ana", "bia", Pending)], 2);
            && Valid(l) && UniqueLive(l)
            && Accept(Some("bia"), 0, l).0.Ok?
            && !UniqueLive(Accept(Some("bia"), 0, l).1)
  {
    var l := Ledger(map[], map[], {}, map[0 := FriendRequest("ana", "bia", Rejected),
                                           1 := FriendRequest("ana", "bia", Pending)], 2);
    var l' := Accept(Some("bia"), 0, l).1;
    assert l'.requests[0].status == Accepted && l'.requests[1].status == Pending;
    assert SamePair(l'.requests[0], l'.requests[1]);
  }

  // ---------------------------------------------------------------------------
  // acceptFriendRequest and rejectFriendRequest
  // ---------------------------------------------------------------------------

  /** Accept succeeds exactly for the signed-in addressee of an existing request, whatever
      its status. */
  lemma AcceptOkIff(caller: Option<Uid>, id: RequestId, l: Ledger)
    ensures Accept(caller, id, l).0.Ok? <==>
              caller.Some? && id in l.requests && l.requests[id].toUid == caller.value
  {
  }

  /** A successful accept leaves the request accepted, changes no other request, and adds
      at most one edge: from the acceptor to the sender. The sender gets no edge back. */
  lemma AcceptWritesOneEdge(caller: Option<Uid>, id: RequestId, l: Ledger)
    requires Accept(caller, id, l).0.Ok?
    ensures var l' := Accept(caller, id, l).1;
            var req := l.requests[id];
            && l'.requests[id] == req.(status := Accepted)
            && (forall k :: k in l.requests && k != id ==> l'.requests[k] == l.requests[k])
            && l'.friends - l.friends <= {(caller.value, req.fromUid)}
            && l.friends <= l'.friends
            && (req.fromUid != caller.value ==>
                  ((req.fromUid, caller.value) in l'.friends <==> (req.fromUid, caller.value) in l.friends))
            && (req.status != Accepted ==> (caller.value, req.fromUid) in l'.friends)
  {
  }

  /** Accepting twice is accepting once. */
  lemma AcceptIdempotent(caller: Option<Uid>, id: RequestId, l: Ledger)
    ensures var l' := Accept(caller, id, l).1;
            Accept(caller, id, l') == (Accept(caller, id, l).0, l')
  {
  }

  /** A rejected request can still be accepted, and that makes the two users friends on the
      acceptor's side. */
  lemma AcceptRevivesRejected(caller: Uid, id: RequestId, l: Ledger)
    requires id in l.requests && l.requests[id].status == Rejected && l.requests[id].toUid == caller
    ensures var (r, l') := Accept(Some(caller), id, l);
            r.Ok? && l'.requests[id].status == Accepted && (caller, l.requests[id].fromUid) in l'.friends
  {
  }

  /** Reject succeeds exactly for a signed-in party of an existing request, whatever its
      status. */
  lemma RejectOkIff(caller: Option<Uid>, id: RequestId, l: Ledger)
    ensures Reject(caller, id, l).0.Ok? <==>
              caller.Some? && id in l.requests &&
              (l.requests[id].fromUid == caller.value || l.requests[id].toUid == caller.value)
  {
  }

  /** A successful reject leaves the request rejected, whatever it was, even accepted, and
      changes no other request and no edge: an accepted friendship's edge survives. */
  lemma RejectOverwritesAccepted(caller: Option<Uid>, id: RequestId, l: Ledger)
    requires Reject(caller, id, l).0.Ok?
    ensures var l' := Reject(caller, id, l).1;
            && l'.requests[id] == l.requests[id].(status := Rejected)
            && (forall k :: k in l.requests && k != id ==> l'.requests[k] == l.requests[k])
            && l'.friends == l.friends
  {
  }

  /** Rejecting twice is rejecting once. */
  lemma RejectIdempotent(caller: Option<Uid>, id: RequestId, l: Ledger)
    ensures var l' := Reject(caller, id, l).1;
            Reject(caller, id, l') == (Reject(caller, id, l).0, l')
  {
  }

  // ---------------------------------------------------------------------------
  // The friendship round trip
  // ---------------------------------------------------------------------------

  /** `a` sends a request to `b` and `b` accepts it. Afterwards `a` sees `b`'s private
      progress, because `b` now has an edge to `a`; `b` sees `a`'s only if `a` already had an
      edge to `b`, since the accept writes no mirror. */
  lemma {:induction false} SendAcceptRoundTrip(a: Uid, b: Uid, l: Ledger)
    requires Valid(l)
    requires Send(Some(a), b, l).0.Ok?
    requires b in l.users
    ensures var (s, l1) := Send(Some(a), b, l);
            var (r, l2) := Accept(Some(b), s.value, l1);
            && r.Ok?
            && (b, a) in l2.friends
            && GetFriendProfile(Some(a), b, l2).value.isFriend
            && GetFriendProfile(Some(a), b, l2).value.profile["totalPoints"] ==
                 Or(Field(l.users[b], "totalPoints"), Num(0))
            && (GetFriendProfile(Some(b), a, l2).value.isFriend <==> (a, b) in l.friends)
  {
    var (s, l1) := Send(Some(a), b, l);
    SendOkIff(Some(a), b, l);
    assert l1.requests[s.value] == FriendRequest(a, b, Pending);
    var l2 := Accept(Some(b), s.value, l1).1;
    assert l2.friends == l.friends + {(b, a)};
    assert l2.users == l.users;
    var p := GetFriendProfile(Some(a), b, l2).value.profile;
    assert p == (if b in l2.usersPublic then l2.usersPublic[b] else map[]) + PrivateOf(l.users[b]);
  }
}
