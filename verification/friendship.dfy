/** models/Friend.php: friend requests that move from pending to accepted
    or declined, and friendship stored as two directed `friends` rows.
    Request rows are never deleted. */
module Friendship {
  import opened Wrappers

  datatype Status = Pending | Accepted | Declined

  /** A `friend_requests` row (its id is the map key). */
  datatype Request = Request(sender: int, receiver: int, status: Status)

  /** The two tables: requests keyed by auto-increment id, and the directed
      `(user1_id, user2_id)` rows of `friends`. */
  datatype Store = Store(requests: map<int, Request>, edges: set<(int, int)>, nextId: int)

  /** The empty database: no requests, no friendships, ids start at 1. */
  const Empty: Store := Store(map[], {}, 1)

  /** The request joins `a` and `b`, in either direction. */
  predicate Between(r: Request, a: int, b: int) {
    (r.sender == a && r.receiver == b) || (r.sender == b && r.receiver == a)
  }

  /** Some request row of any status joins the pair. */
  predicate HasRequestBetween(s: Store, a: int, b: int) {
    exists id | id in s.requests :: Between(s.requests[id], a, b)
  }

  /** Some `friends` row joins the pair, in either direction. */
  predicate HasEdgeBetween(s: Store, a: int, b: int) {
    (a, b) in s.edges || (b, a) in s.edges
  }

  /** `areFriends`: looks only for the row `(a, b)`. */
  predicate AreFriends(s: Store, a: int, b: int) {
    (a, b) in s.edges
  }

  // ---------------------------------------------------------------------
  // Invariants

  /** Either both directed rows of a friendship exist or neither does. */
  ghost predicate Symmetric(edges: set<(int, int)>) {
    forall a, b | (a, b) in edges :: (b, a) in edges
  }

  /** No two request rows join the same unordered pair. */
  ghost predicate OneRequestPerPair(requests: map<int, Request>) {
    forall i, j | i in requests && j in requests && i != j ::
      !Between(requests[i], requests[j].sender, requests[j].receiver)
  }

  /** Every friendship row is backed by an accepted request for the pair. */
  ghost predicate EdgesBacked(s: Store) {
    forall a, b | (a, b) in s.edges ::
      exists id | id in s.requests :: Between(s.requests[id], a, b) && s.requests[id].status == Accepted
  }

  ghost predicate IdsBelow(s: Store) {
    forall id | id in s.requests :: id < s.nextId
  }

  ghost predicate Valid(s: Store) {
    Symmetric(s.edges) && OneRequestPerPair(s.requests) && EdgesBacked(s) && IdsBelow(s)
  }

  // ---------------------------------------------------------------------
  // Operations

  /** `sendRequest`: refused (false) when any request of any status, or any
      friendship row, already joins the pair in either direction; otherwise
      inserts one pending request from `sender` to `receiver` and returns
      its id. */
  function SendRequest(s: Store, sender: int, receiver: int): (r: (Option<int>, Store))
    ensures r.0.None? <==> HasRequestBetween(s, sender, receiver) || HasEdgeBetween(s, sender, receiver)
    ensures r.0.None? ==> r.1 == s
    ensures r.0.Some? ==>
      && r.0.value == s.nextId
      && r.1.requests == s.requests[r.0.value := Request(sender, receiver, Pending)]
      && r.1.edges == s.edges
      && r.1.nextId > r.0.value
  {
    if HasRequestBetween(s, sender, receiver) then (None, s)
    else if HasEdgeBetween(s, sender, receiver) then (None, s)
    else
      var id := s.nextId;
      (Some(id), Store(s.requests[id := Request(sender, receiver, Pending)], s.edges, id + 1))
  }

  /** The guard shared by accept and decline: a pending request with this
      id whose receiver is `receiver`. */
  predicate IsPendingFor(s: Store, id: int, receiver: int) {
    id in s.requests && s.requests[id].receiver == receiver && s.requests[id].status == Pending
  }

  /** `acceptRequest`: unless a pending request with this id has `receiver`
      as its receiver, false and nothing changes. Otherwise, as one
      transaction, the request becomes accepted and both directed rows are
      inserted. */
  function AcceptRequest(s: Store, id: int, receiver: int): (r: (bool, Store))
    ensures r.0 <==> IsPendingFor(s, id, receiver)
    ensures !r.0 ==> r.1 == s
    ensures r.0 ==>
      && r.1.requests == s.requests[id := s.requests[id].(status := Accepted)]
      && r.1.edges == s.edges + {(s.requests[id].sender, receiver), (receiver, s.requests[id].sender)}
      && r.1.nextId == s.nextId
  {
    if !IsPendingFor(s, id, receiver) then (false, s)
    else
      var req := s.requests[id];
      (true, Store(s.requests[id := req.(status := Accepted)],
                   s.edges + {(req.sender, req.receiver), (req.receiver, req.sender)},
                   s.nextId))
  }

  /** `declineRequest`: the guarded update from pending to declined; true
      iff a row changed. */
  function DeclineRequest(s: Store, id: int, receiver: int): (r: (bool, Store))
    ensures r.0 <==> IsPendingFor(s, id, receiver)
    ensures !r.0 ==> r.1 == s
    ensures r.0 ==> r.1 == s.(requests := s.requests[id := s.requests[id].(status := Declined)])
  {
    if !IsPendingFor(s, id, receiver) then (false, s)
    else (true, s.(requests := s.requests[id := s.requests[id].(status := Declined)]))
  }

  /** `removeFriend`: deletes both directed rows in one transaction and
      reports success whether or not they existed. Requests are untouched. */
  function RemoveFriend(s: Store, a: int, b: int): (r: (bool, Store))
    ensures r.0
    ensures !HasEdgeBetween(r.1, a, b)
    ensures r.1.requests == s.requests && r.1.nextId == s.nextId
    ensures forall x, y | (x, y) in s.edges :: (x, y) in r.1.edges <==> !((x == a && y == b) || (x == b && y == a))
    ensures r.1.edges <= s.edges
  {
    (true, s.(edges := s.edges - {(a, b), (b, a)}))
  }

  /** `getFriends`: the users named by the rows `(u, v)`; the join with
      `users` drops ids of users that no longer exist. */
  function GetFriends(s: Store, userIds: set<int>, u: int): (r: set<int>)
    ensures forall v :: v in r <==> (u, v) in s.edges && v in userIds
  {
    set e | e in s.edges && e.0 == u && e.1 in userIds :: e.1
  }

  /** `getPendingRequests`: ids of the pending requests addressed to `u`
      whose sender still exists. */
  function GetPendingRequests(s: Store, userIds: set<int>, u: int): (r: set<int>)
    ensures forall id :: id in r <==>
      id in s.requests && s.requests[id].receiver == u && s.requests[id].status == Pending &&
      s.requests[id].sender in userIds
  {
    set id | id in s.requests && s.requests[id].receiver == u && s.requests[id].status == Pending &&
             s.requests[id].sender in userIds
  }

  // ---------------------------------------------------------------------
  // Invariant preservation

  lemma EmptyValid()
    ensures Valid(Empty)
  {
  }

  lemma SendPreservesValid(s: Store, sender: int, receiver: int)
    requires Valid(s)
    ensures Valid(SendRequest(s, sender, receiver).1)
  {
    var (r, s') := SendRequest(s, sender, receiver);
    if r.Some? {
      var id := r.value;
      forall i, j | i in s'.requests && j in s'.requests && i != j
        ensures !Between(s'.requests[i], s'.requests[j].sender, s'.requests[j].receiver)
      {
        if i == id {
          assert !Between(s.requests[j], sender, receiver);
        } else if j == id {
          assert !Between(s.requests[i], sender, receiver);
        }
      }
      forall a, b | (a, b) in s'.edges
        ensures exists k | k in s'.requests :: Between(s'.requests[k], a, b) && s'.requests[k].status == Accepted
      {
        var k :| k in s.requests && Between(s.requests[k], a, b) && s.requests[k].status == Accepted;
        assert k != id;
        assert s'.requests[k] == s.requests[k];
      }
    }
  }

  /** A pending request means no friendship row joins the pair: a row needs
      an accepted request for the pair, and the pair has only one. */
  lemma PendingMeansNoEdge(s: Store, id: int)
    requires Valid(s)
    requires id in s.requests && s.requests[id].status == Pending
    ensures !HasEdgeBetween(s, s.requests[id].sender, s.requests[id].receiver)
  {
    var req := s.requests[id];
    forall k | k in s.requests && Between(s.requests[k], req.sender, req.receiver)
      ensures k == id
    {
    }
  }

  lemma AcceptPreservesValid(s: Store, id: int, receiver: int)
    requires Valid(s)
    ensures Valid(AcceptRequest(s, id, receiver).1)
  {
    var (ok, s') := AcceptRequest(s, id, receiver);
    if ok {
      var req := s.requests[id];
      assert OneRequestPerPair(s'.requests) by {
        forall i, j | i in s'.requests && j in s'.requests && i != j
          ensures !Between(s'.requests[i], s'.requests[j].sender, s'.requests[j].receiver)
        {
          assert !Between(s.requests[i], s.requests[j].sender, s.requests[j].receiver);
        }
      }
      forall a, b | (a, b) in s'.edges
        ensures exists k | k in s'.requests :: Between(s'.requests[k], a, b) && s'.requests[k].status == Accepted
      {
        if (a, b) in s.edges {
          var k :| k in s.requests && Between(s.requests[k], a, b) && s.requests[k].status == Accepted;
          assert k != id;
          assert s'.requests[k] == s.requests[k];
        } else {
          assert Between(s'.requests[id], a, b) && s'.requests[id].status == Accepted;
        }
      }
    }
  }

  lemma DeclinePreservesValid(s: Store, id: int, receiver: int)
    requires Valid(s)
    ensures Valid(DeclineRequest(s, id, receiver).1)
  {
    var (ok, s') := DeclineRequest(s, id, receiver);
    if ok {
      assert OneRequestPerPair(s'.requests) by {
        forall i, j | i in s'.requests && j in s'.requests && i != j
          ensures !Between(s'.requests[i], s'.requests[j].sender, s'.requests[j].receiver)
        {
          assert !Between(s.requests[i], s.requests[j].sender, s.requests[j].receiver);
        }
      }
      forall a, b | (a, b) in s'.edges
        ensures exists k | k in s'.requests :: Between(s'.requests[k], a, b) && s'.requests[k].status == Accepted
      {
        var k :| k in s.requests && Between(s.requests[k], a, b) && s.requests[k].status == Accepted;
        assert k != id;
        assert s'.requests[k] == s.requests[k];
      }
    }
  }

  lemma RemovePreservesValid(s: Store, a: int, b: int)
    requires Valid(s)
    ensures Valid(RemoveFriend(s, a, b).1)
  {
    var s' := RemoveFriend(s, a, b).1;
    forall x, y | (x, y) in s'.edges
      ensures exists k | k in s'.requests :: Between(s'.requests[k], x, y) && s'.requests[k].status == Accepted
    {
      assert (x, y) in s.edges;
    }
  }

  // ---------------------------------------------------------------------
  // Sequences of operations

  /** One call into the friendship model. */
  datatype Op =
    | Send(sender: int, receiver: int)
    | Accept(acceptId: int, acceptReceiver: int)
    | Decline(declineId: int, declineReceiver: int)
    | Remove(a: int, b: int)

  function Apply(s: Store, op: Op): (s': Store)
    ensures IdsBelow(s) ==>
              forall id | id in s.requests ::
                && id in s'.requests
                && s'.requests[id].sender == s.requests[id].sender
                && s'.requests[id].receiver == s.requests[id].receiver
  {
    match op
    case Send(x, y) => SendRequest(s, x, y).1
    case Accept(id, u) => AcceptRequest(s, id, u).1
    case Decline(id, u) => DeclineRequest(s, id, u).1
    case Remove(x, y) => RemoveFriend(s, x, y).1
  }

  function Run(s: Store, ops: seq<Op>): Store
    decreases |ops|
  {
    if |ops| == 0 then s else Run(Apply(s, ops[0]), ops[1..])
  }

  lemma ApplyPreservesValid(s: Store, op: Op)
    requires Valid(s)
    ensures Valid(Apply(s, op))
  {
    match op
    case Send(x, y) => SendPreservesValid(s, x, y);
    case Accept(id, u) => AcceptPreservesValid(s, id, u);
    case Decline(id, u) => DeclinePreservesValid(s, id, u);
    case Remove(x, y) => RemovePreservesValid(s, x, y);
  }

  /** Every state reachable from a valid one is valid: friendship rows stay
      symmetric and each unordered pair has at most one request. */
  lemma {:induction false} RunPreservesValid(s: Store, ops: seq<Op>)
    requires Valid(s)
    ensures Valid(Run(s, ops))
    decreases |ops|
  {
    if |ops| > 0 {
      ApplyPreservesValid(s, ops[0]);
      RunPreservesValid(Apply(s, ops[0]), ops[1..]);
    }
  }

  /** Request rows are never deleted and never change their endpoints. */
  lemma {:induction false} RequestsPersist(s: Store, ops: seq<Op>, id: int)
    requires Valid(s) && id in s.requests
    ensures id in Run(s, ops).requests
    ensures Run(s, ops).requests[id].sender == s.requests[id].sender
    ensures Run(s, ops).requests[id].receiver == s.requests[id].receiver
    decreases |ops|
  {
    if |ops| > 0 {
      ApplyPreservesValid(s, ops[0]);
      RequestsPersist(Apply(s, ops[0]), ops[1..], id);
    }
  }

  /** Once any request has joined a pair, in any status, no later request
      between them can ever be sent, in either direction: a declined pair,
      or a pair whose friendship was removed, stays blocked. */
  lemma NeverReRequested(s: Store, ops: seq<Op>, a: int, b: int)
    requires Valid(s) && HasRequestBetween(s, a, b)
    ensures SendRequest(Run(s, ops), a, b).0.None?
    ensures SendRequest(Run(s, ops), b, a).0.None?
  {
    var id :| id in s.requests && Between(s.requests[id], a, b);
    RequestsPersist(s, ops, id);
    var s' := Run(s, ops);
    assert Between(s'.requests[id], a, b);
    assert Between(s'.requests[id], b, a);
  }

  // ---------------------------------------------------------------------
  // Consequences

  /** With symmetric rows the one-directional `areFriends` is symmetric. */
  lemma AreFriendsSymmetric(s: Store, a: int, b: int)
    requires Valid(s)
    ensures AreFriends(s, a, b) == AreFriends(s, b, a)
  {
  }

  /** `getFriends(u)` is exactly the existing users who are friends with
      `u`, whichever direction is asked. */
  lemma GetFriendsIsNeighbourhood(s: Store, userIds: set<int>, u: int, v: int)
    requires Valid(s)
    ensures v in GetFriends(s, userIds, u) <==> v in userIds && AreFriends(s, v, u)
  {
  }

  /** A request sent between two users with no history, then accepted by
      its receiver, makes them friends in both directions. */
  lemma SendThenAcceptMakesFriends(s: Store, sender: int, receiver: int)
    requires Valid(s)
    requires !HasRequestBetween(s, sender, receiver) && !HasEdgeBetween(s, sender, receiver)
    ensures SendRequest(s, sender, receiver).0.Some?
    ensures var (id, s1) := SendRequest(s, sender, receiver);
            var (ok, s2) := AcceptRequest(s1, id.value, receiver);
            ok && AreFriends(s2, sender, receiver) && AreFriends(s2, receiver, sender)
  {
  }

  /** Accepting inserts rows that did not exist yet, so the set of rows
      counts them faithfully: before the accept the pair has zero rows,
      after it two. */
  lemma AcceptAddsTwoFreshRows(s: Store, id: int, receiver: int)
    requires Valid(s) && IsPendingFor(s, id, receiver)
    ensures var sender := s.requests[id].sender;
            && (sender, receiver) !in s.edges && (receiver, sender) !in s.edges
            && (sender, receiver) in AcceptRequest(s, id, receiver).1.edges
            && (receiver, sender) in AcceptRequest(s, id, receiver).1.edges
  {
    PendingMeansNoEdge(s, id);
  }

  /** Removing a friendship twice is removing it once. */
  lemma RemoveIdempotent(s: Store, a: int, b: int)
    ensures RemoveFriend(RemoveFriend(s, a, b).1, a, b) == RemoveFriend(s, a, b)
  {
    var once := RemoveFriend(s, a, b).1;
    assert once.edges - {(a, b), (b, a)} == once.edges;
  }

  /** After removal neither user sees the other as a friend. */
  lemma RemoveEndsFriendship(s: Store, a: int, b: int)
    ensures !AreFriends(RemoveFriend(s, a, b).1, a, b) && !AreFriends(RemoveFriend(s, a, b).1, b, a)
  {
  }
}
