/** react-example/Friends.js: the people search and the local list updates
    after each friend action. Every update runs only when the server
    reported success; `success` is that answer. */
module FriendsPage {
  import opened Wrappers
  import Js

  /** The fields the page reads are JavaScript properties; `None` stands
      for one the record does not carry (`undefined`). The server's user
      and friend records carry `id`, `username` and `profile_picture` only
      (api/users.php:102-106, api/friends.php:88-92), so `email` is `None`
      for them. */
  datatype UserEntry = UserEntry(id: int, username: string, email: Option<string>)
  datatype FriendEntry = FriendEntry(id: Option<int>, username: Option<string>, email: Option<string>)
  /** A request received, with the `user_id`, `user_name` and `user_email`
      properties the page reads. The server's pending records carry
      `sender_id` and `sender_name` instead (api/friends.php:64-70), so for
      them all three are `None`. */
  datatype Received = Received(id: int, userId: Option<int>, userName: Option<string>, userEmail: Option<string>)
  /** A request sent: `friendId` is its receiver. */
  datatype Sent = Sent(id: int, friendId: int, friendName: string, friendEmail: Option<string>, status: string)

  /** The page's four lists. */
  datatype Page = Page(users: seq<UserEntry>, friends: seq<FriendEntry>, pending: seq<Received>, sent: seq<Sent>)

  /** A user the record of the server describes: no email. */
  predicate FromServer(u: UserEntry) {
    u.email.None?
  }

  /** A received request as the server sends it: no `user_*` fields. */
  predicate ReceivedFromServer(r: Received) {
    r.userId.None? && r.userName.None? && r.userEmail.None?
  }

  /** The user already has a connection shown on the page: a friend, the
      `user_id` of a received request or the receiver of a sent one. An
      undefined id never equals a user's id. */
  predicate Connected(p: Page, id: int) {
    (exists f | f in p.friends :: f.id == Some(id)) ||
    (exists r | r in p.pending :: r.userId == Some(id)) ||
    (exists s | s in p.sent :: s.friendId == id)
  }

  /** The search test of one user: the term occurs in the username or the
      email, ignoring case. The email is read only when the username
      misses, and reading `toLowerCase` of an undefined email throws:
      `None`. */
  function MatchesSearch(u: UserEntry, term: string): (r: Option<bool>)
    ensures r.None? <==> !Js.Includes(Js.Lower(u.username), Js.Lower(term)) && u.email.None?
    ensures r == Some(true) <==>
              Js.Includes(Js.Lower(u.username), Js.Lower(term)) ||
              (u.email.Some? && Js.Includes(Js.Lower(u.email.value), Js.Lower(term)))
  {
    if Js.Includes(Js.Lower(u.username), Js.Lower(term)) then Some(true)
    else if u.email.None? then None
    else Some(Js.Includes(Js.Lower(u.email.value), Js.Lower(term)))
  }

  /** The filter effect: the users that match the term and are not
      connected, in list order; `None` when the search test throws for
      some user, which aborts the whole filter. */
  function Candidates(p: Page, term: string): (r: Option<seq<UserEntry>>)
    ensures |p.users| == 0 ==> r == Some([])
  {
    if |p.users| == 0 then Some([])
    else if exists v | v in p.users :: MatchesSearch(v, term).None? then None
    else
      var friendIds := Js.Map(p.friends, (f: FriendEntry) => f.id);
      var pendingIds := Js.Map(p.pending, (r: Received) => r.userId);
      var sentIds := Js.Map(p.sent, (s: Sent) => s.friendId);
      Some(Js.Filter(p.users, (u: UserEntry) =>
        MatchesSearch(u, term) == Some(true) &&
        Some(u.id) !in friendIds && Some(u.id) !in pendingIds && u.id !in sentIds))
  }

  /** The filter throws iff some user's search test throws; otherwise a
      user is listed iff they match the search and have no connection on
      the page. */
  lemma CandidatesIff(p: Page, term: string, u: UserEntry)
    ensures Candidates(p, term).None? <==> exists v | v in p.users :: MatchesSearch(v, term).None?
    ensures Candidates(p, term).Some? ==>
              (u in Candidates(p, term).value <==>
                 u in p.users && MatchesSearch(u, term) == Some(true) && !Connected(p, u.id))
  {
    if u in p.users && Candidates(p, term).Some? {
      var friendIds := Js.Map(p.friends, (f: FriendEntry) => f.id);
      var pendingIds := Js.Map(p.pending, (r: Received) => r.userId);
      var sentIds := Js.Map(p.sent, (s: Sent) => s.friendId);
      if Some(u.id) in friendIds {
        var i :| 0 <= i < |friendIds| && friendIds[i] == Some(u.id);
        assert p.friends[i] in p.friends;
      }
      if Some(u.id) in pendingIds {
        var i :| 0 <= i < |pendingIds| && pendingIds[i] == Some(u.id);
        assert p.pending[i] in p.pending;
      }
      if u.id in sentIds {
        var i :| 0 <= i < |sentIds| && sentIds[i] == u.id;
        assert p.sent[i] in p.sent;
      }
      if Connected(p, u.id) {
        if f :| f in p.friends && f.id == Some(u.id) {
          var i :| 0 <= i < |p.friends| && p.friends[i] == f;
          assert friendIds[i] == Some(u.id);
        } else if r :| r in p.pending && r.userId == Some(u.id) {
          var i :| 0 <= i < |p.pending| && p.pending[i] == r;
          assert pendingIds[i] == Some(u.id);
        } else {
          var s :| s in p.sent && s.friendId == u.id;
          var i :| 0 <= i < |p.sent| && p.sent[i] == s;
          assert sentIds[i] == u.id;
        }
      }
    }
  }

  /** With the server's records, a non-empty term that misses some user's
      username makes the filter throw: that user has no email to search. */
  lemma ServerUsersThrowOnMiss(p: Page, term: string, u: UserEntry)
    requires u in p.users && FromServer(u)
    requires !Js.Includes(Js.Lower(u.username), Js.Lower(term))
    ensures Candidates(p, term).None?
  {
    CandidatesIff(p, term, u);
  }

  /** With the server's pending records, received requests never hide a
      user: no `user_id` is ever defined. */
  lemma ServerRequestsHideNoOne(p: Page, id: int)
    requires forall r | r in p.pending :: ReceivedFromServer(r)
    ensures Connected(p, id) <==>
              (exists f | f in p.friends :: f.id == Some(id)) || (exists s | s in p.sent :: s.friendId == id)
  {
  }

  /** An empty search term matches everyone, so only the connection filter
      applies. */
  lemma EmptyTermMatchesAll(u: UserEntry)
    ensures MatchesSearch(u, "") == Some(true)
  {
    assert Js.OccursAt(Js.Lower(u.username), Js.Lower(""), 0);
  }

  /** The signed-in user is not filtered out: nothing on the page removes
      their own entry, whatever the comment in the source says. */
  lemma SelfNotExcluded(p: Page, me: UserEntry)
    requires me in p.users && !Connected(p, me.id)
    ensures Candidates(p, "").Some? && me in Candidates(p, "").value
  {
    forall v | v in p.users
      ensures MatchesSearch(v, "") == Some(true)
    {
      EmptyTermMatchesAll(v);
    }
    CandidatesIff(p, "", me);
  }

  /** `handleAcceptRequest`: the request found leaves the pending list and
      a friend built from its `user_*` fields joins the friends. */
  function Accept(p: Page, requestId: int, success: bool): (r: Page)
  {
    if !success then p
    else match Js.Find(p.pending, (q: Received) => q.id == requestId)
      case None => p
      case Some(q) =>
        p.(pending := Js.Filter(p.pending, (x: Received) => x.id != requestId),
           friends := p.friends + [FriendEntry(q.userId, q.userName, q.userEmail)])
  }

  /** After a successful accept of a listed request (request ids are
      distinct, as the server's are), no request with that id is pending,
      the last friend carries the request's `user_*` fields, and users and
      sent requests are unchanged. For a request as the server sends it,
      the new friend has no id, name or email, so it hides no candidate. */
  lemma AcceptMovesRequest(p: Page, q: Received)
    requires q in p.pending
    requires forall x | x in p.pending && x.id == q.id :: x == q
    ensures var r := Accept(p, q.id, true);
            && (forall x | x in r.pending :: x.id != q.id)
            && (forall x | x in p.pending && x.id != q.id :: x in r.pending)
            && |r.friends| == |p.friends| + 1
            && r.friends[..|p.friends|] == p.friends
            && r.friends[|p.friends|] == FriendEntry(q.userId, q.userName, q.userEmail)
            && r.users == p.users && r.sent == p.sent
    ensures ReceivedFromServer(q) ==>
              var r := Accept(p, q.id, true);
              && r.friends[|p.friends|] == FriendEntry(None, None, None)
              && forall id :: Connected(r, id) <==> Connected(p.(pending := r.pending), id)
  {
    var r := Accept(p, q.id, true);
    if ReceivedFromServer(q) {
      forall id
        ensures Connected(r, id) <==> Connected(p.(pending := r.pending), id)
      {
        if exists f | f in r.friends :: f.id == Some(id) {
          var f :| f in r.friends && f.id == Some(id);
          var i :| 0 <= i < |r.friends| && r.friends[i] == f;
          assert i < |p.friends|;
          assert p.friends[i] == f;
        }
      }
    }
  }

  /** Rejecting removes the received requests with that id. */
  function Reject(p: Page, requestId: int, success: bool): (r: Page)
    ensures r.friends == p.friends && r.sent == p.sent && r.users == p.users
    ensures |r.pending| <= |p.pending|
  {
    if success then p.(pending := Js.Filter(p.pending, (x: Received) => x.id != requestId)) else p
  }

  /** Removing a friend removes the friend entries with that id. */
  function RemoveFriend(p: Page, friendId: int, success: bool): (r: Page)
    ensures r.pending == p.pending && r.sent == p.sent && r.users == p.users
    ensures |r.friends| <= |p.friends|
  {
    if success then p.(friends := Js.Filter(p.friends, (x: FriendEntry) => x.id != Some(friendId))) else p
  }

  /** Cancelling removes the sent requests with that id. */
  function Cancel(p: Page, requestId: int, success: bool): (r: Page)
    ensures r.pending == p.pending && r.friends == p.friends && r.users == p.users
    ensures |r.sent| <= |p.sent|
  {
    if success then p.(sent := Js.Filter(p.sent, (x: Sent) => x.id != requestId)) else p
  }

  /** Reject, remove and cancel each drop exactly the entries with the
      given id from their own list and leave the other lists alone; a
      failed call changes nothing. */
  lemma RemovalsTouchOnlyTheirId(p: Page, id: int, success: bool)
    ensures var r := Reject(p, id, success);
            && (forall x :: x in r.pending <==> x in p.pending && (success ==> x.id != id))
            && r.friends == p.friends && r.sent == p.sent && r.users == p.users
    ensures var r := RemoveFriend(p, id, success);
            && (forall x :: x in r.friends <==> x in p.friends && (success ==> x.id != Some(id)))
            && r.pending == p.pending && r.sent == p.sent && r.users == p.users
    ensures var r := Cancel(p, id, success);
            && (forall x :: x in r.sent <==> x in p.sent && (success ==> x.id != id))
            && r.pending == p.pending && r.friends == p.friends && r.users == p.users
  {
  }

  /** `handleSendRequest`: one pending entry for the user. Its id is the one
      the server returned or, failing that, `now` (`Date.now()`); name and
      email come from the user list, with "User" and "" when the user is
      not listed. */
  function Send(p: Page, userId: int, success: bool, returnedId: Option<int>, now: int): (r: Page)
  {
    if !success then p
    else
      var found := Js.Find(p.users, (u: UserEntry) => u.id == userId);
      var id := if returnedId.Some? && returnedId.value != 0 then returnedId.value else now;
      p.(sent := p.sent + [Sent(id, userId,
                                if found.Some? then found.value.username else "User",
                                if found.Some? then found.value.email else Some(""),
                                "pending")])
  }

  /** A successful send appends exactly one pending entry for that user, so
      the user leaves the candidate list. */
  lemma SendAppendsOnePending(p: Page, userId: int, returnedId: Option<int>, now: int, term: string)
    ensures var r := Send(p, userId, true, returnedId, now);
            && |r.sent| == |p.sent| + 1
            && r.sent[..|p.sent|] == p.sent
            && r.sent[|p.sent|].friendId == userId
            && r.sent[|p.sent|].status == "pending"
            && r.users == p.users && r.friends == p.friends && r.pending == p.pending
            && forall u | Candidates(r, term).Some? && u in Candidates(r, term).value :: u.id != userId
  {
    var r := Send(p, userId, true, returnedId, now);
    forall u | Candidates(r, term).Some? && u in Candidates(r, term).value
      ensures u.id != userId
    {
      CandidatesIff(r, term, u);
    }
  }
}
