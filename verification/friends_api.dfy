/** api/friends.php: listing friends and incoming requests, sending a
    request, accepting or declining one, and ending a friendship. Every
    route needs a valid token. */
module FriendsApi {
  import opened Wrappers
  import Php
  import Jwt
  import Users
  import UserSettings
  import Friendship
  import Database

  datatype Request =
    | Get(requestsPath: bool)
    | Post(receiverId: Php.Loose)
    | Put(putRequestsPath: bool, requestSeg: Database.Seg, action: Option<string>)
    | Delete(userSeg: Database.Seg)
    | OtherMethod

  datatype Reply =
    | Message(code: int, message: string)
    | PendingList(requestIds: set<int>)
    | FriendList(userIds: set<int>)
    | RequestSent(requestId: int)

  function Code(r: Reply): int {
    match r
    case Message(code, _) => code
    case PendingList(_) => 200
    case FriendList(_) => 200
    case RequestSent(_) => 201
  }

  const NotAccepting := "This user does not accept friend requests."
  const CouldNotSend := "Friend request could not be sent. You might already be friends or have a pending request."
  const InvalidAction := "Invalid action. Use 'accept' or 'decline'."

  /** Accepting or declining the request a numeric segment names: a
      segment with a fraction names no request, so the lookup fails. */
  function AcceptSeg(store: Friendship.Store, seg: Database.Seg, caller: int): (r: (bool, Friendship.Store))
    ensures seg.Id? ==> r == Friendship.AcceptRequest(store, seg.n, caller)
    ensures !seg.Id? ==> r == (false, store)
  {
    if seg.Id? then Friendship.AcceptRequest(store, seg.n, caller) else (false, store)
  }

  function DeclineSeg(store: Friendship.Store, seg: Database.Seg, caller: int): (r: (bool, Friendship.Store))
    ensures seg.Id? ==> r == Friendship.DeclineRequest(store, seg.n, caller)
    ensures !seg.Id? ==> r == (false, store)
  {
    if seg.Id? then Friendship.DeclineRequest(store, seg.n, caller) else (false, store)
  }

  function Route(db: Database.Db, caller: int, req: Request): (r: (Reply, Database.Db))
  {
    match req
    case Get(requestsPath) =>
      if requestsPath then (PendingList(Friendship.GetPendingRequests(db.friends, Users.Ids(db.users), caller)), db)
      else (FriendList(Friendship.GetFriends(db.friends, Users.Ids(db.users), caller)), db)
    case Post(receiverField) =>
      if Php.Empty(receiverField) then (Message(400, "Receiver ID is required."), db)
      else
        var key := Database.BodyKey(receiverField);
        if key.None? || !Users.Exists(db.users, key.value) then (Message(404, "User not found."), db)
        else
          var receiver := key.value;
          // The self test is PHP's loose `==` on the body field itself.
          if Php.LooseEqualsInt(receiverField, caller) then (Message(400, "You cannot send a friend request to yourself."), db)
          else
            // Asking for the receiver's preference inserts their default
            // settings row if they had none.
            var (wants, settings') := UserSettings.WantsFriendRequests(db.settings, receiver);
            var db1 := db.(settings := settings');
            if !wants then (Message(403, NotAccepting), db1)
            else
              var (sent, friends') := Friendship.SendRequest(db1.friends, caller, receiver);
              if sent.Some? then (RequestSent(sent.value), db1.(friends := friends'))
              else (Message(503, CouldNotSend), db1)
    case Put(requestsPath, seg, action) =>
      if !requestsPath || !Database.IsNumeric(seg) then (Message(400, "Invalid request ID."), db)
      else if !Database.Present(action) then (Message(400, "Action is required."), db)
      else if action.value == "accept" then
        var (ok, friends') := AcceptSeg(db.friends, seg, caller);
        if ok then (Message(200, "Friend request accepted successfully."), db.(friends := friends'))
        else (Message(503, "Unable to accept friend request."), db)
      else if action.value == "decline" then
        var (ok, friends') := DeclineSeg(db.friends, seg, caller);
        if ok then (Message(200, "Friend request declined."), db.(friends := friends'))
        else (Message(503, "Unable to decline friend request."), db)
      else (Message(400, InvalidAction), db)
    case Delete(seg) =>
      if !Database.IsNumeric(seg) then (Message(400, "Invalid user ID."), db)
      else if !seg.Id? || !Users.Exists(db.users, seg.n) then (Message(404, "User not found."), db)
      else
        var (_, friends') := Friendship.RemoveFriend(db.friends, caller, seg.n);
        (Message(200, "Friendship removed successfully."), db.(friends := friends'))
    case OtherMethod => (Message(405, "Method not allowed."), db)
  }

  function Handle(p: Jwt.Primitives, db: Database.Db, token: Option<string>, now: int, req: Request)
    : (r: (Reply, Database.Db))
    ensures Database.Identify(p, db, token, now).Anonymous? ==> r == (Message(401, "Authentication required."), db)
    ensures Database.Identify(p, db, token, now).Rejected? ==> r == (Message(401, "Invalid or expired token."), db)
  {
    match Database.Identify(p, db, token, now)
    case Anonymous => (Message(401, "Authentication required."), db)
    case Rejected => (Message(401, "Invalid or expired token."), db)
    case Known(u) => Route(db, u.id, req)
  }

  // ---------------------------------------------------------------------
  // Properties

  /** POST runs its checks in a fixed order: a receiver id is present (400),
      the receiver exists (404), is not the caller (400), accepts requests
      (403); only then is the request sent, as the caller (201, or 503 when
      the pair already has history). */
  lemma SendGateOrder(db: Database.Db, caller: int, receiver: int)
    requires receiver != 0
    ensures var (r, db') := Route(db, caller, Post(Php.Int(receiver)));
            var passes := Users.Exists(db.users, receiver) && receiver != caller;
            var wants := UserSettings.WantsFriendRequests(db.settings, receiver).0;
            && (!Users.Exists(db.users, receiver) ==> r == Message(404, "User not found.") && db' == db)
            && (Users.Exists(db.users, receiver) && receiver == caller ==>
                  r == Message(400, "You cannot send a friend request to yourself.") && db' == db)
            && (passes && !wants ==> r == Message(403, NotAccepting))
            && (passes && wants ==>
                  && (r.RequestSent? <==> Friendship.SendRequest(db.friends, caller, receiver).0.Some?)
                  && (r.RequestSent? ==> db'.friends.requests[r.requestId] ==
                                         Friendship.Request(caller, receiver, Friendship.Pending))
                  && (!r.RequestSent? ==> r == Message(503, CouldNotSend) && db'.friends == db.friends))
  {
  }

  /** A missing receiver id is refused before anything is looked up. */
  lemma SendNeedsReceiver(db: Database.Db, caller: int, receiverField: Php.Loose)
    requires Php.Empty(receiverField)
    ensures Route(db, caller, Post(receiverField)) == (Message(400, "Receiver ID is required."), db)
  {
  }

  /** `true` as the receiver id selects user 1, and the self test, PHP's
      loose `==`, finds it equal to every caller: the answer is 400 and
      nothing changes. */
  lemma TrueReceiverIsSelf(db: Database.Db, caller: int)
    requires caller != 0 && Users.Exists(db.users, 1)
    ensures Route(db, caller, Post(Php.Bool(true))) ==
            (Message(400, "You cannot send a friend request to yourself."), db)
  {
  }

  /** A receiver id sent as decimal text is the caller exactly when it
      spells the caller's id. */
  lemma TextReceiverSelfTest(db: Database.Db, caller: int, receiver: int)
    requires receiver != 0 && Users.Exists(db.users, receiver)
    ensures Route(db, caller, Post(Php.Str(Php.DecimalString(receiver)))).0 ==
              Message(400, "You cannot send a friend request to yourself.")
            <==> receiver == caller
  {
    Database.BodyKeyOfDecimalString(receiver);
    Php.LooseEqualsDecimalString(receiver, caller);
  }

  /** A user with no settings row accepts requests: the gate lets the
      request through and stores the defaults. */
  lemma NoSettingsMeansWilling(db: Database.Db, caller: int, receiver: int)
    requires receiver != 0 && receiver != caller && Users.Exists(db.users, receiver)
    requires receiver !in db.settings
    ensures var (r, db') := Route(db, caller, Post(Php.Int(receiver)));
            r != Message(403, NotAccepting) && db'.settings == db.settings[receiver := UserSettings.Defaults]
  {
  }

  /** Only a request's receiver can accept or decline it: for anyone else
      the answer is 503 and nothing changes. */
  lemma OnlyReceiverActs(db: Database.Db, caller: int, id: int, action: string)
    requires id in db.friends.requests && db.friends.requests[id].receiver != caller
    ensures Route(db, caller, Put(true, Database.Id(id), Some(action))).1 == db
    ensures action == "accept" ==> Route(db, caller, Put(true, Database.Id(id), Some(action))).0 ==
                                   Message(503, "Unable to accept friend request.")
    ensures action == "decline" ==> Route(db, caller, Put(true, Database.Id(id), Some(action))).0 ==
                                    Message(503, "Unable to decline friend request.")
  {
  }

  /** A request id with a fraction names no request: accepting or
      declining it fails with 503 and changes nothing, whatever the store
      holds. */
  lemma FractionalRequestIdFails(db: Database.Db, caller: int)
    ensures Route(db, caller, Put(true, Database.NumericNonInteger, Some("accept"))) ==
            (Message(503, "Unable to accept friend request."), db)
    ensures Route(db, caller, Put(true, Database.NumericNonInteger, Some("decline"))) ==
            (Message(503, "Unable to decline friend request."), db)
  {
  }

  /** Any action other than `accept` or `decline`, or none, is 400 and
      changes nothing. */
  lemma OtherActionsRefused(db: Database.Db, caller: int, seg: Database.Seg, action: Option<string>)
    requires Database.IsNumeric(seg)
    requires action.None? || (action.value != "accept" && action.value != "decline")
    ensures var (r, db') := Route(db, caller, Put(true, seg, action));
            && db' == db
            && r.code == 400
            && r == (if Database.Present(action) then Message(400, InvalidAction) else Message(400, "Action is required."))
  {
  }

  /** The receiver accepting a pending request makes the two friends in
      both directions. */
  lemma ReceiverAccepts(db: Database.Db, caller: int, id: int)
    requires id in db.friends.requests && db.friends.requests[id].receiver == caller
    requires db.friends.requests[id].status == Friendship.Pending
    ensures var (r, db') := Route(db, caller, Put(true, Database.Id(id), Some("accept")));
            var sender := db.friends.requests[id].sender;
            && r == Message(200, "Friend request accepted successfully.")
            && Friendship.AreFriends(db'.friends, sender, caller)
            && Friendship.AreFriends(db'.friends, caller, sender)
  {
  }

  /** DELETE needs a numeric id (400) naming an existing user (404); a
      refused DELETE changes nothing. */
  lemma RemoveNeedsUser(db: Database.Db, caller: int, seg: Database.Seg)
    ensures !Database.IsNumeric(seg) ==> Route(db, caller, Delete(seg)) == (Message(400, "Invalid user ID."), db)
    ensures Database.IsNumeric(seg) && (seg.NumericNonInteger? || !Users.Exists(db.users, seg.n)) ==>
              Route(db, caller, Delete(seg)) == (Message(404, "User not found."), db)
  {
  }

  /** DELETE of an existing user always succeeds, friends or not, and
      leaves no friendship row between the two. */
  lemma RemoveAlwaysSucceeds(db: Database.Db, caller: int, other: int)
    requires Users.Exists(db.users, other)
    ensures var (r, db') := Route(db, caller, Delete(Database.Id(other)));
            && r == Message(200, "Friendship removed successfully.")
            && !Friendship.HasEdgeBetween(db'.friends, caller, other)
            && db'.friends.requests == db.friends.requests
  {
  }

  /** GET /requests lists exactly the pending requests addressed to the
      caller whose sender still exists. */
  lemma PendingListExact(db: Database.Db, caller: int)
    ensures var r := Route(db, caller, Get(true)).0;
            && r.PendingList?
            && forall id :: id in r.requestIds <==>
                 id in db.friends.requests && db.friends.requests[id].receiver == caller &&
                 db.friends.requests[id].status == Friendship.Pending &&
                 Users.Exists(db.users, db.friends.requests[id].sender)
  {
  }

  lemma RoutePreservesValid(db: Database.Db, caller: int, req: Request)
    requires Database.Valid(db)
    ensures Database.Valid(Route(db, caller, req).1)
  {
    match req {
      case Post(receiverField) =>
        if !Php.Empty(receiverField) && Database.BodyKey(receiverField).Some? {
          Friendship.SendPreservesValid(db.friends, caller, Database.BodyKey(receiverField).value);
        }
      case Put(_, seg, action) =>
        if seg.Id? {
          Friendship.AcceptPreservesValid(db.friends, seg.n, caller);
          Friendship.DeclinePreservesValid(db.friends, seg.n, caller);
        }
      case Delete(seg) =>
        if seg.Id? {
          Friendship.RemovePreservesValid(db.friends, caller, seg.n);
        }
      case _ =>
    }
  }
}
