# Picshare: identity and access control, in Dafny

Picshare is a photo-sharing application with a PHP JSON API and two React
clients. This project models its identity and access-control core and
proves properties of that model. The core has four parts:

- the hand-rolled HS256 JSON Web Token that identifies a caller;
- the friendship state machine: requests move from pending to accepted or
  declined, and a friendship is two directed `friends` rows;
- the grant store: one grant per (album, user), holding the two capability
  flags "may add photos" and "may delete photos";
- the authorisation decisions of the album, photo, grant, friend and user
  endpoints, which combine ownership, grants and friendship.

The client-side rules that depend on these decisions are modelled as well:

- the registration and album form validators;
- the photo viewer's cyclic navigation;
- the feed's relative timestamps and like button;
- the friends page, the album sharing page and the album page buttons;
- the navigation highlight.

Every model is a pure function over immutable data:

- The database is a `Database.Db` value holding one table per entity.
- An endpoint is a `Route` function from a database and a request to a reply
  and the next database.
- The bearer-token gate in front of each route is its `Handle` function.
- Ids come from an auto-increment counter in each table.
- Tables read with `LIMIT 0,1` are sequences, and a lookup returns the first
  matching row.

The library functions the token code calls are fields of `Jwt.Primitives`:
base64, HMAC-SHA256 and JSON. The predicate `Jwt.Lawful` states the only
facts about them that the round trip needs. The clock is always a `now`
parameter. Password hashing and verification are function parameters too.

PHP and JavaScript value rules are written out where a decision depends on
them:

- `empty()` treats both "" and "0" as empty (`Php.Truthy`, `Php.Empty`).
- `intval` of a string reads its leading number, fraction and exponent
  included, and drops the fraction (`Php.IntVal`).
- An id taken from a JSON body selects a row only when its leading number is
  whole, as MySQL compares an integer column with a string
  (`Database.BodyKey`).
- PHP 8's loose `==` between a body field and an integer id is
  `Php.LooseEqualsInt`: booleans compare as booleans, numeric strings by
  value and other strings as text.
- JavaScript's `length` counts UTF-16 code units (`Js.Length`).
- A JSON field that is absent is PHP `null`.
- JavaScript's `%` truncates toward zero (`PhotoNav.JsRem`).
- `\s` matches the JavaScript white-space set (`Js.IsSpace`).

`Scenarios.ShareNeedsFriendship` chains the endpoints together:

1. An album owner cannot share with a stranger.
2. The owner sends a friend request.
3. The stranger accepts it.
4. The owner shares the album, and the friend can then list its photos and
   add to it, but not delete.

The model follows the code wherever a description of the system and the
code differ. A description of the system says a new friend request is
refused only while an earlier one is pending. `sendRequest`
(models/Friend.php:20-51) refuses a pair with any earlier request, whatever
its status, and so does the model. As a result, a declined pair or an ended
friendship can never be requested again (`Friendship.NeverReRequested`).

Several quirks of the code are modelled as written:

- `areFriends` looks in one direction only.
- The delete guard of `Photo::delete` compares the uploader with itself.
- GET of one album never answers 403.
- The grant PUT and DELETE routes always answer 403, because `read()` looks
  the grant up by a null album and user.
- The React album page tests `album.user_id`, a field the endpoint never
  sends.

## Model

| member | source | states |
|---|---|---|
| Jwt.IssuedPayload | models/Auth.php:124-135 | an issued payload carries the user id, `iat = now` and `exp = now + 86400` |
| Jwt.Base64UrlEncode | models/Auth.php:152-156 | the output has no `+`, no `/` and no trailing `=`; it is a prefix of the translated base64 text, and only `=` is cut off |
| Jwt.Base64UrlRoundTrip | models/Auth.php:152-156 | under lawful primitives, decoding a base64url segment gives the data back, and the segment contains no dot |
| Jwt.Base64UrlDecode | models/Auth.php:178 | the `strtr` back to `+/` and `base64_decode` of a payload segment; specified by `Base64UrlRoundTrip`, which shows it inverts `Base64UrlEncode` |
| Jwt.TrimRight | models/Auth.php:155 | `rtrim` gives a prefix that does not end in the character, and everything cut off is that character |
| Jwt.TrimRightUnique | models/Auth.php:155 | those three properties determine the result of `rtrim` |
| Jwt.Explode | models/Auth.php:164 | `explode` returns at least one piece, no piece contains the separator, and joining the pieces gives the string back |
| Jwt.ExplodeImplode | models/Auth.php:164 | exploding pieces that do not contain the separator, once joined, gives the same pieces |
| Jwt.SplitsIntoThree | models/Auth.php:164-169 | three dot-free segments joined by dots explode into exactly those three |
| Jwt.EncodedTokenSplits | models/Auth.php:138-149 | a token is header, payload and HMAC signature segments, and it splits back into them |
| Jwt.ValidateToken | models/Auth.php:159-185 | a token is accepted only when it is non-empty and three segments long with the recomputed signature; the result is the decoded payload, which has not expired |
| Jwt.IssuedTokenRoundTrip | models/Auth.php:138-185 | validating an encoded payload at any time up to and including its `exp` returns that payload |
| Jwt.ExpiredTokenRejected | models/Auth.php:180-182 | a payload whose `exp` lies strictly before `now` is rejected |
| Jwt.GeneratedTokenLifetime | models/Auth.php:124-135 | a generated token validates to its issued claims for exactly 86400 seconds, inclusive, and is rejected afterwards |
| Jwt.GenerateJwt | models/Auth.php:124-135 | `generateJWT` encodes the issued payload; specified by `GeneratedTokenLifetime` |
| Jwt.ForgedSignatureRejected | models/Auth.php:171-178 | a wrong third segment is rejected, whatever the payload segment holds |
| Auth.Login | models/Auth.php:13-30 | login succeeds iff the first user with the email has a hash the password verifies against; the token is issued for that user |
| Auth.Register | models/Auth.php:33-109 | an email in use is refused first, then a username in use; otherwise a row and default settings are inserted and a token is issued for the new id |
| Auth.GetUserFromToken | models/Auth.php:188-207 | a user comes back iff the token validates, has a user id, and that user exists |
| Auth.IssuedTokenIdentifiesUser | models/Auth.php:188-207 | a token issued for an existing user identifies that user until it expires, and nobody after that |
| Auth.LoginTokenIdentifiesUser | models/Auth.php:13-30 | the token from a successful login identifies the logged-in user for the next 24 hours |
| Auth.RegisterThenLogin | models/Auth.php:33-109 | after registering with a fresh email and username, logging in with the same password succeeds as the new user |
| Users.FindById | models/User.php:56-74 | `readOne` finds the row with the id, or reports that none exists |
| Users.FindByEmail | models/User.php:141-160 | the lookup by email returns the first row with that email |
| Users.FindByUsername | models/Auth.php:47-58 | the username probe finds a row iff some row has that username |
| Users.Insert | models/User.php:19-45 | `create` appends a row under a fresh id and keeps the ids distinct |
| Users.UpdateProfile | models/User.php:77-103 | `update` overwrites the four profile columns of the row with the id; every other row, the id and the password hash are untouched |
| Users.Delete | models/User.php:129-138 | `delete` removes exactly the rows with the id |
| Users.DeletePreservesValid | models/User.php:129-138 | deleting keeps the ids distinct and below the counter |
| UserSettings.CreateDefault | models/UserSetting.php:44-62 | the defaults are flags 1, 1, 1, visibility `public` and theme `light`, and no other user's row changes |
| UserSettings.Read | models/UserSetting.php:20-41 | a stored row is returned unchanged; otherwise the defaults are inserted and returned |
| UserSettings.Update | models/UserSetting.php:65-109 | for a user with no row, the defaults are inserted and the input is discarded; otherwise the row becomes the coerced input |
| UserSettings.WantsFriendRequests | models/UserSetting.php:118-121 | true for a user with no row, otherwise iff the stored flag is non-zero |
| UserSettings.ReadIdempotent | models/UserSetting.php:20-41 | reading twice is reading once |
| UserSettings.UpdateThenRead | models/UserSetting.php:65-109 | after an update of an existing row, a read returns the coerced input |
| UserSettings.Coerce | models/UserSetting.php:89-93 | the stored friend flag is `intval` of the input, and a missing visibility or theme is stored as ""; `UpdateThenRead` shows a read returns exactly this coerced row |
| Friendship.SendRequest | models/Friend.php:18-72 | refused iff any request of any status, or any friends row, joins the pair in either direction; otherwise exactly one pending request from the sender is added |
| Friendship.AcceptRequest | models/Friend.php:75-122 | succeeds iff the request is pending and addressed to the caller; then it becomes accepted and both directed rows are added; otherwise nothing changes |
| Friendship.DeclineRequest | models/Friend.php:125-135 | moves pending to declined iff the id and the receiver match; otherwise nothing changes |
| Friendship.RemoveFriend | models/Friend.php:138-163 | deletes both directed rows, reports success even when they did not exist, and keeps every other row and every request |
| Friendship.GetFriends | models/Friend.php:166-175 | exactly the existing users that the caller has a row towards |
| Friendship.GetPendingRequests | models/Friend.php:178-188 | exactly the pending requests addressed to the user whose sender exists |
| Friendship.SendPreservesValid | models/Friend.php:18-72 | sending keeps rows symmetric, one request per pair, and every row backed by an accepted request |
| Friendship.AcceptPreservesValid | models/Friend.php:75-122 | accepting keeps the same invariant |
| Friendship.DeclinePreservesValid | models/Friend.php:125-135 | declining keeps the same invariant |
| Friendship.RemovePreservesValid | models/Friend.php:138-163 | removing keeps the same invariant |
| Friendship.PendingMeansNoEdge | models/Friend.php:75-122 | a pending request's pair has no friends row yet |
| Friendship.ApplyPreservesValid | models/Friend.php:18-163 | each of the four operations keeps the invariant |
| Friendship.Apply | models/Friend.php:18-163 | no operation deletes a request or changes its sender or receiver |
| Friendship.RunPreservesValid | models/Friend.php:18-163 | any sequence of operations keeps the invariant |
| Friendship.RequestsPersist | models/Friend.php:18-163 | a request row survives any sequence of operations with its pair unchanged |
| Friendship.NeverReRequested | models/Friend.php:20-51 | once a pair has a request, every later send between them, in either direction, is refused |
| Friendship.AreFriendsSymmetric | models/Friend.php:191-201 | under the invariant, the one-directional `areFriends` is symmetric |
| Friendship.GetFriendsIsNeighbourhood | models/Friend.php:166-175 | `getFriends(u)` holds exactly the existing users who are friends of u |
| Friendship.SendThenAcceptMakesFriends | models/Friend.php:75-122 | a send between strangers followed by the receiver's accept makes them friends both ways |
| Friendship.AcceptAddsTwoFreshRows | models/Friend.php:91-121 | accepting inserts two rows that did not exist before |
| Friendship.RemoveIdempotent | models/Friend.php:138-163 | removing twice is removing once |
| Friendship.RemoveEndsFriendship | models/Friend.php:138-163 | after removal neither user sees the other as a friend |
| AlbumPermissions.FindPair | models/AlbumPermission.php:115-131 | the first grant for the pair, or none iff no row matches |
| AlbumPermissions.Read | models/AlbumPermission.php:115-131 | a null album or user finds nothing; otherwise a grant is found iff a row exists for the pair |
| AlbumPermissions.Create | models/AlbumPermission.php:37-62 | inserts a row under a fresh id with `intval` flags |
| AlbumPermissions.Update | models/AlbumPermission.php:65-87 | changes only the two flags of the rows with the id, as `intval`; album, user and id never change |
| AlbumPermissions.CreateOrUpdate | models/AlbumPermission.php:17-34 | an existing grant for the pair has its flags overwritten and keeps its id; otherwise a row is inserted |
| AlbumPermissions.Delete | models/AlbumPermission.php:90-99 | removes exactly the rows with the id |
| AlbumPermissions.DeleteByUserAlbum | models/AlbumPermission.php:102-112 | removes exactly the rows for the pair |
| AlbumPermissions.ReadByAlbum | models/AlbumPermission.php:134-144 | lists exactly the album's grants whose user exists, each with that user |
| AlbumPermissions.CanAddPhotos | models/AlbumPermission.php:147-152 | false with no grant; otherwise the truthiness of the stored add flag |
| AlbumPermissions.CanDeletePhotos | models/AlbumPermission.php:155-160 | false with no grant; otherwise the truthiness of the stored delete flag |
| AlbumPermissions.KeepSubsequence | models/AlbumPermission.php:90-112 | removing rows keeps the ids and the pairs distinct |
| AlbumPermissions.PairUnique | models/AlbumPermission.php:17-34 | under the one-grant-per-pair invariant, the lookup finds the pair's only row |
| AlbumPermissions.UpdatePreservesValid | models/AlbumPermission.php:65-87 | updating flags keeps the invariant |
| AlbumPermissions.CreateOrUpdatePreservesValid | models/AlbumPermission.php:17-34 | the upsert keeps at most one grant per pair |
| AlbumPermissions.DeletePreservesValid | models/AlbumPermission.php:90-99 | deleting keeps the invariant |
| AlbumPermissions.DeleteByUserAlbumPreservesValid | models/AlbumPermission.php:102-112 | deleting by pair keeps the invariant |
| AlbumPermissions.UpsertSetsFlags | models/AlbumPermission.php:17-34 | after an upsert the pair has exactly the requested flags, and the capability predicates follow them |
| AlbumPermissions.UpsertIdempotent | models/AlbumPermission.php:17-34 | upserting twice with the same arguments is upserting once |
| Albums.Create | models/Album.php:17-38 | records the album with `created_by` as supplied under a fresh id |
| Albums.ReadOne | models/Album.php:78-99 | finds the album iff the id is set and exists |
| Albums.ReadByUser | models/Album.php:51-60 | exactly the albums created by the user |
| Albums.ReadUserAccessible | models/Album.php:63-75 | exactly the albums the user created or holds any grant for, each once |
| Albums.Update | models/Album.php:102-126 | renames only when both the id and the owner match; otherwise nothing changes; ownership never changes |
| Albums.Delete | models/Album.php:129-139 | removes only when both the id and the owner match |
| Albums.OnlyOwnerMutates | models/Album.php:102-139 | update and delete by anyone but the owner leave the table unchanged |
| Albums.OwnershipStable | models/Album.php:102-139 | any album that survives an update or delete keeps its creator |
| Albums.OwnedAreAccessible | models/Album.php:51-75 | owned albums are accessible, and any other accessible album is backed by a grant |
| Albums.CreateThenRead | models/Album.php:17-38 | a created album reads back as supplied and joins its creator's albums |
| Photos.Create | models/Photo.php:17-38 | records the album, URL and uploader as supplied under a fresh id |
| Photos.ReadOne | models/Photo.php:55-77 | finds the photo iff it exists |
| Photos.InsertPos | models/Photo.php:41-52 | a position that splits the listing into newer photos before it and the rest after |
| Photos.InsertKeepsOrder | models/Photo.php:41-52 | inserting at that position keeps the listing newest-first and free of duplicates |
| Photos.SortNewestFirst | models/Photo.php:41-52 | lists each id of the set exactly once, newest upload first |
| Photos.ReadByAlbum | models/Photo.php:41-52 | lists each photo of the album exactly once and nothing else, newest upload first |
| Photos.InAlbum | models/Photo.php:41-52 | the album's photo ids; `Photos.ReadByAlbum` states that they are what the listing holds |
| Photos.JoinAlbumGrant | models/Photo.php:110-120 | the join row exists iff the album exists, and carries its owner and the caller's grant |
| Photos.CanAddPhoto | models/Photo.php:109-124 | true iff the album exists and the user owns it or holds a grant with a truthy add flag |
| Photos.Delete | models/Photo.php:80-106 | removes the photo iff it and its album exist, whoever asks |
| Photos.OwnerMayAdd | models/Photo.php:110-123 | an owner may add even without a grant row |
| Photos.DeleteIgnoresCaller | models/Photo.php:96 | the guard's outcome does not depend on the caller |
| Photos.CreateThenRead | models/Photo.php:17-38 | a new photo reads back as supplied under an id that was free |
| Database.Identify | api/albums.php:33-46 | no token, or one PHP finds empty, is anonymous; a token that names no user is rejected; otherwise the caller is that user |
| AlbumsApi.Resolve | api/albums.php:63-78 | the owner holds every capability; anyone else holds exactly their grant's flags |
| AlbumsApi.Handle | api/albums.php:33-46 | without a token the answer is 401 "Authentication required."; with a bad token it is 401 "Invalid or expired token."; nothing changes |
| AlbumsApi.GateBlocksStrangers | api/albums.php:33-46 | no route is reached without a known caller |
| AlbumsApi.GetOneNeverForbidden | api/albums.php:51-85 | GET of one album is 404 when it is missing and otherwise 200 for every caller, with the owner's or the grant's capabilities |
| AlbumsApi.UngrantedReaderSeesAlbum | api/albums.php:66-78 | a non-owner without a grant still reads the album, with no capabilities |
| AlbumsApi.ListingPartitions | api/albums.php:87-135 | the list holds the caller's own albums and the albums shared with them, and no album is in both |
| AlbumsApi.OnlyOwnerChangesAlbum | api/albums.php:168-237 | PUT and DELETE by anyone but the owner give 403 and change nothing |
| AlbumsApi.ChangeInputErrors | api/albums.php:168-237 | a non-numeric id gives 400 and a missing album gives 404, with no change |
| AlbumsApi.PutKeepsAbsentFields | api/albums.php:168-204 | the owner's PUT overwrites only the fields in the body and keeps the owner |
| AlbumsApi.PostBindsCreator | api/albums.php:138-166 | POST needs a name (400) and records the caller as the creator |
| AlbumsApi.RoutePreservesValid | api/albums.php:50-242 | no album route breaks a table invariant |
| AlbumsApi.Route | api/albums.php:50-242 | the album endpoint; the `AlbumsApi` lemmas above state each of its branches and `RoutePreservesValid` its invariant |
| PhotosApi.WithThumbnail | api/photos.php:175-178 | an album with an empty thumbnail takes the new photo's URL; other albums and fields stay as they were |
| PhotosApi.Handle | api/photos.php:35-48 | the same token gate as the album endpoint |
| PhotosApi.ViewNeedsOwnershipOrGrant | api/photos.php:53-102 | listing an album's photos succeeds iff the caller owns it or holds any grant for it, and lists exactly its photos, each once and newest first; otherwise 403 |
| PhotosApi.ViewPhotoRule | api/photos.php:103-136 | reading one photo follows the same rule for the photo's album; a missing photo is 404 |
| PhotosApi.FlaglessGrantViews | api/photos.php:61-72 | a grant with both flags off still allows viewing |
| PhotosApi.MayView | api/photos.php:53-72 | the viewing rule, owner or any grant for the album; `ViewNeedsOwnershipOrGrant` shows the listing succeeds exactly when it holds |
| PhotosApi.AddRule | api/photos.php:143-196 | adding needs ownership or `canAddPhoto` (else 403, no change); the photo is recorded as the caller's, and the thumbnail rule applies |
| PhotosApi.AddInputErrors | api/photos.php:143-196 | a missing album id or URL is 400 and an unknown album is 404, with no change |
| PhotosApi.UploaderIsCaller | api/photos.php:169 | every photo created is attributed to the caller |
| PhotosApi.DeleteRule | api/photos.php:199-241 | deleting is refused with 403 iff the caller neither owns the album, uploaded the photo, nor holds the delete flag |
| PhotosApi.RoutePreservesValid | api/photos.php:52-247 | no photo route breaks a table invariant |
| PhotosApi.Route | api/photos.php:52-247 | the photo endpoint; specified branch by branch by `ViewNeedsOwnershipOrGrant`, `ViewPhotoRule`, `AddRule`, `AddInputErrors` and `DeleteRule` |
| PermissionsApi.PutResolved | api/album_permissions.php:158-187 | with no grant found the answer is 403 and nothing changes |
| PermissionsApi.DeleteResolved | api/album_permissions.php:195-217 | with no grant found the answer is 403 and nothing changes |
| PermissionsApi.Handle | api/album_permissions.php:37-50 | the same token gate as the album endpoint |
| PermissionsApi.ListOwnerOnly | api/album_permissions.php:54-101 | only the owner lists an album's grants (else 403), and sees every grant whose user exists |
| PermissionsApi.CreateGates | api/album_permissions.php:103-150 | ownership (403) is checked before target existence (404) and friendship (403); then the grant is upserted |
| PermissionsApi.CreateStoresFlags | api/album_permissions.php:135-139 | after a successful POST the pair has one grant with the requested flags; absent flags are 0 |
| PermissionsApi.RepeatedShareIdempotent | api/album_permissions.php:103-150 | posting the same share twice leaves the same grants as posting it once |
| PermissionsApi.PutAndDeleteAlwaysForbidden | api/album_permissions.php:152-217 | PUT and DELETE with a numeric id always answer 403 and change nothing |
| PermissionsApi.ResolvedPutKeepsAbsentFlags | api/album_permissions.php:158-187 | were the grant found, only its album's owner could change it, and only the flags in the body would change |
| PermissionsApi.OnlyOwnerChangesGrants | api/album_permissions.php:103-217 | the grant table changes only on a POST by the album's owner, and no other table ever changes |
| PermissionsApi.RoutePreservesValid | api/album_permissions.php:54-222 | no grant route breaks a table invariant |
| PermissionsApi.Route | api/album_permissions.php:54-222 | the grant endpoint; specified by `ListOwnerOnly`, `CreateGates`, `CreateStoresFlags`, `PutAndDeleteAlwaysForbidden` and `OnlyOwnerChangesGrants` |
| FriendsApi.Handle | api/friends.php:35-48 | the same token gate as the album endpoint |
| FriendsApi.SendGateOrder | api/friends.php:102-151 | POST checks, in order, that the receiver exists (404), is not the caller (400) and accepts requests (403); then it sends as the caller, or answers 503 |
| FriendsApi.SendNeedsReceiver | api/friends.php:102-151 | a missing receiver id is 400 before anything is looked up |
| FriendsApi.TrueReceiverIsSelf | api/friends.php:107-121 | `true` as the receiver selects user 1 and is loosely equal to every caller, so the answer is 400 with no change |
| FriendsApi.TextReceiverSelfTest | api/friends.php:107-121 | a receiver sent as decimal text is refused as the caller exactly when it spells the caller's id |
| FriendsApi.NoSettingsMeansWilling | api/friends.php:124-130 | a receiver with no settings row accepts requests, and their defaults are stored |
| FriendsApi.OnlyReceiverActs | api/friends.php:153-198 | only a request's receiver can accept or decline it; anyone else gets 503 and nothing changes |
| FriendsApi.FractionalRequestIdFails | api/friends.php:153-198 | a request id with a fraction selects no request: accept and decline answer 503 and nothing changes |
| FriendsApi.OtherActionsRefused | api/friends.php:160-193 | any action other than accept or decline, or none, is 400 with no change |
| FriendsApi.ReceiverAccepts | api/friends.php:165-173 | the receiver accepting a pending request makes the two friends in both directions |
| FriendsApi.RemoveNeedsUser | api/friends.php:200-225 | DELETE needs a numeric id (400) naming an existing user (404) |
| FriendsApi.RemoveAlwaysSucceeds | api/friends.php:200-225 | DELETE of an existing user succeeds whether or not the two were friends, and leaves no row between them |
| FriendsApi.PendingListExact | api/friends.php:52-99 | GET /requests lists exactly the pending requests addressed to the caller whose sender exists |
| FriendsApi.RoutePreservesValid | api/friends.php:52-230 | no friend route breaks a table invariant |
| FriendsApi.Route | api/friends.php:52-230 | the friend endpoint; specified by `SendGateOrder`, `OnlyReceiverActs`, `OtherActionsRefused`, `RemoveAlwaysSucceeds` and `PendingListExact` |
| UsersApi.ProfileAsWritten | api/users.php:141-146 | as written, a profile field missing from the body is written as "" |
| UsersApi.SettingsAsWritten | api/users.php:151-170 | as written, a settings body without the friend flag stores that flag as 0 |
| UsersApi.Handle | api/users.php:33-42 | a present but invalid token is 401; a missing token is allowed through as anonymous |
| UsersApi.PrivateFieldsOnlyForSelf | api/users.php:47-82 | email, phone and settings are shown only when the caller's id is the target's |
| UsersApi.ListNeedsCaller | api/users.php:84-117 | listing users without a caller is 401 |
| UsersApi.OnlySelfChanges | api/users.php:121-214 | PUT and DELETE need a caller (401) whose id is the target's (403); otherwise nothing changes |
| UsersApi.PutAsWrittenErasesEmail | api/users.php:141-149 | as written, a PUT that sends only a username blanks the stored email |
| UsersApi.RoutePutAsWritten | api/users.php:121-149 | the route's PUT by the user themself is the update as written: 200, every other row unchanged, each profile field set to the body's value or "", the password hash kept |
| UsersApi.PutKeepsAbsentFields | api/users.php:141-149 | the corrected `PutCorrected` changes exactly the fields in the body and keeps the password hash |
| UsersApi.SettingsAsWrittenStopsRequests | api/users.php:151-170 | as written, a settings body with only a theme stops the user accepting friend requests |
| UsersApi.SettingsMergedKeepsPreference | api/users.php:151-170 | corrected, the friend-request preference survives a settings body with only a theme |
| UsersApi.RoutePreservesValid | api/users.php:46-219 | no user route breaks a table invariant |
| UsersApi.Route | api/users.php:46-219 | the user endpoint; specified by `PrivateFieldsOnlyForSelf`, `ListNeedsCaller`, `OnlySelfChanges` and, for PUT, `RoutePutAsWritten` |
| UsersApi.PutAsWritten | api/users.php:121-170 | the PUT as the code is written; specified by `RoutePutAsWritten`, `PutAsWrittenErasesEmail` and `SettingsAsWrittenStopsRequests` |
| UsersApi.PutCorrected | api/users.php:121-170 | the PUT with absent fields kept; specified by `PutKeepsAbsentFields` and `SettingsMergedKeepsPreference` |
| UsersApi.ProfileIntended | api/users.php:141-146 | corrected, each profile column is the body's value when present and the stored one otherwise; used by `PutKeepsAbsentFields` |
| UsersApi.SettingsIntended | api/users.php:151-170 | corrected, the stored friend flag is the body's `intval` when present and the stored flag otherwise, and the theme likewise |
| UsersApi.SettingsMerged | api/users.php:151-170 | corrected, a user with a row gets the coerced merge of body and row; a user without one gets the defaults; specified further by `SettingsMergedKeepsPreference` |
| UsersApi.Write | api/users.php:141-170 | the two writes of a PUT, profile then settings; specified by `RoutePutAsWritten` and `PutKeepsAbsentFields` |
| Scenarios.ShareNeedsFriendship | api/album_permissions.php:103-150 | sharing with a stranger is refused; after a request and its acceptance, the same share succeeds and the friend may view and add but not delete |
| Scenarios.RefusedWhileStrangers | api/album_permissions.php:126-130 | a share with a user who is not a friend is 403 and changes nothing |
| Scenarios.RequestReachesStranger | api/friends.php:102-151 | a request from the owner to a willing stranger is recorded as pending |
| Scenarios.AcceptKeepsAlbums | api/friends.php:153-198 | accepting makes the two friends and leaves albums and grants alone |
| Scenarios.ShareBetweenFriends | api/album_permissions.php:103-150 | between friends the share succeeds, and the album's capabilities for the friend are add-only |
| Scenarios.ClientShareIsAddOnly | react-example/AlbumShare.js:68-76 | the request the sharing page posts, accepted between friends, grants adding and not deleting |
| Scenarios.DoubleSendRefused | models/Friend.php:20-34 | a second request between the same pair is refused with 503 and changes nothing |
| RegisterForm.TestEmail | picsure/src/pages/Register.jsx:217 | the search answers true iff the string contains a match of `\S+@\S+\.\S+` |
| RegisterForm.Validate | picsure/src/pages/Register.jsx:210-235 | the username and confirmation errors appear iff they are due; the email error is "required", "invalid" or none, exactly as its two tests say; there is no password error iff the password has at least six UTF-16 code units |
| RegisterForm.ValidIff | picsure/src/pages/Register.jsx:210-235 | the form is valid iff there is a name, a matching email, a confirmed password of at least six UTF-16 code units, and an age from 14 to 30 |
| RegisterForm.EmojiPasswordLongEnough | picsure/src/pages/Register.jsx:222 | three emoji outside the Basic Multilingual Plane pass the six-character test |
| RegisterForm.MismatchAlwaysReported | picsure/src/pages/Register.jsx:225-227 | the mismatch error is independent of the other password checks |
| RegisterForm.EmailExamples | picsure/src/pages/Register.jsx:217 | the unanchored pattern accepts "a@b.c" inside other text and refuses addresses without a dot after the `@`, or with a blank inside |
| PhotoNav.FindIndex | picsure/src/pages/AlbumDetail.jsx:482 | the first position of the id, or -1 iff it is absent |
| PhotoNav.InRange | picsure/src/pages/AlbumDetail.jsx:481-491 | in a non-empty album both buttons select a valid index |
| PhotoNav.Cyclic | picsure/src/pages/AlbumDetail.jsx:481-491 | next is `(i+1) mod n` and previous `(i-1) mod n`: the last wraps to the first and the first to the last |
| PhotoNav.NextPrevInverse | picsure/src/pages/AlbumDetail.jsx:481-491 | previous after next, and next after previous, return to the same photo |
| PhotoNav.AbsentSelection | picsure/src/pages/AlbumDetail.jsx:481-491 | an absent selection counts as -1: next picks the first photo |
| PhotoNav.Next | picsure/src/pages/AlbumDetail.jsx:481-485 | the next index; specified by `InRange`, `Cyclic`, `NextPrevInverse` and `AbsentSelection` |
| PhotoNav.Prev | picsure/src/pages/AlbumDetail.jsx:487-491 | the previous index; specified by `InRange`, `Cyclic` and `NextPrevInverse` |
| HomeFeed.FormatByRange | picsure/src/pages/Home.jsx:334-347 | the label is days, hours or minutes by the largest whole unit elapsed, and "just now" for under a minute or a future time |
| HomeFeed.FormatTimestamp | picsure/src/pages/Home.jsx:334-347 | the age label; specified by `FormatByRange` |
| HomeFeed.HandleLike | picsure/src/pages/Home.jsx:488-492 | the post with the id flips `liked` and gains or loses one like; the others are unchanged |
| HomeFeed.LikeTwiceRestores | picsure/src/pages/Home.jsx:488-492 | liking twice restores the feed |
| AlbumCards.ValidateFormIff | picsure/src/pages/Albums.jsx:163-173 | the form passes iff both fields are filled, and each empty field gets its own message |
| AlbumCards.CardImageCases | picsure/src/pages/Albums.jsx:231-233 | an upload is shown behind the API address, another thumbnail as it is, and no thumbnail as the placeholder |
| AlbumCards.ValidateForm | picsure/src/pages/Albums.jsx:163-173 | `validateForm`; specified by `ValidateFormIff` |
| AlbumCards.CardImage | picsure/src/pages/Albums.jsx:231-233 | the card image; specified by `CardImageCases` |
| AlbumCards.Title | picsure/src/pages/Albums.jsx:234-238 | the card title; specified by `FallbackCardShowsForm` |
| AlbumCards.FallbackCardShowsForm | picsure/src/pages/Albums.jsx:149-173 | an album made from a valid form by `fallbackCreateAlbum` has a card titled with the typed name and showing the chosen file or the stock picture |
| AlbumCards.FallbackAlbum | picsure/src/pages/Albums.jsx:149-160 | the local album gets an id from 10 to 1009 and is created by the user, or by 1 when there is no user |
| FriendsPage.MatchesSearch | react-example/Friends.js:80-83 | the search test is true iff the term occurs, ignoring case, in the username or a defined email; it throws (`None`) iff the username misses and the email is undefined, as it is in the server's user records |
| FriendsPage.Candidates | react-example/Friends.js:66-96 | an empty user list gives an empty result; specified by `CandidatesIff` |
| FriendsPage.CandidatesIff | react-example/Friends.js:72-93 | the filter throws iff some user's search test throws; otherwise a user is listed iff they match the search and no friend's `id`, no request's `user_id` and no sent request's `friend_id` is theirs (an undefined field matches no one) |
| FriendsPage.ServerUsersThrowOnMiss | react-example/Friends.js:80-83 | with a user record as the server sends it (no `email`), a term that misses that user's username makes the filter throw |
| FriendsPage.ServerRequestsHideNoOne | react-example/Friends.js:74 | with pending records as the server sends them (no `user_id`), received requests hide no user |
| FriendsPage.EmptyTermMatchesAll | react-example/Friends.js:80-83 | an empty search term matches every user without reading the email |
| FriendsPage.SelfNotExcluded | react-example/Friends.js:85-90 | the signed-in user is not filtered out |
| FriendsPage.AcceptMovesRequest | react-example/Friends.js:125-147 | accepting removes the request from pending and appends a friend built from its `user_id`, `user_name` and `user_email`; for a request as the server sends it that friend has no id, name or email and hides no candidate |
| FriendsPage.Accept | react-example/Friends.js:125-147 | the accept handler; specified by `AcceptMovesRequest` |
| FriendsPage.Reject | react-example/Friends.js:150-164 | the reject handler; specified by `RemovalsTouchOnlyTheirId` |
| FriendsPage.RemoveFriend | react-example/Friends.js:167-183 | the remove handler; specified by `RemovalsTouchOnlyTheirId` |
| FriendsPage.Cancel | react-example/Friends.js:186-200 | the cancel handler; specified by `RemovalsTouchOnlyTheirId` |
| FriendsPage.RemovalsTouchOnlyTheirId | react-example/Friends.js:150-200 | reject, remove and cancel each drop only the entries with the id from their own list |
| FriendsPage.SendAppendsOnePending | react-example/Friends.js:99-122 | sending appends one pending entry for the user, who then leaves the candidates |
| FriendsPage.Send | react-example/Friends.js:99-122 | the send handler; specified by `SendAppendsOnePending` |
| AlbumShare.LoadAsWritten | react-example/AlbumShare.js:17-65 | the load as written; specified by `OwnerLoadFailsAsWritten` and `LoadsAgreeForNonOwners` |
| AlbumShare.OwnerLoadFailsAsWritten | react-example/AlbumShare.js:40-58 | as written, an owner's load never requests the grants and ends with "An error occurred while fetching data"; the render throws iff the friends arrived |
| AlbumShare.LoadCorrected | react-example/AlbumShare.js:17-65 | the load with `getPermissions` and the `records` of both answers; specified by `CorrectedLoadShowsLists` |
| AlbumShare.CorrectedLoadShowsLists | react-example/AlbumShare.js:17-65 | corrected, friends and grants are requested iff the album loaded and the caller owns it; otherwise an error shows; the render never throws; an owner whose two fetches succeed sees no error and exactly the lists sent |
| AlbumShare.LoadsAgreeForNonOwners | react-example/AlbumShare.js:21-37 | for a failed album fetch or a non-owner, the load as written and the corrected load end in the same page |
| AlbumShare.AvailableIff | react-example/AlbumShare.js:166-168 | a friend is available iff no grant names them |
| AlbumShare.Available | react-example/AlbumShare.js:166-168 | the friends still offered; specified by `AvailableIff` |
| AlbumShare.ShareRemovesFromAvailable | react-example/AlbumShare.js:68-107 | after a share the friend has an add-only entry and is no longer offered |
| AlbumShare.AfterShare | react-example/AlbumShare.js:68-107 | the share handler; specified by `ShareRemovesFromAvailable` |
| AlbumShare.UpdateOnlyThatEntry | react-example/AlbumShare.js:110-138 | an update sets both flags of the entries with the id and nothing else |
| AlbumShare.RemoveOnlyThatEntry | react-example/AlbumShare.js:141-163 | removal drops only the entries with the id |
| AlbumShare.ShareRequest | react-example/AlbumShare.js:68-75 | the share body names the album and the friend, allows adding and forbids deleting; `ShareStoresAddOnlyGrant` follows it to the server |
| AlbumShare.ShareStoresAddOnlyGrant | models/AlbumPermission.php:37-62 | the grant the server creates from a share body, for a friend without one, lets the friend add photos and not delete them |
| AlbumShare.AfterUpdate | react-example/AlbumShare.js:110-138 | the update handler; specified by `UpdateOnlyThatEntry` |
| AlbumShare.AfterRemove | react-example/AlbumShare.js:141-163 | the remove handler; specified by `RemoveOnlyThatEntry` |
| AlbumDetailClient.FromReply | api/albums.php:55-61 | the album response carries no `user_id` |
| AlbumDetailClient.UploaderTestIsDead | react-example/AlbumDetail.js:117-120 | with an album from the endpoint, the delete button shows iff the caller owns it or may delete; the uploader test never holds |
| AlbumDetailClient.CanDeletePhoto | react-example/AlbumDetail.js:117-120 | `canDeletePhoto`; specified by `UploaderTestIsDead` |
| AlbumDetailClient.AddButtonMatchesServer | react-example/AlbumDetail.js:114 | the add button shows exactly when the photo endpoint would accept an upload from the caller |
| AlbumDetailClient.CanAddPhotos | react-example/AlbumDetail.js:114 | the add button's test; specified by `AddButtonMatchesServer` |
| AlbumDetailClient.DeleteRemovesOnlyThatPhoto | react-example/AlbumDetail.js:91-102 | deleting drops only that photo and clears the selection iff it was selected |
| AlbumDetailClient.AfterDelete | react-example/AlbumDetail.js:91-102 | the delete handler; specified by `DeleteRemovesOnlyThatPhoto` |
| AlbumDetailClient.AddNeedsNonBlankUrl | react-example/AlbumDetail.js:54-60 | a blank URL sends nothing; any other is uploaded as typed |
| AlbumDetailClient.AddPhoto | react-example/AlbumDetail.js:54-60 | `handleAddPhoto`'s URL test; specified by `AddNeedsNonBlankUrl` |
| Navigation.ActiveIff | react-example/Navigation.js:11-21 | the albums item is active exactly on `/albums` and below `/albums/`; other items only on their own path; the class is "active" or empty |
| Navigation.ActiveClass | react-example/Navigation.js:11-21 | `getActiveClass`; specified by `ActiveIff` and `PrefixNeedsSlash` |
| Navigation.PrefixNeedsSlash | react-example/Navigation.js:16 | `/albumsX` does not activate the albums item, and `/albums/7` does |
| Js.FilterIdempotent | react-example/Friends.js:156 | filtering a list twice by the same test is filtering it once |
| Js.Length | picsure/src/pages/Register.jsx:222 | the UTF-16 length lies between the code-point count and twice it, and is 0 only for the empty string |
| Js.LengthAppend | picsure/src/pages/Register.jsx:222 | the length of a concatenation is the sum of the lengths |
| Js.LengthOfBmp | picsure/src/pages/Register.jsx:222 | a string within the Basic Multilingual Plane has one unit per character |
| Js.AstralCountsTwice | picsure/src/pages/Register.jsx:222 | three emoji have length 6 |
| Php.IntValOfDecimalString | models/AlbumPermission.php:47-48 | `intval` of a decimal numeral is the number it spells, and its prefix is whole |
| Php.LeadingIntExamples | models/AlbumPermission.php:47-48 | `intval` gives 1000 for "1e3", 1 for "1.5", -12 for " -12abc" and 0 for "abc" |
| Php.LeadingInt | models/AlbumPermission.php:47-48 | a string that starts with no blank, digit, sign or point gives 0 |
| Php.LooseEqualsInt | api/friends.php:117 | PHP 8's `==` of a body field with an id; specified by `LooseEqualsDecimalString` and `LooseEqualsExamples` |
| Php.DecimalStringIsNumeric | api/friends.php:117 | the decimal text of any integer is a numeric string |
| Php.LooseEqualsDecimalString | api/friends.php:117 | the decimal text of m equals id n iff m = n |
| Php.LooseEqualsExamples | api/friends.php:117 | `true` equals exactly the non-zero ids, and "5abc" is not 5 |
| Php.Empty | api/friends.php:107 | PHP's `empty` of a body field; specified by `EmptyIff` |
| Php.EmptyIff | api/friends.php:107 | exactly null, false, 0, "" and "0" are empty, and each is 0 under `intval` |
| Php.IntVal | models/AlbumPermission.php:47-48 | `intval`: null is 0, booleans 0 or 1, integers themselves; strings are specified by `IntValOfDecimalString` and `LeadingIntExamples` |
| Database.BodyKey | api/album_permissions.php:133-134 | null selects nothing and an integer itself; a string selects a row iff its leading number is whole, and then the row `intval` names |
| Database.BodyKeyOfDecimalString | api/album_permissions.php:133-134 | the decimal spelling of an id selects that id |
| Database.BodyKeyExamples | api/photos.php:149-152 | "1.5" selects no album and "1e3" selects album 1000 |

## Left out

- Crypto, encoding and JSON are not implemented: base64, HMAC-SHA256 and
  `json_encode`/`json_decode` are parameters. The only facts assumed about
  them are those in `Jwt.Lawful`.
- Password hashing and verification are parameters.
- The clock and `Math.random()` are parameters.
- SQL failures are not modelled: every statement succeeds, so the 500 and
  503 answers a failed `execute()` would give never occur.
- Transactions are taken as atomic.
- The hardcoded secret key is a constant, and the HMAC is never computed.
- Concurrency is not modelled, including the check-then-insert races in
  `sendRequest` and `createOrUpdate`. Every operation runs alone.
- HTTP plumbing is left out: CORS, header reading, `Bearer` stripping, URI
  splitting, routing in api/index.php, the action dispatch in api/auth.php
  and JSON output. A request is already a decoded datatype.
- A path segment is already classified: a numeric segment that spells a
  whole number ("5", "5.0", "1e3") is that id; a numeric segment with a
  fraction ("1.5") selects no row; otherwise it is non-numeric or missing.
- `htmlspecialchars` and `strip_tags` are the identity, except that
  `strip_tags(null)` gives "".
- Timestamps (`created_at`) are not stored, except a photo's upload time.
- Response bodies are reduced to the decision they carry: ids, capability
  flags or a message. Usernames, pictures and timestamps in lists are not
  modelled.
- `Php.IntVal` computes exactly. PHP reads a string with a fraction or an
  exponent as a float first, so its precision loss and the overflow to
  PHP_INT_MAX are not modelled.
- A JSON number with a fraction in a request body is not modelled: a body
  scalar is null, a boolean, an integer or a string.
- FriendsApi.Route: a receiver string with text after its number ("5abc")
  is never equal to the caller, as in PHP, and the request is stored under
  the row that number selects. MySQL in strict mode refuses such text in an
  integer column; SQL failures are not modelled, so there the model records
  a request where the server would answer 503.
- UsersApi.Route lists users, and AlbumPermissions.ReadByAlbum lists
  grants, in table row order. Their queries (models/User.php:48-49,
  models/AlbumPermission.php:134-145) have no `ORDER BY`, so the database
  may return the rows in any order; the model fixes one.
- Scenarios.Posted sends the album id as a number. The sharing page sends the
  route parameter, which is text; its decimal spelling selects the same row
  (`Database.BodyKeyOfDecimalString`).
- Photos.ReadByAlbum: photos uploaded in the same second come in an order
  the model fixes; the database leaves their order open.
- RegisterForm.Validate takes `Number(age)` as a given `ageValue`, and the
  comparison with 14 and 30 is made on that number. How JavaScript turns the
  text into a number is not modelled.
- `Js.Lower` folds ASCII letters only.
- HomeFeed.FormatTimestamp returns the unit and the count, not the rendered
  text "3d".
- The `validateForm` checks of Login.jsx and Profile.jsx repeat the Register
  checks (the required fields and `RegisterForm.EmailLike`), so they are not
  modelled separately.
- PhotosApi.DeleteRule: when the photo's album no longer exists, the owner
  test is false and the route can only answer 503. The lemma states that
  case but not the database's referential integrity, which is not modelled.
- FriendsApi.Route takes `action` as a string only. A non-string JSON
  action is not modelled.
- Rendering, Material-UI, `fetch` and `localStorage` are not modelled. The
  React handlers are functions from the page state and the server's answer
  to the next state. They are modelled as if the call succeeded where the
  code as written cannot reach that branch:
- FriendsPage.Candidates, FriendsPage.CandidatesIff: the friends page's
  load calls `getSentFriendRequests` and `getAllUsers`
  (react-example/Friends.js:38, :47), which the client API does not define,
  so the load ends in the catch with no users; it also stores the
  `{records: [...]}` answers whole as the friend and request lists. The
  filter is modelled over lists of records as the server shapes them,
  with each field the page reads that a record lacks as undefined.
- FriendsPage.Send, FriendsPage.SendAppendsOnePending: the page posts
  `{friend_id: userId}` as the receiver id (react-example/Friends.js:101-103),
  an object the endpoint cannot bind (api/friends.php:109-110), so the
  server never answers success; the handler is modelled for a success.
- FriendsPage.RemovalsTouchOnlyTheirId: reject and cancel call
  `rejectFriendRequest` and `cancelFriendRequest`
  (react-example/Friends.js:152, :188), which are not defined; they throw
  and only the catch's message shows. Only remove can succeed.
- AlbumShare.AfterShare, AlbumShare.ShareRemovesFromAvailable: as written
  the owner's sharing page throws while rendering (see "## Findings"), so
  the share handler is modelled for the corrected page.
- AlbumShare.UpdateOnlyThatEntry, AlbumShare.RemoveOnlyThatEntry: a grant's
  PUT and DELETE always answer 403
  (`PermissionsApi.PutAndDeleteAlwaysForbidden`), so these success branches
  never run against this server.
- picsure/backend is not part of this model. It is a separate
  unauthenticated CRUD backend with seed data.
- The remaining React pages are not part of this model.
- `updatePassword` and the unused settings getters are not part of this
  model, because no endpoint calls them.
- Friendship.Run applies operations to the friendship store alone. The
  endpoint-level sequence is `Scenarios.ShareNeedsFriendship`.

## Findings

| source | as written | input that shows it | evidently intended | confidence | as-written member | corrected member |
|---|---|---|---|---|---|---|
| api/users.php:141-149 | The profile update never loads the stored user. A field missing from the body is PHP null, and `User::update` writes it as "". | A PUT to /api/users/5 by user 5 with the body `{"username": "new"}` | Only the fields present in the body change | not executed | UsersApi.PutAsWrittenErasesEmail | UsersApi.PutKeepsAbsentFields |
| api/users.php:151-170 | The settings object is never read before `update()`. Every flag missing from the body is stored as `intval(null)` = 0, and every missing string as "". | A PUT to /api/users/5 by user 5 with the body `{"settings": {"theme": "dark"}}`. The user stops accepting friend requests. | Only the settings present in the body change | not executed | UsersApi.SettingsAsWrittenStopsRequests | UsersApi.SettingsMergedKeepsPreference |
| react-example/AlbumShare.js:40-58 | For an owner the load calls `api.albumPermissions.getAlbumPermissions`, which the client's permission API (react-example/api.js:199-231) does not define; the call throws and the catch shows "An error occurred while fetching data". The friend answer is also stored whole, so `friends.filter` at :166 throws on the next render. | The album's owner opens the sharing page of their album | The owner sees the friends without access and the current grants | not executed | AlbumShare.OwnerLoadFailsAsWritten | AlbumShare.CorrectedLoadShowsLists |

`UsersApi.Route` answers a PUT with `UsersApi.PutAsWritten`, as the code
does (`UsersApi.RoutePutAsWritten`), through `UsersApi.ProfileAsWritten` and
`UsersApi.SettingsAsWritten`. The corrected update is
`UsersApi.PutCorrected`, which uses `UsersApi.ProfileIntended` and
`UsersApi.SettingsMerged`; `UsersApi.PutKeepsAbsentFields` and
`UsersApi.SettingsMergedKeepsPreference` are proved about it.
