# A verified model of the video backend's decisions

This project models the decision-making core of an Express/Mongoose video
backend in Dafny. It covers:

- the account handlers on the user collection: register, login, logout,
  refresh, change password and update details;
- the channel statistics handler;
- the two authentication gates, mandatory and optional;
- the video handlers: the listing pipeline builder, reading one video,
  publishing, and the owner-only update, delete and publish toggle;
- the two media-store helpers: the upload guard, and the deletion helper that
  recovers an asset's public id from its URL.

The stores are values. Users are a sequence in the store's natural order, so
`findOne` means the first match. Videos are a map from id to record, keyed by the id as the store writes it (hex digits in lower case).
Subscriptions are a sequence of `{subscriber, channel}` edges.

Each handler is a pure function from the store and the request to the reply and
the store afterwards. Where the source changes a record step by step, a class
does the same steps in place. `UserStore.UserTable`, `VideoStore.VideoCatalog`
and `Auth.Request` hold that state. Their methods' postconditions equal the
pure functions, and lemmas about those functions state what the source promises.

Opaque pieces are parameters:

- token verification is a function from a token to the user id it carries;
- the password comparison is a function from two passwords to a verdict;
- freshly minted tokens, new record ids and creation times are arguments;
- the media store's upload is a function from a request to an optional asset.

Files:

- `common.dfy` (module `Base`): the reply and failure types, and the
  JavaScript string rules the handlers rely on. These are truthiness, `trim`,
  `toLowerCase` on ASCII, `startsWith`, first-occurrence `replace`,
  `parseInt(s, 10)`, ObjectId validity, and the key an id denotes.
- `media.dfy` (`Media`): the upload guard, and public-id extraction with the
  exact meaning of the pattern `\/v\d+\/(.+)\.\w+$`.
- `accounts.dfy` (`Accounts`), `user_table.dfy` (`UserStore`): the account
  handlers.
- `channel.dfy` (`Channels`): channel statistics.
- `auth.dfy` (`Auth`): both gates.
- `videos.dfy` (`Videos`), `video_catalog.dfy` (`VideoStore`): per-video
  handlers.
- `listing.dfy` (`Listing`): the listing pipeline, what its stages let
  through, pagination options and the reply.

Every login failure is a 400 that stores nothing, but the handler tells the
three causes apart by message: no username or email, no matching user, and a
wrong password. The model keeps the three messages.

## Model

| member | source | states |
|---|---|---|
| Base.TrimEmptyIff | src/controllers/user.controllers.js:315 | a string trims to "" exactly when every character is ECMAScript whitespace |
| Base.LowerIdempotent | src/controllers/user.controllers.js:322 | lower-casing a lower-cased name changes nothing |
| Media.UploadOnCloudinary | src/utils/cloudinary.js:9-24 | a falsy path gives null and no upload; otherwise the upload is requested with resource type "auto" and its asset returned, or the store's failure rethrown |
| Media.ShapeGivesGroup | src/utils/cloudinary.js:34 | a URL of the form `/v<digits>/<id>.<ext>` from some position to its end makes the matcher capture exactly `id` there, and its extension dot is the last dot |
| Media.GroupGivesShape | src/utils/cloudinary.js:34 | conversely, every group the matcher captures comes from such a shape |
| Media.ExtractIsFirstMatch | src/utils/cloudinary.js:34-39 | an id is extracted exactly when the pattern matches somewhere; it is the group of the leftmost match; no match gives null |
| Media.ExtractedIdPrecedesExtension | src/utils/cloudinary.js:34 | an extracted id is non-empty and the URL ends with id + "." + a non-empty run of word characters, so the id never carries the extension |
| Media.ExtractExample | src/utils/cloudinary.js:34 | for `/image/upload/v12/f/a.b.png` the id is `f/a.b`: the folder stays and only the last dot is cut |
| Media.DeleteFromCloudinary | src/utils/cloudinary.js:26-43 | a falsy URL gives null; otherwise a destroy request is issued exactly when the pattern matches, for the extracted id, with resource type "image" unless one is given |
| Accounts.PublicDropsOnlySecrets | src/controllers/user.controllers.js:45-47 | the response form of a user drops the password and the refresh token and nothing else |
| Accounts.FindFirst | src/controllers/user.controllers.js:24-26 | `findOne` returns the first record in natural order that matches the filter, or none when none matches |
| Accounts.TempFiles | src/controllers/user.controllers.js:53-56 | the files unlinked on the way out are exactly the truthy upload paths |
| Accounts.AnyBlankIffWhitespaceField | src/controllers/user.controllers.js:17-21 | the blank check trips exactly when one of username, email, full name and password is present and whitespace only; an absent field never trips it |
| Accounts.Register | src/controllers/user.controllers.js:9-57| on every exit the temporary files are removed; a blank field gives 400; an existing username or email gives 400 and no record; otherwise a failed upload (avatar first) is that failure and the store is unchanged; it succeeds exactly when no field is blank, nobody has that username or email and both uploads went through; success appends one record with the given username, email, full name and password, the uploaded avatar and cover URLs, no refresh token and an empty history, and returns it without secrets |
| Accounts.RegisterKeepsUniqueness | src/controllers/user.controllers.js:24-43 | registration keeps ids, usernames and emails unique |
| Accounts.Login | src/controllers/user.controllers.js:59-112| every failure is a 400 that stores nothing, with its own message: neither username nor email, no matching user, or a wrong password; it succeeds exactly when a username or email is given, a record matches and the password checks against the first match; success stores the new refresh token on that record and returns it without secrets, with both tokens |
| Accounts.LoginStoresReturnedToken | src/controllers/user.controllers.js:80-110 | after login, the stored refresh token of the returned user is the token the login returned |
| Accounts.IncomingRefreshToken | src/controllers/user.controllers.js:139 | the cookie token when truthy, otherwise the body token |
| Accounts.Refresh | src/controllers/user.controllers.js:138-174 | every failure is a 400 that changes nothing; success returns the new token pair |
| Accounts.RefreshAcceptsOnlyStoredToken | src/controllers/user.controllers.js:139-160 | refresh succeeds exactly when the presented token (cookie first) is non-empty, verifies to the id of a record and equals that record's stored token; only that record's token changes, to the new one |
| Accounts.RefreshIsSingleUse | src/controllers/user.controllers.js:151-160 | once a token has been exchanged for a different one, presenting it again fails |
| Accounts.LoginThenOnlyReturnedTokenRefreshes | src/controllers/user.controllers.js:152-154 | after a login, a refresh for that user succeeds with the token the login returned and with no other |
| Accounts.RefreshAsWritten | src/controllers/user.controllers.js:144-149 | the handler as written: every request fails and the store is unchanged |
| Accounts.RefreshAsWrittenRefusesValidToken | src/controllers/user.controllers.js:146-148 | a user whose stored token is presented is refused by the handler as written and accepted by the corrected one |
| Accounts.Logout | src/controllers/user.controllers.js:114-136 | only the authenticated user's refresh token is unset; every other record and field stays the same |
| Accounts.LogoutIdempotent | src/controllers/user.controllers.js:115-122 | logging out twice leaves what logging out once leaves |
| Accounts.LogoutRevokesRefresh | src/controllers/user.controllers.js:115-122 | after logout, no refresh carrying that user's id succeeds, whatever token is presented |
| Accounts.ChangePassword | src/controllers/user.controllers.js:176-200 | succeeds exactly when the confirmation matches, the user exists and the old password is right; only that user's password changes; every failure is a 400 that changes nothing |
| Accounts.ChangePasswordCheckOrder | src/controllers/user.controllers.js:178-190 | a mismatched confirmation is reported before any lookup, a missing user before a wrong old password |
| Accounts.UpdateDetails | src/controllers/user.controllers.js:210-237| with neither field truthy it is a 400; with one truthy and no such user a 500; it succeeds exactly when some field is truthy and the user exists; only the truthy fields among username and email then change on that record, which is returned without secrets |
| Accounts.UpdateDetailsIdempotent | src/controllers/user.controllers.js:216-226 | sending the same details again returns the same reply and changes nothing more |
| UserStore.UserTable.FindById | src/controllers/user.controllers.js:182| the scan returns the position of the first record with that id; in a table with unique ids no other record has it |
| UserStore.UserTable.FindByUsernameOrEmail | src/controllers/user.controllers.js:66-68 | the scan returns the position of the first record with that username or that email |
| UserStore.UserTable.RegisterUser | src/controllers/user.controllers.js:9-57 | the reply, the new table and the removed files are those of Accounts.Register; ids stay unique |
| UserStore.UserTable.LoginUser | src/controllers/user.controllers.js:59-112 | the reply and the new table are those of Accounts.Login |
| UserStore.UserTable.LogoutUser | src/controllers/user.controllers.js:114-136 | the new table is Accounts.Logout of the old one |
| UserStore.UserTable.RefreshAccessToken | src/controllers/user.controllers.js:138-174 | the reply and the new table are those of Accounts.Refresh |
| UserStore.UserTable.ChangeCurrentPassword | src/controllers/user.controllers.js:176-200 | the reply and the new table are those of Accounts.ChangePassword |
| UserStore.UserTable.UpdateUserDetails | src/controllers/user.controllers.js:210-237 | the reply and the new table are those of Accounts.UpdateDetails |
| Channels.HasSubscriber | src/controllers/user.controllers.js:349-357 | true exactly when some edge has the channel and the viewer as subscriber |
| Channels.CountSubscribersIsMultiplicity | src/controllers/user.controllers.js:325-345 | the subscriber count is the number of edges whose channel is the user |
| Channels.CountSubscribedIsMultiplicity | src/controllers/user.controllers.js:333-348 | the subscribed count is the number of edges whose subscriber is the user |
| Channels.SubscribedImpliesCounted | src/controllers/user.controllers.js:343-357 | a subscribed viewer makes the subscriber count at least one |
| Channels.GetChannelInfo | src/controllers/user.controllers.js:313-384| a missing or blank name gives 400; no user with the lower-cased name gives 400; it succeeds exactly otherwise, with the first such user's id, name, full name, avatar and cover image, both edge counts, and whether the viewer is present and subscribed |
| Channels.ChannelLookupIgnoresCase | src/controllers/user.controllers.js:319-323 | asking with a name or with its lower-case form gives the same reply |
| Channels.AnonymousNeverSubscribed | src/controllers/user.controllers.js:349-357 | without a viewer the reply never says subscribed |
| Auth.ExtractToken | src/middlewares/auth.middleware.js:7-8 | the cookie token when truthy; otherwise a token only when the header starts with "Bearer ", and the header is then "Bearer " followed by it |
| Auth.BearerRoundTrip | src/middlewares/auth.middleware.js:8 | a header "Bearer " + t yields t when no cookie token is set |
| Auth.Resolve | src/middlewares/auth.middleware.js:10-16| no token exactly when the extracted token is falsy; a bad token exactly when it does not verify; an unknown user exactly when it verifies to an id no record has; otherwise the first record with that id is identified |
| Auth.MandatoryOutcome | src/middlewares/auth.middleware.js:10-21 | no token gives 400 "access token absent"; a verification failure propagates; an unknown id gives 400; otherwise the user is attached without password and refresh token |
| Auth.OptionalOutcome | src/middlewares/optionalAuth.middleware.js:10-22 | a user is attached exactly when one was found; every other outcome attaches nothing and raises nothing |
| Auth.GatesAgree | src/middlewares/optionalAuth.middleware.js:8-17 | the optional gate attaches a user exactly when the mandatory gate would admit the request, and the same profile |
| Auth.AuthenticateUser | src/middlewares/auth.middleware.js:6-24 | on success the user is attached and the next handler is called once; on failure the error is returned and the request is untouched |
| Auth.OptionalAuth | src/middlewares/optionalAuth.middleware.js:5-23 | the next handler is called exactly once on every path; the attached user changes only when a user was found |
| Videos.Locate | src/controllers/video.controllers.js:127-134| a falsy or malformed id gives 400; an id whose ObjectId is not stored gives 404; otherwise the video stored under that ObjectId, with hex digits read in either case |
| Videos.LocateIgnoresHexCase | src/controllers/video.controllers.js:127-131 | a hex id and its lower-case spelling find the same video or give the same error |
| Videos.LocateAsWritten | src/controllers/video.controllers.js:127-134 | the id check as written: a falsy id gives 400 and every truthy id throws |
| Videos.LocateAsWrittenRefusesStoredVideo | src/controllers/video.controllers.js:127 | a stored video under a well-formed id is found by the intended check and refused by the check as written |
| Videos.GetVideoById | src/controllers/video.controllers.js:125-146 | the video is returned exactly when the id is valid, the video exists, and it is published or the viewer owns it; an unpublished video of someone else gives 403 |
| Videos.UnpublishedOnlyForOwner | src/controllers/video.controllers.js:137-139 | an unpublished video is refused to a request without a user and returned to its owner |
| Videos.Publish | src/controllers/video.controllers.js:87-123| a missing title gives 400, then a missing file 400; otherwise a failed upload (video file first) is that failure; it succeeds exactly when title and both files are given and both uploads went through; failures leave the store unchanged; success stores one published record with zero views under the new id, owned by the requester, with the given title and description, the uploaded file and thumbnail URLs and the file's duration |
| Videos.PublishThenGet | src/controllers/video.controllers.js:105-112 | a video just published is returned to any reader, exactly as stored |
| Videos.Update | src/controllers/video.controllers.js:148-195 | succeeds exactly for the owner of an existing video; only the truthy fields among title and description change |
| Videos.UpdateIdempotent | src/controllers/video.controllers.js:166-184 | sending the same update again returns the same reply and changes nothing more |
| Videos.Delete | src/controllers/video.controllers.js:197-223 | succeeds exactly for the owner of an existing video, and removes that video alone |
| Videos.DeleteThenGetNotFound | src/controllers/video.controllers.js:212 | after a delete, reading the video gives 404 |
| Videos.Toggle | src/controllers/video.controllers.js:225-260 | succeeds exactly for the owner of an existing video; the flag is negated and nothing else changes |
| Videos.ToggleTwiceRestores | src/controllers/video.controllers.js:241-249 | two toggles restore the store |
| Videos.NonOwnerChangesNothing | src/controllers/video.controllers.js:159-239 | a non-owner's update (400), delete (403) and toggle (403) leave the store as it was |
| Videos.HandlersKeepKeys | src/controllers/video.controllers.js:178-184 | update, delete and toggle keep every record stored under its own id |
| VideoStore.VideoCatalog.PublishAVideo | src/controllers/video.controllers.js:87-123 | the reply and the new store are those of Videos.Publish |
| VideoStore.VideoCatalog.UpdateVideo | src/controllers/video.controllers.js:148-195| the reply and the new store are those of Videos.Update; the record returned carries the requested id |
| VideoStore.VideoCatalog.DeleteVideo | src/controllers/video.controllers.js:197-223 | the reply and the new store are those of Videos.Delete |
| VideoStore.VideoCatalog.TogglePublishStatus | src/controllers/video.controllers.js:225-260| the reply and the new store are those of Videos.Toggle; the record returned carries the requested id |
| Listing.SortOf | src/controllers/video.controllers.js:56-62 | the given field, descending exactly when sortType is "desc"; without a field, newest first by creation time |
| Listing.BuildListingPipeline | src/controllers/video.controllers.js:10-63 | the stages pushed, or the 400 for a malformed user id, are those of Listing.Pipeline |
| Listing.PipelineShape | src/controllers/video.controllers.js:13-63 | a malformed truthy user id is the only error; otherwise 2 to 4 stages: the owner match first exactly when a user id is given, then the publication match, then the search exactly when a query is given, and the sort last and only there |
| Listing.Selected | src/controllers/video.controllers.js:19-54 | a video is listed exactly when every stage admits it |
| Listing.OwnerStageIgnoresHexCase | src/controllers/video.controllers.js:19-23 | the owner stage admits the same videos for a hex user id in any letter case |
| Listing.OthersSeeOnlyPublished | src/controllers/video.controllers.js:26-33 | unless a requester lists their own videos, only published videos are listed |
| Listing.OwnerSeesAllOwn | src/controllers/video.controllers.js:26-33| a requester listing their own videos without a search gets exactly the videos they own, published or not |
| Listing.ListingByUserIsTheirs | src/controllers/video.controllers.js:15-24| a listing for a user id holds only videos whose owner is that ObjectId |
| Listing.PageOptionsOf | src/controllers/video.controllers.js:66-69 | an absent page is 1 and an absent limit is 10 |
| Listing.PageOptionsOfNumerals | src/controllers/video.controllers.js:66-69 | a page and a limit written as decimal numerals are read back as those numbers |
| Listing.Respond | src/controllers/video.controllers.js:75-83 | an absent or empty page is a success with an empty list and "No videos found"; otherwise the page itself |

## Left out

- Token signing, token verification and password hashing are parameters. Token expiry, which depends on the clock, is not modelled.
- Accounts.RefreshIsSingleUse: requires the new token to differ from the presented one. Two tokens minted for the same user in the same second can be identical, and then the old token still works.
- Accounts.UpdateDetails: nothing in the handler keeps usernames and emails unique. Uniqueness comes from the user schema's unique indexes, which are not part of this model.
- Auth.OptionalOutcome: the optional gate selects with `"-password - refreshToken"`, which mixes an exclusion, an empty path and an inclusion. The model assumes the store accepts that projection: it attaches the found user and keeps the stored refresh token on it. If the store rejects the projection, the catch turns every lookup into "no user", and the model does not capture that.
- Base.Lower: lower-cases the ASCII letters A to Z only, while `toLowerCase` lower-cases every cased letter. Channels.GetChannelInfo can therefore answer 400 "channel not available" for a name with non-ASCII capitals, such as "ÄNN" against a stored "änn", where the handler finds the channel.
- Media.UploadOnCloudinary: the network calls (upload and destroy) are not modelled. A deletion is described by the destroy request it would issue.
- Local temporary files are modelled only as the list of paths registration removes on every exit. publishAVideo removes none.
- The case-insensitive `$regex` search is the parameter `matches` of `Listing.Admits`. The query is a regular expression, not a literal, and its matching is not modelled.
- Listing.Selected: keeps the store's order. The ordering the sort stage imposes and the page slicing done by the pagination plugin are not modelled. Only the options handed to the plugin and the empty-page reply are modelled.
- Query-string values are modelled as strings. Repeated parameters, which Express turns into arrays, are not modelled.
- Videos.Locate: keys a 24-digit hex id by its lower-case form, but keeps a 12-character id as written. The driver reads a 12-character id as twelve raw bytes, so the model does not find a video stored under the hex form of those bytes, and answers 404 where the handler finds it. Listing.Selected compares the owner stage's ids the same way.
- Listing.PageOptionsOf: `parseInt` is unbounded here. JavaScript numbers lose precision past 2^53.
- The handlers test ids through the named export `Mongoose` of the driver, as `Mongoose.Types.ObjectId.isValid`. The model reads this as ObjectId validity: a 12-character string or 24 hexadecimal digits. Whether that property path resolves on the class depends on the driver, which is not part of this model; the case where it does not is recorded under "## Findings". The listing's user-id check at line 16 reads the same path, and its as-written form is not modelled separately.
- The store is reliable and has no concurrent writers. A record found by id is still there when it is updated or deleted. The 500 replies for a failed create, update, delete or toggle after a successful lookup cannot occur in the model.
- The "failed to upload video" 500 of publishAVideo is kept. It cannot occur in the model: an upload of a truthy path either returns an asset or throws.
- getUserWatchHistory, getCurrentUser, updateUserAvatar and updateUserCoverImage are not part of this model. The same holds for view counting and watch-history appends, which the modelled handlers never perform.
- updateVideo's thumbnail branch is not modelled. It reads the multi-file field while the route uploads a single file, and it assigns an undeclared variable. The model updates title and description only.
- Routing is not modelled. Note that the listing and single-video routes are mounted without an authentication gate, so in practice the viewer is absent there. The owner-sees-unpublished branches are reachable only through a gate that is not mounted.
- The video routes import `video.controller.js`, but the controller file is named `video.controllers.js`.
- Logging, the response envelope, cookies and their options, CORS and body limits are not modelled. Status codes of failures that propagate as exceptions (`Uncaught`) depend on the error handler, which is not part of this model.

## Findings

| source | as written | input that shows it | evidently intended | confidence | as-written member | corrected member |
|---|---|---|---|---|---|---|
| src/controllers/user.controllers.js:146 | refresh verifies the presented token with an identifier that the file neither declares nor imports; the ReferenceError lands in the catch at :147-148, so every refresh that carries a token is answered 400 "invalid or expired refresh token" | one user "a1" whose stored refresh token is "r1", presenting "r1" in the cookie (Accounts.RefreshAsWrittenRefusesValidToken) | verify with the refresh-token secret from the environment; a token equal to the stored one is exchanged for a new pair (Accounts.RefreshAcceptsOnlyStoredToken) | high; not executed | Accounts.RefreshAsWritten | Accounts.Refresh |
| src/controllers/video.controllers.js:127 | the id checks read `Types` from the driver's exported class `Mongoose`; where the driver defines `Types` on the class's prototype only, the read gives undefined and every truthy id makes the handler throw a TypeError (lines 150, 199 and 228 likewise) | any stored video requested by its well-formed id (Videos.LocateAsWrittenRefusesStoredVideo) | read `Types` from the default instance, or use the imported `isValidObjectId`: a well-formed id of a stored video finds it (Videos.Locate) | medium; depends on the driver's build; not executed | Videos.LocateAsWritten | Videos.Locate |
