# HeartyRabbit: a verified model

HeartyRabbit is an image-album server. Its HTTP front end, image libraries and client user
interfaces surround a few stateful cores, and these cores are modelled here in Dafny and proved
correct for all inputs and all runs.

| file | what it models |
|---|---|
| `RedisConnection.dfy`, `RedisPipeline.dfy`, `RedisTraffic.dfy` | the pipelined Redis client: completions, transactions, re-entrant commands, broken replies, disconnection |
| `Ownership.dfy`, `OwnershipEffects.dfy` | the ownership database as a transition system over six linked tables, and what each step changes and leaves alone |
| `RedisKeys.dfy`, `OwnershipStore.dfy` | the same database as Lua scripts over one flat Redis keyspace, proved to simulate the tables |
| `CollectionListing.dfy`, `BlobQueries.dfy` | permissions, and how the replies of the reading scripts become listings |
| `SquareCrop.dfy`, `TieOrders.dfy` | the sweep line that chooses a square crop of an image, and what the order of ties can do to it |
| `Escape.dfy`, `URLIntent.dfy`, `URLRoundTrip.dfy` | percent encoding, the URL parser and printer, and exactly which requests survive a round trip |
| `Session.dfy` | login sessions with racing renewals, logout and expiry |
| `StringTemplate.dfy` | cutting HTML files into segments and filling the gaps |
| `StringFields.dfy` | one-pass field lookup and cookies |
| `RequestScheduler.dfy` | the client's bounded request queue and the counting callback of a download |
| `PHashDb.dfy` | the packed perceptual-hash index |
| `Common.dfy` | notions shared by the other files |

`dafny verify dfyconfig.toml` checks the whole project.

## How the model is organised

Code that updates fields is a class, and every method is proved to have exactly the effect of a
step function on the value of the object (`State()`, `Value()`, or the database that a keyspace
represents). A run is a sequence of events, and the theorems are lemmas about all runs of the step
functions. A theorem is never about one body: it ties the steps to something defined
independently, such as the reply stream, a brute-force scan, the rectangles of an image, the time
that passed since a login, or the text a template was made from.

## What was found

Some promises do not hold for the code as it is written. The model follows the code; each entry
names the lemma that says exactly when the promise holds and, where that lemma does not already
show a failure, one with a concrete input.

- Callbacks run in issue order, except after a reply parse error that arrives while a transaction
  has queued replies and its end is still pending. `OrderIff` shows that this one event is both
  necessary and sufficient for disorder, and `DisorderHappens` gives a run with it; every callback
  still runs exactly once.
- The assertion at the top of `on_read` can fail (`WriteErrorFailsAssertion`). `StrandedReads` is the
  exact account: each write error that hits while a completion is pending strands one read, and
  nothing else does, so the assertion has failed or a read is outstanding for nobody exactly in the
  runs with such a write error.
- A move keeps back links, inodes and owners consistent iff the blob is in the source and the
  destination differs, or the blob has a further collection, or the move changes nothing
  (`MoveKeepsLinksIff`). Such a move can still leave an empty collection listed with a stale cover
  (`MoveLeavesStaleCover`). Exactly the moves of a cover leave a cover that is no member
  (`StepKeepsCoveredIff`, `CoverIsMemberIff`), and exactly the moves of an only member leave an empty
  collection listed (`MoveKeepsTightIff`, `ListedIffNonEmpty`).
- Two user names share a collection key iff one name followed by a colon is a prefix of the other
  followed by a colon (`CollectionKeysCollide`). Colon-free names never do.
- A URL does not survive printing and parsing when, for example, the user is empty but the
  collection is not, or a view names a file that is not a blob ID. `RoundTripIff` gives the exact
  condition.
- An owner cannot see a blob with an access-control-list permission; `KnownPermissions` shows that
  these are the only ones.
- An unstable sort may put an exit before an entry at the same position, and then the crop misses
  content that touches both edges of a window: `TieLosesContent` gives an image whose crop may hold
  one feature although a window with two exists. `ChosenIffPossible` says exactly which positions
  can be chosen over all tie orders, in terms of the content alone, and `AlwaysOptimalIff` when all
  of them are optimal, edges included; so they are if there is no tie.
- The field scan and splitting differ for the empty field name (`EmptyNameDiffers`), and for that
  name exactly if the text is empty or ends in a separator and the unnamed field before it does not
  happen to be empty as well (`ScanIsLookupIff`).
- An ID that straddles two stored IDs is taken as present and never stored (`StraddlingIsLost`). A new
  ID will be found, for ever, iff it does not occur in the packed string before it is added
  (`FoundIffNotYetInString`).
- Logging out with a cookie that was already renewed does not end the login
  (`RenewedLogoutSparesSuccessor`); logging out ends it iff no other cookie of the login is current
  (`LogoutEndsLoginIff`).

## Model

| member | source | states |
|---|---|---|
| `RedisPipeline.ExactlyOnce` | src/server/net/Redis.cc:69-225 | In every state of every run of issues, re-entrant issues, reply chunks, parse errors, read errors and write errors, each issued command is in exactly one place: delivered once, queued in a transaction, or pending. Nothing is delivered that was not issued. |
| `RedisPipeline.OwnResult` | src/server/net/Redis.cc:105-225 | Every callback saw what the reply stream alone assigns to its command: its own reply, its own element of the array that ends its run of `QUEUED` replies, the abort error on nil or `OK`, or a transport error without a reply. |
| `RedisPipeline.OwnReplyFromServer` | src/server/net/Redis.cc:112-135 | Against a server that answers as Redis does, the same in terms of the commands: the span is the caller's own `MULTI` transaction, and the reply is its element of the `EXEC` answer or the answer that cancelled it. |
| `RedisPipeline.OrderIff` | src/server/net/Redis.cc:146-157 | Callbacks run in issue order if and only if no parse error arrived while a transaction was queued and its end pending. |
| `RedisPipeline.DisorderHappens` | src/server/net/Redis.cc:146-157 | A run of one transaction whose `EXEC` callback runs before the callback of the command inside it. |
| `RedisPipeline.OneReader` | src/server/net/Redis.cc:79-104 | While the socket is open exactly one read is outstanding if a completion is pending and none otherwise; no pending completion is ever without a reader. |
| `RedisPipeline.NothingLost` | src/server/net/Redis.cc:171-184 | Disconnecting in any reachable state empties both queues and leaves every issued command delivered exactly once; whoever still waited is told the error given, or an I/O error in place of success. |
| `RedisPipeline.StrandedReads` | src/server/net/Redis.cc:84-107 | In every run the write errors that hit a pending completion are as many as the reads that completed with no completion pending plus the reads outstanding for nobody; so the assertion of `on_read` has failed, or a read is outstanding for nobody, iff there was such a write error. |
| `RedisPipeline.WriteErrorFailsAssertion` | src/server/net/Redis.cc:84-107 | An issue, a write error and the cancelled read fail the assertion of `on_read` once. |
| `RedisPipeline.ServerFits` | src/server/net/Redis.cc:190-218 | The replies of a well-behaved server never reach the assert(false) of `on_exec_transaction`. |
| `RedisPipeline.SpanIsTransaction` | src/server/net/Redis.cc:117-127 | A run of `QUEUED` replies and the reply that ends it are exactly one transaction, from the command after its `MULTI` to its `EXEC` or `DISCARD`. |
| `RedisPipeline.StepKeepsInv` | src/server/net/Redis.cc:69-225 | Each event keeps delivered, queued and pending together equal to the issued commands (in order unless it is the garbling event), keeps every report right, and never rewrites the history. |
| `RedisTraffic.ErrorsAreTold` | src/server/net/Redis.cc:84-184 | From every reachable state a failed read reaches everybody waiting as its own error code and a failed write as a protocol error, and the connection closes. A read leaves it open iff its data could be parsed and every reply had somebody waiting; then every reply is handled and none is reported as an error, and otherwise all errors reported are protocol errors. |
| `RedisTraffic.WritesWhatIsIssued` | src/server/net/Redis.cc:69-96 | Over every run the commands written are those issued from outside and those that callbacks issued, in the order in which that happened. |
| `RedisTraffic.EveryCallbackIsHeard` | src/server/net/Redis.cc:115-162 | From every reachable state, unless a read closes the connection, the commands of every callback it runs are written, in the order of the callbacks. |
| `RedisConnection.Connection.DoWrite` | src/server/net/Redis.cc:69-96 | The completion is queued before the command leaves, and a read starts only for the first pending completion. |
| `RedisConnection.Connection.OnExecTransaction` | src/server/net/Redis.cc:186-225 | Every queued completion runs with its element or the abort error, then the completion of `EXEC`, then the queue is empty, although callbacks may issue commands meanwhile. |
| `RedisConnection.Connection.HandleOne` | src/server/net/Redis.cc:117-132 | One reply queues, ends a transaction, or answers the front completion, which is then removed. |
| `RedisConnection.Connection.ConsumeReplies` | src/server/net/Redis.cc:112-135 | The loop consumes replies until none is left or nobody waits, and reports how many it consumed. |
| `RedisConnection.Connection.ReportParseError` | src/server/net/Redis.cc:146-151 | Every pending completion, including those issued meanwhile, gets a protocol error. |
| `RedisConnection.Connection.EndRead` | src/server/net/Redis.cc:146-162 | After an error everybody waiting is told and the connection closes; otherwise the next read starts iff somebody waits. |
| `RedisConnection.Connection.DisconnectWith` | src/server/net/Redis.cc:171-184 | Queued completions, then pending ones, get the error (an I/O error in place of success), and the socket closes. |
| `RedisConnection.Connection.ReadDone` | src/server/net/Redis.cc:105-163 | The whole of `on_read` for a successful read: consume, treat surplus replies as an error, disconnect on error, otherwise read again iff somebody waits. |
| `RedisConnection.Connection.ReadFailed` | src/server/net/Redis.cc:164-168 | A failed read disconnects with its error. |
| `Ownership.Reachable` | src/server/hrb/Ownership.cc:108-302 | In every state reachable by link, unlink, set_permission, set_cover and safe moves: back links mirror membership, an inode and an owner entry exist iff some back link does, every nonempty collection is listed, and the public list has at most 100 distinct entries that are all public. |
| `Ownership.StepKeepsLinks` | src/server/hrb/Ownership.cc:96-247 | Every valid operation keeps back links, membership, inodes and owners consistent. |
| `Ownership.MoveKeepsLinksIff` | src/server/hrb/Ownership.cc:148-161 | A move keeps the tables consistent if and only if a condition holds that the caller can check before the move. |
| `Ownership.ListedIffNonEmpty` | src/server/hrb/Ownership.cc:208-231 | In all runs a nonempty collection is listed; and only nonempty ones are, in all states of a run, if and only if no move of the run takes the only member out of a collection. |
| `Ownership.CoverIsMemberIff` | src/server/hrb/Ownership.cc:208-231 | Every cover is a member of its collection, in all states of a run, if and only if no move of the run takes a cover out of its collection; then a collection is also listed iff it is nonempty. |
| `Ownership.StepKeepsCoveredIff` | src/server/hrb/Ownership.cc:148-161 | From a state where every cover is a member, an operation keeps that iff it is not a move of the cover of its source. |
| `Ownership.MoveKeepsTightIff` | src/server/hrb/Ownership.cc:148-161 | From a state where exactly the nonempty collections are listed, a move keeps that iff it does not take the only member of its source. |
| `Ownership.UnlinkFindsAlbum` | src/server/hrb/Ownership.cc:213-219 | In every reachable state, when unlink leaves a nonempty collection behind, its album record exists. |
| `Ownership.MoveLeavesStaleCover` | src/server/hrb/Ownership.cc:152-160 | Moving the only blob of a collection leaves it listed, empty, and with a cover that is gone. |
| `Ownership.UnlinkMembers` | src/server/hrb/Ownership.cc:208-231 | Unlinking removes one member, touches no other collection, replaces exactly a removed cover, and delists exactly an emptied collection. |
| `Ownership.QueryIsScan` | src/server/hrb/Ownership.cc:108-232 | In every reachable state the back links of a blob name exactly the collections that a scan of all collections finds, and there are any iff the inode and the owner entry exist. |
| `Ownership.LinkThenUnlink` | src/server/hrb/Ownership.cc:96-247 | Linking a blob into a collection that does not hold it and unlinking it restores all six tables, cover and inode included. |
| `OwnershipEffects.LinkEffect` | src/server/hrb/Ownership.cc:96-138 | The blob becomes a member under the given name, or "hello" without one; an existing inode and cover are kept; every other entry of every table stays. |
| `OwnershipEffects.UnlinkEffect` | src/server/hrb/Ownership.cc:197-231 | The blob leaves the collection; every other name, cover and back link stays. |
| `OwnershipEffects.UnlinkEffectOnBlob` | src/server/hrb/Ownership.cc:197-206 | The blob's inode, owner entry and publication go iff this was its last collection; no other blob is touched. |
| `OwnershipEffects.MoveEffect` | src/server/hrb/Ownership.cc:148-161 | The destination holds the blob under the name the source held, and the source no longer holds it; every other name, all inodes, owners and publications stay. A blob that is not in the source changes nothing but its back links. |
| `OwnershipEffects.SetPermissionEffect` | src/server/hrb/Ownership.cc:286-302 | The permission is stored as given and the description kept; a published blob is last in the public list, any other is not in it; nothing else changes. |
| `OwnershipEffects.SetCoverEffect` | src/server/hrb/Ownership.cc:323-338 | The cover becomes the blob iff the collection is listed and holds it, and nothing else changes. |
| `Ownership.PublicIsSuffix` | src/server/hrb/Ownership.cc:293-301 | In all runs the public list is a suffix of the list that would be kept without the limit, and nothing else depends on the limit. |
| `Ownership.PublicByLatestPublication` | src/server/hrb/Ownership.cc:293-301 | The unlimited list, and so its suffix, is ordered by the latest publication of each blob. |
| `Ownership.PublicIsPublished` | src/server/hrb/Ownership.cc:286-302 | The unlimited list holds exactly the blobs that were published while they existed and have since kept both their permission and their inode. |
| `Ownership.NothingForgotten` | src/server/hrb/Ownership.cc:296-298 | As long as no more than 100 blobs are public, the limit changes nothing. |
| `RedisKeys.BlobRefs` | src/server/hrb/RedisKeys.cc:20-27 | The user and the 20-byte blob can be recovered from the key, and the key belongs to no other table. |
| `RedisKeys.BlobOwners` | src/server/hrb/RedisKeys.cc:29-34 | The blob can be recovered from the key, and the key belongs to no other table. |
| `RedisKeys.CollectionKey` | src/server/hrb/RedisKeys.cc:36-43 | For a colon-free user both user and collection can be recovered, whatever the collection contains. |
| `RedisKeys.CollectionList` | src/server/hrb/RedisKeys.cc:45-50 | The user can be recovered from the key, and the key belongs to no other table. |
| `RedisKeys.PublicBlobs` | src/server/hrb/RedisKeys.cc:52-55 | The key belongs to no other table. |
| `RedisKeys.BlobInode` | src/server/hrb/RedisKeys.cc:57-62 | The user can be recovered from the key, and the key belongs to no other table. |
| `RedisKeys.CollectionKeysCollide` | src/server/hrb/RedisKeys.cc:36-43 | Two different users share some collection key iff one name closed by a colon is a prefix of the other; colon-free users never do. |
| `OwnershipStore.Store.Link` | src/server/hrb/Ownership.cc:96-138 | The script's commands on the flat keyspace simulate the link step on the six tables. |
| `OwnershipStore.Store.Unlink` | src/server/hrb/Ownership.cc:177-247 | The script simulates the unlink step with a replacement cover taken from the remaining members, and fails exactly when a nonempty collection has no album record. |
| `OwnershipStore.Store.UnlinkBlob` | src/server/hrb/Ownership.cc:197-206 | The first half: the blob goes with its last back link, and only then. |
| `OwnershipStore.Store.UnlinkMember` | src/server/hrb/Ownership.cc:208-231 | The second half: the member goes, and the listing or cover with it. |
| `OwnershipStore.Store.RepairCover` | src/server/hrb/Ownership.cc:216-231 | The cover is replaced by a remaining member iff the removed blob was the cover. |
| `OwnershipStore.Store.Move` | src/server/hrb/Ownership.cc:140-175 | The script simulates the move step, including the half-done state it leaves when the blob is not in the source, which is exactly when it fails. |
| `OwnershipStore.Store.SetPermission` | src/server/hrb/Ownership.cc:281-312 | The script simulates the permission step with the list limited to 100, and fails without effect exactly when the inode is missing. |
| `OwnershipStore.Store.SetCover` | src/server/hrb/Ownership.cc:314-348 | The script simulates the cover step and answers 1 exactly when the collection is listed and holds the blob. |
| `OwnershipStore.Store.Execute` | src/server/hrb/Ownership.cc:96-348 | Whatever the request, its script simulates the step of that request on the tables. |
| `OwnershipStore.Store.Replay` | src/server/hrb/Ownership.cc:96-348 | After any sequence of scripts on an empty store the flat keyspace represents the last of a chain of databases, each one step of the same request after the one before. |
| `OwnershipStore.TraceIsRun` | src/server/hrb/Ownership.cc:96-348 | Such a chain is a run of the steps on the tables, and a valid one if its moves are safe. |
| `OwnershipStore.ExistsMeans` | src/server/hrb/Ownership.cc:202-213 | `EXISTS` on a back-link set or a collection hash tells whether any link or member is left. |
| `Permissions.KnownPermissions` | src/common/hrb/Permission.cc:18-68 | Describing a permission and reading it back gives the same one, and the owner may see the blob, both exactly for public, shared and private. |
| `Permissions.WordsMean` | src/common/hrb/Permission.cc:18-68 | "public" is for everybody, "shared" for whoever is signed in or a guest, and every other word for the owner alone; a word that is none of these is read back as "private". |
| `CollectionListing.ScanCollection` | src/server/hrb/Ownership.cc:255-270 | The reply is a sequence of triples, one and only one for every entry of the collection hash, in whatever order. |
| `CollectionListing.FromReply` | src/server/hrb/Ownership.cc:27-67 | The loop gives the rows the requester may see, the first row of a blob winning. |
| `CollectionListing.ParsedRows` | src/server/hrb/Ownership.cc:39-65 | Parsing flattened triples lists exactly the blobs whose inode can be read and allows the requester, under the collection's filename when it is nonempty. |
| `CollectionListing.GetCollection` | src/server/hrb/Ownership.ipp:77-117 | Script and parser together give exactly the members whose inode allows the requester, read from the flat keyspace. |
| `CollectionListing.ListingIsComplete` | src/server/hrb/Ownership.cc:27-67 | In every reachable state, requester by requester: the signed-in owner who is no guest sees every member; guests and other signed-in users see exactly the public and shared ones; anybody else exactly the public ones. Each is shown with its own permission and details, under the collection's filename when that is nonempty. |
| `CollectionListing.MoveCarriesListing` | src/server/hrb/Ownership.cc:140-175 | After a move the destination lists the blob exactly as the source did, and the listing of the source loses it and nothing else. |
| `CollectionListing.PublicRowsResolve` | src/server/hrb/Ownership.cc:350-366 | In every reachable state each public entry has a public inode and a collection that holds it. |
| `BlobQueries.ScanRefs` | src/server/hrb/Ownership.ipp:363-370 | The script pairs each collection that refers to the blob, once, with the blob's inode. |
| `BlobQueries.QueryBlob` | src/server/hrb/Ownership.ipp:357-399 | The answer holds each collection of the blob exactly once with the blob's entry, and nothing when the inode is missing or unreadable. |
| `BlobQueries.QueryFindsAll` | src/server/hrb/Ownership.ipp:357-399 | In every reachable state the answer names exactly the collections that hold the blob. |
| `BlobQueries.ScanPublic` | src/server/hrb/Ownership.cc:350-366 | The script gives one row per public entry, in order, with any collection of the blob and its inode. |
| `BlobQueries.ListPublicBlobs` | src/server/hrb/Ownership.ipp:312-354 | The result is the readable part of the public list, in order, each with its own entry and one of its collections. |
| `BlobQueries.PublicPage` | src/server/hrb/Ownership.ipp:312-354 | In every reachable state all public blobs are shown: at most 100, none twice, each public, each with a collection that holds it. |
| `SquareCrop.AddContent` | src/server/image/ImageContent.cc:227-243 | A rectangle adds its enter and its exit point on the principal axis, x for a wide image and y otherwise; `WorthIsCovered` ties these to the rectangle itself. |
| `SquareCrop.Accumulate` | src/server/image/ImageContent.cc:130-136 | Each total is the sum of all scores up to its point; positions and scores stay. |
| `SquareCrop.Clamp` | src/server/image/ImageContent.cc:138-146 | The points outside the image collapse into the last of them, moved to position 0, unless all points are outside. |
| `SquareCrop.MaxTotal` | src/server/image/ImageContent.cc:148-152 | The first point with the greatest total. |
| `SquareCrop.Crop` | src/server/image/ImageContent.cc:114-172 | For every tie order of the sort: a square of the shorter side, inside the image whenever the content is, centred without content. If no face or feature is larger than the square, no square of the image holds more (a face counts its area, a feature 1), unless content touches both its near and its far edge, and none holds more away from its near edge. |
| `SquareCrop.WorthIsCovered` | src/server/image/ImageContent.cc:227-243 | What the sweep maximises at a position is what the square there holds of the image in both coordinates: the areas of its faces, at least 1 each, plus the number of its features. |
| `SquareCrop.TotalIsHonest` | src/server/image/ImageContent.cc:130-146 | A total never exceeds the score of the content fully inside the window at that position, whatever the tie order. |
| `SquareCrop.SomeTotalReaches` | src/server/image/ImageContent.cc:130-146 | For every position some total, no later than there, equals the score of the content ahead of its near edge. |
| `SquareCrop.ChosenInRange` | src/server/image/ImageContent.cc:138-162 | The chosen position is between 0 and the last enter position: an exit point beyond it is never chosen. |
| `SquareCrop.ChosenIsPossible` | src/server/image/ImageContent.cc:127-152 | Whatever the tie order, the chosen position covers at least what any position covers ahead of its near edge, and strictly more than any position before it. |
| `SquareCrop.BeatsTieFree` | src/server/image/ImageContent.cc:127-152 | A possible position covers at least what any position without a tie covers, edges included. |
| `TieOrders.ChosenIffPossible` | src/server/image/ImageContent.cc:127-162 | A position is chosen under some tie order if and only if it is possible, a condition on the content alone. |
| `TieOrders.AlwaysOptimalIff` | src/server/image/ImageContent.cc:127-162 | Every tie order gives a crop that no window beats, edges included, if and only if every possible position is such; in particular if there is no tie. |
| `TieOrders.TieLosesContent` | src/server/image/ImageContent.cc:127-162 | An image for which some tie order chooses a crop with one feature although a window with two exists. |
| `Escape.UrlEncode` | src/common/util/Escape.cc:80-98 | The loop computes the percent encoding, byte by byte. |
| `Escape.UrlDecode` | src/common/util/Escape.cc:100-123 | The loop decodes up to the first malformed escape. |
| `Escape.DecodeEncode` | src/common/util/Escape.cc:80-123 | Decoding undoes encoding for every byte string. |
| `Escape.DecodesWriting` | src/common/util/Escape.cc:62-123 | A text that writes bytes plainly or as escapes with digits of either case decodes to these bytes, and a malformed escape ends it. |
| `Escape.EveryTextWrites` | src/common/util/Escape.cc:100-123 | Every text is such a text up to its end or its first malformed escape. |
| `Escape.EncodesStandard` | src/common/util/Escape.cc:19-98 | Encoding goes byte by byte and escapes, with upper-case digits, exactly the bytes that section 3.3 of RFC 3986 does not allow in a path. |
| `Escape.EncodeConcat` | src/common/util/Escape.cc:80-98 | Encoding a concatenation is concatenating the encodings. |
| `Escape.EncodeNoDelimiters` | src/common/util/Escape.cc:43-56 | Encoded text holds no `?` and no `#`. |
| `Escape.EncodeSlashes` | src/common/util/Escape.cc:43-56 | Encoded text holds a slash iff the text does. |
| `Escape.SplitLeft` | src/common/util/Escape.cc:125-142 | The text before the first delimiter, the delimiter, and what follows it; all of the text when there is none. |
| `Escape.SplitRight` | src/common/util/Escape.cc:144-162 | The text after the last delimiter, the delimiter, and what precedes it; all of the text when there is none. |
| `URLIntent.TrimView` | src/common/hrb/URLIntent.cc:262-269 | Both loops together trim all slashes from both ends. |
| `URLIntent.ExtractLeft` | src/common/hrb/URLIntent.cc:61-70 | The first field; only a slash is consumed with it. |
| `URLIntent.Url.constructor` | src/common/hrb/URLIntent.cc:73-116 | The object holds what the two-ended parser finds in the URL. |
| `URLIntent.Url.ParseFieldFromLeft` | src/common/hrb/URLIntent.cc:150-162 | Decodes and stores one field from the left and returns the rest. |
| `URLIntent.Url.ParseFieldFromRight` | src/common/hrb/URLIntent.cc:164-189 | A filename is always taken, a blob only if it is 40 hex digits, a collection takes everything left unless it has a question mark. |
| `URLIntent.Url.WriteFields` | src/common/hrb/URLIntent.cc:212-241 | Prints the fields of the action in order, with a slash after a nonempty user and collection. |
| `URLIntent.Url.Str` | src/common/hrb/URLIntent.cc:191-260 | Prints path and query string. |
| `URLRoundTrip.RoundTripIff` | src/common/hrb/URLIntent.cc:73-260 | For every intent of byte strings: parsing its printed form gives the same action, user, collection, filename, target and option if and only if the intent is canonical (trimmed collection, slash-free user and filename, a blob ID or nothing for view and api, a user where there is more, unused fields empty). |
| `URLRoundTrip.PrintedIsValidIff` | src/common/hrb/URLIntent.cc:286-305 | The printed form of a canonical intent is valid iff view and api have a user, upload a user and a filename, lib a filename, and query an option. |
| `URLRoundTrip.CutIff` | src/common/hrb/URLIntent.cc:108-115 | Cutting user, collection and filename from both ends of a joined path gives them back iff they are canonical, also when the collection ends like a blob ID. |
| `URLRoundTrip.ParsedBlobIsHex` | src/common/hrb/URLIntent.cc:173-180 | A parsed view or api request has no filename or a blob ID, for every URL. |
| `URLRoundTrip.EncodedFirstSlash` | src/common/hrb/URLIntent.cc:61-70 | Extracting a field from an encoded path cuts the decoded path at its first slash. |
| `URLRoundTrip.NoActionNeverReturns` | src/common/hrb/URLIntent.cc:207-210 | An intent without action prints as the home page. |
| `URLRoundTrip.PathWords` | src/common/hrb/URLIntent.cc:271-284 | What each first word of a path asks for, whatever follows it; any other word is not valid. |
| `URLRoundTrip.TargetWords` | src/common/hrb/URLIntent.cc:307-324 | What each word after "query" asks for, with the query string that follows. |
| `URLRoundTrip.BlobIdText` | src/common/hrb/ObjectID.cc:77-80 | A blob ID is 40 hexadecimal digits of either case. |
| `Session.CookieKeepsUserAndSuccessor` | src/server/crypto/Authentication.cc:142-282 | Under any interleaving of logins, checks, renewals, logouts and expiry a cookie keeps its user and its one successor forever, and the successor belongs to the same user and login. |
| `Session.VerifiedUserIsRight` | src/server/crypto/Authentication.cc:142-177 | A verification reports the user who logged in, and rejects a live session only if its user name is empty. |
| `Session.OneCurrentPerLogin` | src/server/crypto/Authentication.cc:234-259 | Each login has at most one live session that was not renewed. |
| `Session.RenewedCookieExpires` | src/server/crypto/Authentication.cc:242-259 | A renewed cookie is dead 30 seconds after its renewal, is never renewed again, and late renewals continue with the old cookie. |
| `Session.RaceHasOneWinner` | src/server/crypto/Authentication.cc:234-282 | Of two requests renewing one cookie the first gets a cookie for the same user that lasts a full length; the other goes on with the old cookie, which works for 30 more seconds; its own candidate never becomes a session. |
| `Session.LoginLasts` | src/server/crypto/Authentication.cc:73-177 | Unless renewed or logged out, a login is live exactly for the length asked for; verifying it with that length accepts it in the first half of that time, renews it in the second, and rejects it afterwards. |
| `Session.RenewalLasts` | src/server/crypto/Authentication.cc:242-259 | Unless renewed again or logged out, a renewed session is live exactly for its own length from the renewal, and the old cookie exactly for 30 seconds. |
| `Session.LoggedOutStaysDead` | src/server/crypto/Authentication.cc:215-227 | A cookie that was logged out is never live again. |
| `Session.LogoutEndsLoginIff` | src/server/crypto/Authentication.cc:215-282 | After logging out, in every continuation, no cookie of the login is live from 30 seconds on, if and only if no other cookie of the login was current. |
| `Session.LogoutOfNewestEndsLogin` | src/server/crypto/Authentication.cc:215-282 | Logging out with a cookie that was never renewed ends the login in that sense. |
| `Session.RenewedLogoutSparesSuccessor` | src/server/crypto/Authentication.cc:215-282 | A run in which logging out with a renewed cookie leaves its successor current. |
| `Session.SessionStore.CreateSession` | src/server/crypto/Authentication.cc:73-100 | Stores the user under a fresh cookie, marked current, with the session length. |
| `Session.SessionStore.VerifySession` | src/server/crypto/Authentication.cc:142-177 | Rejects, accepts, or decides to renew in the second half of the session's life; changes no key. |
| `Session.SessionStore.RenewSession` | src/server/crypto/Authentication.cc:234-282 | Re-marks the old key and stores the new one iff the old one is current; tells which cookie to go on with. |
| `Session.SessionStore.DestroySession` | src/server/crypto/Authentication.cc:215-227 | Removes that session key only. |
| `StringTemplate.Template.Inject` | src/server/util/StringTemplate.cc:40-87 | Cuts the first occurrence in the first segment that has one, adds exactly one gap, and segments and removed texts still weave back to the file; without an occurrence an empty gap goes to the end. |
| `StringTemplate.Template.Replace` | src/server/util/StringTemplate.cc:19-22 | The needle itself becomes the gap. |
| `StringTemplate.Template.ReplaceInside` | src/server/util/StringTemplate.cc:24-28 | Only the first occurrence of the inner text within the needle becomes the gap; nothing happens when it does not occur there. |
| `StringTemplate.Template.InjectBefore` | src/server/util/StringTemplate.cc:30-33 | An empty gap opens before the needle. |
| `StringTemplate.Template.InjectAfter` | src/server/util/StringTemplate.cc:35-38 | An empty gap opens after the needle. |
| `StringTemplate.WeaveSplit` | src/server/util/StringTemplate.cc:72-82 | Cutting any segment of any template in two around a gap weaves back to the same text. |
| `StringTemplate.Instantiate` | src/server/util/StringTemplate.hh:72-79 | Too many segments are refused; missing ones are empty. |
| `StringTemplate.Instance.SetExtra` | src/server/util/StringTemplate.hh:81-81 | Fills one gap, and refuses an index without one. |
| `StringTemplate.Instance.Data` | src/server/util/StringTemplate.hh:83-99 | The buffers concatenate to the segments with the extra texts between them, although empty ones are skipped. |
| `StringTemplate.Instance.Str` | src/server/util/StringTemplate.hh:101-107 | The text is the segments with the extra texts between them. |
| `StringTemplate.Reproduce` | src/server/util/StringTemplate.cc:19-87 | Whatever was replaced or injected before, filling each gap with the text it removed reproduces the file exactly, if and only if the template fits the instance. |
| `StringFields.TakePiece` | src/common/util/StringFields.hh:36-43 | One turn of the scan takes exactly one separated piece and splits it at its first `=`. |
| `StringFields.MatchField` | src/common/util/RepeatingTuple.hh:40-54 | The value goes to the first field with that name and to no other. |
| `StringFields.BasicFind` | src/common/util/StringFields.hh:27-48 | The loop terminates and gives each first-named field what scanning the pieces gives. |
| `StringFields.ScanIsLookupIff` | src/common/util/StringFields.hh:28-48 | The one-pass scan equals splitting on the separators, then at the first `=`, with the last match winning, for every nonempty name; for the empty name iff the text ends in a field or the unnamed field before the closing separator is empty. |
| `StringFields.ScanIsLookupUnclosed` | src/common/util/StringFields.hh:31-46 | For every name the scan equals splitting the text without its closing separator. |
| `StringFields.EmptyNameDiffers` | src/common/util/StringFields.hh:31-46 | For the empty name the two differ. |
| `StringFields.Cookie.Add` | src/common/util/Cookie.cc:53-65 | Appends a field, without `=` when the value is empty. |
| `StringFields.Cookie.Field` | src/common/util/Cookie.cc:48-51 | The scanned value, or the empty string. |
| `StringFields.Cookie.Has` | src/common/util/Cookie.cc:67-70 | Whether the scan finds the field. |
| `StringFields.AddSetsField` | src/common/util/Cookie.cc:48-70 | Adding a clean field to any header sets that field and leaves every other lookup as it was. |
| `StringFields.ScanAfterAdds` | src/common/util/Cookie.cc:48-70 | After any series of adds with clean names and values a lookup gives the last value added. |
| `StringFields.FormField` | src/common/util/StringFields.hh:67-67 | In a URL form a field appended to any text after `&` or `;` is found, and every other lookup stays. |
| `StringFields.BlanksAroundName` | src/common/util/StringFields.hh:39-43 | A cookie's name is found with any blanks around it, and its value is taken as it stands. |
| `RequestScheduler.FifoAndBusy` | src/client/http/RequestScheduler.cc:18-40 | After every call of every run requests have started in the order of their adding, and exactly min(added, finished + limit) have started. |
| `RequestScheduler.FiresOnceAtTheEnd` | src/client/http/HRBClient.ipp:241-266 | A download of n blobs fires its completion exactly once, at the last finish, and not before, also while blobs are still being added; with n = 0 it never fires. |
| `RequestScheduler.Scheduler.AddRequest` | src/client/http/RequestScheduler.cc:18-22 | Queues the request and starts what the limit allows. |
| `RequestScheduler.Scheduler.TryStartAll` | src/client/http/RequestScheduler.cc:24-34 | Starts requests from the front while the limit allows. |
| `RequestScheduler.Scheduler.FinishRequest` | src/client/http/HRBClient.ipp:229-236 | Frees the slot, starts what the limit allows, and reports to the counting callback. |
| `RequestScheduler.AggregatedCallback.Call` | src/common/util/AggregatedCallBack.hh:33-38 | Counts, and fires exactly at the expected count. |
| `PHashDb.Index.Add` | src/server/hrb/index/PHashDb.cc:23-48 | Appends the ID to the string of its hash unless it occurs somewhere in it; other hashes stay. |
| `PHashDb.Index.ExactMatch` | src/server/hrb/index/PHashDb.hh:33-56 | The loop decodes the string in blocks of 20 bytes. |
| `PHashDb.IndexInvariant` | src/server/hrb/index/PHashDb.cc:25-35 | Over every run of adds the string holds whole IDs, decoding gives distinct IDs that were all added, and every added ID stays a substring. |
| `PHashDb.HashesAreSeparate` | src/server/hrb/index/PHashDb.cc:25-35 | Over every run of adds the string of each hash packs exactly the blobs added with that hash. |
| `PHashDb.FoundIffNotYetInString` | src/server/hrb/index/PHashDb.cc:25-35 | Over every run of adds an ID is decoded iff it did not occur anywhere in the packed string before it was first added; one that is missing occurs at unaligned offsets only. |
| `PHashDb.StraddlingIsLost` | src/server/hrb/index/PHashDb.cc:28-32 | An ID that overlaps two stored ones is never stored and never found. |

## Left out

- Callbacks of the Redis client: the commands a callback issues are an arbitrary but finite script; null completions are not modelled, and callbacks run by `disconnect` issue nothing, as its comment demands.
- hiredis: one read delivers a sequence of complete replies and then "not ready" or a parse error; byte-level parsing, command formatting and a closed socket that still delivers data are not modelled.
- Replies that reach the assert(false) of `on_exec_transaction`: a run consists of replies that fit the queued commands, and `ServerFits` shows that a well-behaved server sends no others.
- Redis connection pool: `Pool` and reuse of sockets.
- Redis itself: scripts are atomic, and JSON and MessagePack texts are stored decoded and taken to be well formed; inode JSON is decoded by an arbitrary partial function.
- `update_blob`, `rename_blob`, `get_blob` and `scan_collections`: single commands that would only add easy members.
- Collection metadata returned by `get_collection` beside the blobs.
- SquareCrop.Crop: arithmetic is unbounded, and `std::sort` is represented by an insertion sort of which only "sorted permutation" is used. Positions and areas that overflow 32 bits are not covered.
- Face and feature detection: the rectangles are inputs.
- `URLIntent` constructors that trim their arguments, `add_option`, and the validity flag of intents that were not parsed: only the parsing constructor, printing and `valid` are modelled.
- Session times: whole seconds of one clock; session IDs are fresh by assumption, users are arbitrary strings, and lost replies are not modelled.
- Passwords, `add_user`, `verify_user` up to the creation of the session, guests and `share_resource`.
- `Cookie::expires`, and the `find` template's conversion of a missing field to an empty view other than in `Cookie.Field`.
- Requests of the scheduler do not call it back from `run()`, and the path of `download_blob` where the file cannot be opened is not modelled.
- HTTP and TLS sessions, the listener, blob files, uploads, configuration, logging, and the Qt, Android, Python and browser clients: input and output around the cores.
- Hashing: Blake2 and perceptual hashes are inputs.
