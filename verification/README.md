# RippleHub core in Dafny

RippleHub is a small social network: users send, accept, decline and cancel friend requests,
chat one-to-one with sent/delivered/seen receipts, publish posts with up to ten images, like and
comment on posts, keep a profile, and receive notifications in real time. This project models
the core of its Express controllers and upload middleware, and the state logic of the React pages
and stores that drive them, and proves what those pieces promise.

Layout:

- `store.dfy` (module `Store`): the MongoDB collections as one `Database` class. It has one
  sequence field per collection (users, friend requests, notifications, posts, likes, comments,
  profiles, chat messages). It also has an id counter, which hands out fresh ids and logical
  creation times, and the log of socket events the server emits. `Database.Valid()` holds the
  invariants the controllers keep:
  - ids are unique and below the counter;
  - friendship is symmetric and friend lists have no repeats;
  - at most one pending request per pair of users;
  - at most one acceptance notification per request;
  - at most one like per user and post;
  - at most one profile per user.
- One module per controller:
  - `FriendRequestController`
  - `UserController`
  - `ChatController`
  - `PostController`
  - `PostInteractionController`
  - `ProfileController`
  - `NotificationController`

  Each request handler is a method taking the `Database`, with the HTTP status as its result.
- `UploadMiddleware`: the multer file filter, the upload limits, and the two middlewares that
  run before post creation and post update.
- `Json`: `JSON.stringify` and `JSON.parse` on arrays of strings. The edit page puts the kept
  images in this form into its update body, and `updatePost` reads them back.
- Front end:
  - `MessagePage` (the chat page as a class, plus its socket handlers as functions)
  - `NotificationStore`
  - `NotificationPage`
  - `PasswordStrength`
  - `EmailVerification` (the one-time-code form as a class)
  - `ProfileSettings` (the security form as a class)
  - `ResetPassword`
  - `UploadPage` (the new-post form as a class)
  - `UploadEditPage`
- Shared helpers:
  - `Wrappers` (Option)
  - `Seqs`
  - `Text` (JavaScript whitespace, `trim`, UTF-16 length, substring search)
  - `Sorting` (a stable insertion sort standing in for Mongo's `sort`)
  - `MessageStatus`

Conventions:

- User ids are strings, as they come from the auth token.
- Document ids are the counter's natural numbers.
- A socket `emit` becomes an entry appended to an event log.
- The outcome of a request whose result comes from a server the model cannot see is a boolean
  parameter.

## Model

| member | source | states |
|---|---|---|
| FriendRequestController.SendFriendRequest | backend/src/controller/friendRequest.controller.js:6-41 | an existing pending request between the two users in either direction gives 400 with nothing changed; otherwise a pending request is stored, then an unknown sender gives 404 (the request stays), else one `friend_request` notification for the receiver is stored and emitted to the receiver's room (201); the store invariants are kept |
| FriendRequestController.RequestMessage | backend/src/controller/friendRequest.controller.js:31 | the text of a request notification: the sender's first and last name, then " sent you a friend request." |
| FriendRequestController.GetMyRequests | backend/src/controller/friendRequest.controller.js:43-53 | the requests the user sent or received, in store order: each as often as it is stored, no other |
| FriendRequestController.ResponseStatus | backend/src/controller/friendRequest.controller.js:69 | the new status is "accepted" exactly for the action "accept", and never "pending" |
| FriendRequestController.RespondToFriendRequest | backend/src/controller/friendRequest.controller.js:55-119 | unknown request gives 404; a request whose receiver no longer exists gives 500; a caller other than the receiver gives 403; all three change nothing; otherwise the status is saved, and on accept the users become friends and the sender gets at most one acceptance notification per request; the store invariants are kept |
| FriendRequestController.AcceptOutcome | backend/src/controller/friendRequest.controller.js:72-111 | the outcome of an accept: a missing sender gives 500 with nothing changed; otherwise 200, both users list each other, and an acceptance notice is stored and emitted to the sender unless one for the request already exists |
| FriendRequestController.Befriend | backend/src/controller/friendRequest.controller.js:72-91 | on 200 the sender and the receiver are stored users, each listed in the other's friends; a missing sender gives 500 with users unchanged |
| FriendRequestController.AddFriend | backend/src/controller/friendRequest.controller.js:83-91 | the friend id ends up in that user's list; every other user and every id is unchanged |
| FriendRequestController.BefriendKeepsUsersOk | backend/src/controller/friendRequest.controller.js:79-91 | adding each to the other's list keeps friendship symmetric and repeat-free and touches no other user |
| FriendRequestController.BefriendAsWritten | backend/src/controller/friendRequest.controller.js:72-91 | the two pushes from the documents as loaded: every user keeps their id and place |
| FriendRequestController.BefriendAsWrittenAgrees | backend/src/controller/friendRequest.controller.js:72-91 | for two different users the pushes as written are the two `AddFriend` steps the model uses |
| FriendRequestController.SelfRequestRepeatsFriend | backend/src/controller/friendRequest.controller.js:6-91 | accepting a request a user sent to themselves stores their own id twice as written, once with `AddFriend` |
| FriendRequestController.FindAcceptNotice | backend/src/controller/friendRequest.controller.js:94-98 | finds a `friend_accept` notification to the sender for this request, or proves there is none |
| FriendRequestController.AnnounceAcceptance | backend/src/controller/friendRequest.controller.js:93-111 | an acceptance notification is stored and emitted to the sender only when none exists for the request |
| FriendRequestController.AcceptMessage | backend/src/controller/friendRequest.controller.js:104 | the text of an acceptance notice: "You are now friends with ", the receiver's first and last name, then "." |
| FriendRequestController.PendingUniqueAppend | backend/src/controller/friendRequest.controller.js:11-23 | storing a request between users with no pending request keeps pending requests unique per pair |
| FriendRequestController.PendingUniqueRespond | backend/src/controller/friendRequest.controller.js:69-70 | answering a request keeps pending requests unique per pair |
| FriendRequestController.PendingUniqueRemove | backend/src/controller/friendRequest.controller.js:146 | deleting a request keeps pending requests unique per pair |
| FriendRequestController.AcceptNoticeAppend | backend/src/controller/friendRequest.controller.js:100-106 | adding an acceptance notification for a request that has none keeps them unique per request |
| FriendRequestController.AcceptNoticeAppendOther | backend/src/controller/friendRequest.controller.js:28-35 | adding a notification of another type keeps acceptance notifications unique |
| FriendRequestController.AcceptNoticeRemove | backend/src/controller/friendRequest.controller.js:135-138 | deleting a notification keeps acceptance notifications unique |
| FriendRequestController.FindRequestNotice | backend/src/controller/friendRequest.controller.js:135-138 | finds the first `friend_request` notification of the request, or proves there is none |
| FriendRequestController.CancelRequest | backend/src/controller/friendRequest.controller.js:121-149 | unknown request gives 404 and a caller other than the sender 403, both without change; otherwise the request's `friend_request` notification is deleted, `remove_notification` is emitted to the receiver, and no request with that id remains (200) |
| FriendRequestController.WithoutRequestNotice | backend/src/controller/friendRequest.controller.js:134-138 | the notifications once the request's first `friend_request` notification, if any, is deleted |
| FriendRequestController.WithdrawRequest | backend/src/controller/friendRequest.controller.js:134-146 | the request leaves the list (no request keeps its id), its `friend_request` notification is deleted, `remove_notification` goes to the receiver, and the store invariants still hold |
| Store.FindUser | backend/src/controller/friendRequest.controller.js:73-74 | `User.findById`: the index of the user with that id, or proof that none has it |
| Store.FindRequest | backend/src/controller/friendRequest.controller.js:61-64 | `FriendRequest.findById`: the index of the request with that id, or proof that none has it |
| Store.Database.AddRequest | backend/src/controller/friendRequest.controller.js:23 | `FriendRequest.create`: the request is stored under the next id and the store invariants still hold |
| Store.Database.DeleteRequest | backend/src/controller/friendRequest.controller.js:146 | `request.deleteOne()`: that request leaves the table and the store invariants still hold |
| Store.Database.DeleteNotification | backend/src/controller/friendRequest.controller.js:135-138 | `Notification.deleteOne`: that notification leaves the table and the store invariants still hold |
| Store.Database.Notify | backend/src/controller/friendRequest.controller.js:28-35 | `Notification.create` plus the emit: the notification is stored under the next id and pushed to its recipient |
| UserController.FirstFromTo | backend/src/controller/user.controller.js:13-21 | `findOne({sender, receiver})`: the first request from one user to the other, or none exists |
| UserController.LinkAsWritten | backend/src/controller/user.controller.js:13-35 | a reported pending link is a real pending request in that direction; with no pending request either way nothing is reported |
| UserController.LinkAsWrittenMissesPending | backend/src/controller/user.controller.js:13-35 | an older declined request hides a newer pending one: the directory shows no request although one is pending |
| UserController.LinkAsWrittenReportsIntended | backend/src/controller/user.controller.js:13-35 | whenever the code as written reports a request, it is the one the corrected lookup reports |
| UserController.FirstPendingFromTo | backend/src/controller/user.controller.js:13-21 | the first pending request from one user to the other; none exactly when no pending request exists |
| UserController.Link | backend/src/controller/user.controller.js:27-35 | as meant: reports "sent" iff the caller has a pending request to the other user, "received" iff only the other has one to the caller, nothing iff neither, with the request's id |
| UserController.GetAllUsersAsWritten | backend/src/controller/user.controller.js:5-55 | every user but the caller, in store order, each with the link computed as written |
| UserController.GetAllUsers | backend/src/controller/user.controller.js:5-55 | every user but the caller, in store order, each with the intended link |
| UserController.DirectoryMembers | backend/src/controller/user.controller.js:9-46 | the caller never appears, every other user does, and each entry copies a stored user's public fields |
| UserController.Others | backend/src/controller/user.controller.js:9 | the users other than the caller, in store order |
| UserController.Enrich | backend/src/controller/user.controller.js:37-46 | a directory entry: the user's public fields and the request link |
| UserController.GetFriendList | backend/src/controller/user.controller.js:57-79 | entry i is the other party of the caller's i-th accepted request, in store order; each entry is a friend by an accepted request, and every such friend is listed |
| UserController.AcceptedOf | backend/src/controller/user.controller.js:61-68 | the accepted requests the caller sent or received, in store order |
| UserController.OtherParty | backend/src/controller/user.controller.js:70-74 | the receiver when the caller sent the request, the sender otherwise |
| UserController.OtherPartyIsFriend | backend/src/controller/user.controller.js:70-74 | the other party of an accepted request of the caller is a friend |
| UserController.FriendIsOtherParty | backend/src/controller/user.controller.js:61-74 | every friend is the other party of one of the caller's accepted requests |
| UserController.AcceptedRequestListsBoth | backend/src/controller/user.controller.js:57-79 | both parties of an accepted request see each other in their friend lists |
| ChatController.MarkSeen | backend/src/controller/chat.controller.js:20-24 | `updateMany` on (sender, receiver, status not seen): those messages, and only those, become seen; length and order kept |
| ChatController.Unseen | backend/src/controller/chat.controller.js:20-24 | the `updateMany` filter: from the given sender to the given receiver and not yet seen |
| ChatController.MarkSeenEffect | backend/src/controller/chat.controller.js:20-24 | afterwards no matching message is unseen, and no status moves backwards |
| ChatController.MarkSeenFrames | backend/src/controller/chat.controller.js:20-24 | messages between other parties are untouched, and text, parties and time never change |
| ChatController.MarkSeenIdempotent | backend/src/controller/chat.controller.js:20-24 | marking twice is marking once |
| ChatController.SeenUpdateAsWrittenMarksWrongSide | backend/src/controller/chat.controller.js:20-24 | as written, opening a chat leaves the other user's message unread and marks the caller's own message seen |
| ChatController.Conversation | backend/src/controller/chat.controller.js:26-34 | the messages between the two users, either direction, oldest first: each as often as it is stored, no other |
| ChatController.Between | backend/src/controller/chat.controller.js:26-32 | the `$or` filter: sent by one of the two users to the other, in either direction |
| ChatController.ConversationSymmetric | backend/src/controller/chat.controller.js:26-34 | the conversation is the same from either side |
| ChatController.GetMessages | backend/src/controller/chat.controller.js:4-41 | as meant: a malformed object id gives 400 with no change; otherwise the other user's messages to the caller become seen, and the whole conversation comes back oldest first with none of them unread |
| ChatController.IsValidObjectId | backend/src/controller/chat.controller.js:9-14 | `ObjectId.isValid` on a string: exactly 24 hexadecimal digits |
| ChatController.SeenUpdateAsWritten | backend/src/controller/chat.controller.js:20-24 | the active filter: the caller's own unseen messages to the other user become seen |
| ChatController.SeenUpdate | backend/src/controller/chat.controller.js:21 | the commented-out filter: the other user's unseen messages to the caller become seen |
| PostController.Query | backend/src/controller/post.controller.js:46-70 | the posts that pass the filter, newest first: each as often as it is stored, no other |
| PostController.CreatePost | backend/src/controller/post.controller.js:5-32 | no images gives 400 with nothing stored; a missing or empty caption or privacy fails validation (500) with nothing stored; otherwise exactly one post with the caller, caption, privacy and images is stored (201) |
| PostController.GetPost | backend/src/controller/post.controller.js:34-44 | the caller's posts, newest first: each as often as it is stored, no other |
| PostController.GetPosts | backend/src/controller/post.controller.js:46-70 | the posts of users linked to the caller by an accepted request, newest first: each as often as it is stored, no other |
| PostController.CreatedPostListed | backend/src/controller/post.controller.js:5-44 | a post just created appears in its author's list |
| PostController.FindPost | backend/src/controller/post.controller.js:76 | `Post.findById`: the index of the post with that id, or proof that none has it |
| PostController.DeletePost | backend/src/controller/post.controller.js:72-99 | unknown post gives 404 and another user's post 403, both without change; otherwise exactly that post is removed (200) |
| PostController.ExistingImages | backend/src/controller/post.controller.js:108-117 | an absent or empty `imagePaths` keeps no images; otherwise the parsed JSON array of strings, or an error |
| PostController.ExistingImagesOfStringify | backend/src/controller/post.controller.js:111-117 | what the edit page serialises is read back as the same list |
| PostController.UpdatePost | backend/src/controller/post.controller.js:101-139 | no post id or unreadable `imagePaths` gives 400, unknown post 404, all without change; otherwise the post gets the caption (empty when absent) and the kept images followed by the new ones (200) |
| Json.Stringify | frontend/src/pages/DashboardPages/uploadEditPage.jsx:83 | `JSON.stringify` of a list of strings: the elements, each quoted and escaped, between brackets and separated by commas |
| Json.ParseStringArray | backend/src/controller/post.controller.js:113 | `JSON.parse` of text that must hold an array of strings, with optional white space; anything else gives none |
| Json.ParseStringify | backend/src/controller/post.controller.js:113 | parsing the JSON text of a list of strings gives back the list, for every list and every character |
| PostInteractionController.FindLike | backend/src/controller/postInteraction.controller.js:9 | `Like.findOne({user, post})`: finds the pair's like, and none is found exactly when the pair has no like |
| PostInteractionController.ToggleLikes | backend/src/controller/postInteraction.controller.js:9-17 | the like table after a toggle: the pair's like is deleted when found, otherwise a like for the pair is appended |
| PostInteractionController.ToggleFlipsPair | backend/src/controller/postInteraction.controller.js:4-21 | toggling removes the pair's like if present and adds one otherwise, changes no other pair, and keeps one like per pair |
| PostInteractionController.ToggleTwice | backend/src/controller/postInteraction.controller.js:4-21 | toggling twice restores the set of liked pairs |
| PostInteractionController.ToggleLike | backend/src/controller/postInteraction.controller.js:4-21 | `liked` is true exactly when the pair was not liked before and is liked now; the status is 201 for a like and 200 for an unlike |
| PostInteractionController.AddComment | backend/src/controller/postInteraction.controller.js:23-34 | exactly one comment with the caller, post and text is appended (201) |
| PostInteractionController.GetPostInteractions | backend/src/controller/postInteraction.controller.js:36-54 | `isLiked` exactly when the caller likes the post; the comments are the post's comments, newest first, each as often as it is stored, no other |
| PostInteractionController.ToggleShowsInInteractions | backend/src/controller/postInteraction.controller.js:4-54 | right after a toggle the interactions report the new like state |
| ProfileController.FindProfile | backend/src/controller/profile.controller.js:13 | `Profile.findOne({userId})`: the user's profile, or proof that the user has none |
| ProfileController.CreateProfile | backend/src/controller/profile.controller.js:3-30 | a missing bio, image or user id gives 400 with no change; otherwise the existing profile is updated (200) or exactly one is created (201), and the user then has a profile with the given bio and image |
| ProfileController.GetMyProfile | backend/src/controller/profile.controller.js:32-46 | none exactly when the user has no profile; otherwise a stored profile of the user |
| ProfileController.GetMyProfileUnique | backend/src/controller/profile.controller.js:32-46 | with one profile per user, the profile read back is the only one of the user |
| NotificationController.Enrich | backend/src/controller/notification.controller.js:12-21 | only a `friend_request` notification with a request id gains `responded`: the request's status, or null when the request is gone |
| NotificationController.Inbox | backend/src/controller/notification.controller.js:6-8 | the user's notifications, newest first: each as often as it is stored, no other |
| NotificationController.GetNotifications | backend/src/controller/notification.controller.js:4-28 | the user's notifications, newest first, each enriched |
| NotificationController.FindNotification | backend/src/controller/notification.controller.js:32 | `Notification.findById`: the index of the notification with that id, or proof that none has it |
| NotificationController.MarkRead | backend/src/controller/notification.controller.js:32-35 | the found notification becomes read; every other notification is unchanged |
| NotificationController.MarkReadIdempotent | backend/src/controller/notification.controller.js:30-40 | marking read twice is marking once |
| NotificationController.MarkAsRead | backend/src/controller/notification.controller.js:30-40 | 404 with no change for an unknown id; otherwise 200, and the notification is now read |
| UploadMiddleware.StripTrailingSlashes | backend/src/middleware/multerConnection.js:25 | the longest prefix without trailing slashes |
| UploadMiddleware.LastIndexOf | backend/src/middleware/multerConnection.js:25 | the position of the last occurrence of the character, or none |
| UploadMiddleware.Basename | backend/src/middleware/multerConnection.js:25 | the suffix after the last slash, which contains no slash |
| UploadMiddleware.ExtNameShape | backend/src/middleware/multerConnection.js:25 | `path.extname`: empty or a suffix of the name (trailing slashes dropped) that starts with a dot and has no further dot and no slash |
| UploadMiddleware.ExtName | backend/src/middleware/multerConnection.js:25 | `path.extname` of the base name: from its last dot, empty when that dot leads the name or there is none |
| UploadMiddleware.MentionsImageType | backend/src/middleware/multerConnection.js:23-27 | `allowedTypes.test`: the text contains one of the four type names anywhere, since the pattern is unanchored |
| UploadMiddleware.FileFilter | backend/src/middleware/multerConnection.js:22-31 | accepts exactly when the lower-cased extension and the mimetype both contain jpeg, jpg, png or gif |
| UploadMiddleware.ExtNameOfDotFile | backend/src/middleware/multerConnection.js:25 | a leading dot is not an extension: ".png" has none |
| UploadMiddleware.AcceptedHasExtension | backend/src/middleware/multerConnection.js:22-31 | an accepted file has an extension of at least four characters |
| UploadMiddleware.UpperCaseMimetypeRefused | backend/src/middleware/multerConnection.js:27 | the mimetype is not lower-cased, so a mimetype without lower-case letters is refused |
| UploadMiddleware.FileError | backend/src/middleware/multerConnection.js:22-37 | a file is fine exactly when its field is `post_image`, it is within the first ten, the filter accepts it, and it is at most 5 MiB |
| UploadMiddleware.FileErrors | backend/src/middleware/multerConnection.js:33-37 | the check result of each file at its position, in order |
| UploadMiddleware.FirstError | backend/src/middleware/multerConnection.js:33-37 | none exactly when every file passes; otherwise an error that only passing files precede |
| UploadMiddleware.UploadFailure | backend/src/middleware/multerConnection.js:33-37 | the error multer reports for a request: the first file error, or none |
| UploadMiddleware.UploadFailureMeans | backend/src/middleware/multerConnection.js:33-37 | the upload fails exactly when there are more than ten files or some file has the wrong field, is not an image or is over 5 MiB |
| UploadMiddleware.TooManyFilesFail | backend/src/middleware/multerConnection.js:33-37 | more than ten files always fail, and only the first eleven files decide the error |
| UploadMiddleware.UploadFailureIsFirst | backend/src/middleware/multerConnection.js:33-37 | a failed upload reports the error of the first file that breaks a rule |
| UploadMiddleware.Filenames | backend/src/middleware/multerConnection.js:63 | the stored names of the files, in order |
| UploadMiddleware.StoredPaths | backend/src/middleware/multerConnection.js:11-20 | exactly the upload paths of the files |
| UploadMiddleware.PathOf | backend/src/middleware/multerConnection.js:11-20 | where a stored file lies: its name under `uploads/` |
| UploadMiddleware.UploadDir.DeleteAll | backend/src/middleware/multerConnection.js:47-53 | the stored files are the old ones minus the files of the request |
| UploadMiddleware.PostDecision | backend/src/middleware/multerConnection.js:39-66 | every rejection is a 400; an upload error is answered first; a missing caption or privacy is answered exactly when the upload did not fail and one of them is missing; the request goes on exactly when the upload succeeded with at least one file and caption and privacy are given, and then with the stored names in order, one to ten of them |
| UploadMiddleware.PostRejectLeavesNothing | backend/src/middleware/multerConnection.js:39-66 | a rejected request leaves no file of its own in the upload directory |
| UploadMiddleware.PostKeepsPassedFiles | backend/src/middleware/multerConnection.js:39-66 | an accepted request leaves every file whose name it passes on in the upload directory |
| UploadMiddleware.PostImageUpload | backend/src/middleware/multerConnection.js:39-66 | the decision is `PostDecision`, and the upload directory ends as a failed upload left it (unchanged), as a refused request left it (its files deleted), or with the request's files added |
| UploadMiddleware.StoredAfterPost | backend/src/middleware/multerConnection.js:39-66 | the upload directory after the post wrapper: unchanged on an upload error or with no files, without the request's files when caption or privacy is missing, with them otherwise |
| UploadMiddleware.UpdateDecision | backend/src/middleware/multerConnection.js:68-78 | an upload error, and only that, gives 400 with that error; otherwise the stored names in order (at most ten), or none without a files part, go on; caption and privacy play no part |
| UploadMiddleware.UpdateImageUpload | backend/src/middleware/multerConnection.js:68-78 | the decision is `UpdateDecision`; a successful upload adds exactly the request's files to the upload directory, otherwise it is unchanged |
| MessagePage.OnReceive | frontend/src/pages/DashboardPages/MessagePage.jsx:52-67 | a message of the open chat is appended once; one already present by id, or of another chat, changes nothing |
| MessagePage.OnReceiveIdempotent | frontend/src/pages/DashboardPages/MessagePage.jsx:52-67 | receiving the same message twice is receiving it once, and ids stay unique |
| MessagePage.OnSeen | frontend/src/pages/DashboardPages/MessagePage.jsx:69-84 | exactly the caller's unseen messages to that user become seen; only the status changes |
| MessagePage.OnDelivered | frontend/src/pages/DashboardPages/MessagePage.jsx:86-101 | exactly the caller's sent messages to that user become delivered; only the status changes |
| MessagePage.ReceiptsMonotone | frontend/src/pages/DashboardPages/MessagePage.jsx:69-101 | receipts never move a status backwards, and a late delivery receipt does not undo a seen one |
| MessagePage.LastSentIndex | frontend/src/pages/DashboardPages/MessagePage.jsx:264-271 | the position of the caller's last sent message, with no later message of the caller |
| MessagePage.LastSentUnique | frontend/src/pages/DashboardPages/MessagePage.jsx:264-271 | with unique ids, a message is "last sent by me" exactly at that position |
| MessagePage.StatusLabel | frontend/src/pages/DashboardPages/MessagePage.jsx:286-293 | "Seen" exactly for seen, "Delivered" exactly for delivered, otherwise "Sent" |
| MessagePage.StatusLabelOfName | frontend/src/pages/DashboardPages/MessagePage.jsx:286-293 | read off a status string, the label is "Seen" for "seen", "Delivered" for "delivered" and "Sent" for any other string |
| MessageStatus.FromName | frontend/src/pages/DashboardPages/MessagePage.jsx:286-293 | the status a status string names: "sent" gives `Sent` and no other status, and any string other than the three keeps its text; the result is well formed |
| MessageStatus.WellFormed | frontend/src/pages/DashboardPages/MessagePage.jsx:286-293 | an unrecognised status never carries one of the names "sent", "delivered" and "seen" |
| MessageStatus.Rank | frontend/src/pages/DashboardPages/MessagePage.jsx:69-101 | the forward order sent, delivered, seen that the receipts follow; an unrecognised status ranks with sent |
| MessagePage.IsChat | frontend/src/pages/DashboardPages/MessagePage.jsx:53-60 | `p === chatId`: only a bare id equal to the open chat's id |
| MessagePage.IsLastSentByMe | frontend/src/pages/DashboardPages/MessagePage.jsx:264-271 | I sent the message and it has the id of my last sent message |
| MessagePage.ChatPage.SelectChat | frontend/src/pages/DashboardPages/MessagePage.jsx:29-50 | clicking the chat already open changes nothing and emits nothing; opening another chat replaces the messages with the fetched ones and emits `join`, then `seen_messages` for the partner |
| MessagePage.ChatPage.constructor | frontend/src/pages/DashboardPages/MessagePage.jsx:47-50 | on mount no chat is open, the list and the draft are empty, and `join` for the user has been emitted |
| MessagePage.ChatPage.ReceiveMessage | frontend/src/pages/DashboardPages/MessagePage.jsx:52-67 | the messages are updated by `OnReceive`, and `seen_messages` is emitted exactly when the open chat sent it |
| MessagePage.ChatPage.MessagesSeen | frontend/src/pages/DashboardPages/MessagePage.jsx:69-84 | the messages are updated by `OnSeen` |
| MessagePage.ChatPage.MessageDelivered | frontend/src/pages/DashboardPages/MessagePage.jsx:86-101 | the messages are updated by `OnDelivered` |
| MessagePage.ChatPage.Type | frontend/src/pages/DashboardPages/MessagePage.jsx:311 | the draft becomes the typed text |
| MessagePage.ChatPage.Send | frontend/src/pages/DashboardPages/MessagePage.jsx:118-129 | a blank draft or no open chat sends nothing; otherwise the untrimmed draft is emitted to the open chat and the input is cleared |
| NotificationStore.NotificationList.constructor | frontend/src/store/notificationStore.js:6 | the store starts with no notifications, for the given signed-in user |
| NotificationStore.Push | frontend/src/store/notificationStore.js:34-37 | the notification goes in front and the rest is unchanged |
| NotificationStore.UpdateResponse | frontend/src/store/notificationStore.js:39-44 | the notifications with that id get the response; the others are unchanged |
| NotificationStore.Receive | frontend/src/store/notificationStore.js:53-60 | as meant: a notification for the signed-in user is put in front; any other is discarded |
| NotificationStore.ReceiveAsWrittenDropsOwn | frontend/src/store/notificationStore.js:53-60 | as written, even the signed-in user's own notification is not added |
| NotificationStore.ReceiveAsWritten | frontend/src/store/notificationStore.js:53-60 | the handler as written leaves the list as it is |
| NotificationStore.Retracted | frontend/src/store/notificationStore.js:67 | a notification is the one removed when it carries both the request id and the type of the event |
| NotificationStore.Retract | frontend/src/store/notificationStore.js:63-70 | exactly the notifications that do not match the request and type remain |
| NotificationStore.RetractIdempotent | frontend/src/store/notificationStore.js:63-70 | retracting twice is retracting once |
| NotificationStore.RetractAppend | frontend/src/store/notificationStore.js:63-70 | retraction works list piece by list piece |
| NotificationStore.ReceiveThenRetract | frontend/src/store/notificationStore.js:53-70 | a notification received and then retracted leaves the list as it was |
| NotificationStore.NotificationList.PushNotification | frontend/src/store/notificationStore.js:34-37 | the list becomes `Push` of the old list |
| NotificationStore.NotificationList.UpdateNotificationResponse | frontend/src/store/notificationStore.js:39-44 | the list becomes `UpdateResponse` of the old list |
| NotificationStore.NotificationList.OnReceiveNotification | frontend/src/store/notificationStore.js:53-60 | the list becomes `Receive` of the old list |
| NotificationStore.NotificationList.OnRemoveNotification | frontend/src/store/notificationStore.js:63-70 | the list becomes `Retract` of the old list |
| NotificationPage.GroupOf | frontend/src/pages/DashboardPages/NotificationPage.jsx:54-57 | exactly the notifications of that group |
| NotificationPage.Headings | frontend/src/pages/DashboardPages/NotificationPage.jsx:54-57 | the group keys of the reduce, in order of first appearance |
| NotificationPage.HeadingsFacts | frontend/src/pages/DashboardPages/NotificationPage.jsx:54-57 | the headings are distinct and are exactly the groups that occur |
| NotificationPage.GroupNotifications | frontend/src/pages/DashboardPages/NotificationPage.jsx:54-57 | the reducer's map has exactly the occurring groups as keys, each holding its notifications in list order, with keys in order of first appearance |
| NotificationPage.GroupSizesSum | frontend/src/pages/DashboardPages/NotificationPage.jsx:54-57 | the group sizes add up to the number of notifications |
| NotificationPage.GroupedOnce | frontend/src/pages/DashboardPages/NotificationPage.jsx:54-57 | each notification is in its own group and in no other, and its group is shown |
| NotificationPage.TypeBadge | frontend/src/pages/DashboardPages/NotificationPage.jsx:59-63 | like, follow and comment have their badges; every other type has none |
| PasswordStrength.Level | frontend/src/components/PasswordStrengthChecker.jsx:4-15 | the strength is at most five, one point per passed check |
| PasswordStrength.LevelMonotone | frontend/src/components/PasswordStrengthChecker.jsx:4-15 | typing more characters never lowers the strength |
| PasswordStrength.LevelFive | frontend/src/components/PasswordStrengthChecker.jsx:4-15 | full strength exactly when all five checks pass |
| PasswordStrength.Label | frontend/src/components/PasswordStrengthChecker.jsx:47-55 | the label for each level: Very Weak at zero, Weak at one or two, Moderate at three, Strong at four, Very Strong at five |
| PasswordStrength.LabelColor | frontend/src/components/PasswordStrengthChecker.jsx:37-45 | the label's colour for each level |
| PasswordStrength.BarColor | frontend/src/components/PasswordStrengthChecker.jsx:17-30 | a bar is grey exactly when its index is at least the level; coloured bars take their index's colour, and all are teal at level five |
| PasswordStrength.ColouredBarsCount | frontend/src/components/PasswordStrengthChecker.jsx:17-30 | the number of coloured bars among the first n is the smaller of level and n |
| PasswordStrength.ColouredBarsIsLevel | frontend/src/components/PasswordStrengthChecker.jsx:17-30 | the meter colours exactly as many of its five bars as the strength |
| EmailVerification.IsBoxValue | frontend/src/pages/EmailVerification.jsx:19 | `/^[0-9]?$/`: a box value is empty or exactly one digit |
| EmailVerification.IsSixDigits | frontend/src/pages/EmailVerification.jsx:32 | `/^\d{6}$/`: exactly six digits and nothing else |
| EmailVerification.IsComplete | frontend/src/pages/EmailVerification.jsx:64 | every box is filled, which is what enables the submit button |
| EmailVerification.OtpForm.constructor | frontend/src/pages/EmailVerification.jsx:11 | the form starts with six empty boxes and focus on the first |
| EmailVerification.JoinDigits | frontend/src/pages/EmailVerification.jsx:48 | with one digit per box, the code is the digits in box order |
| EmailVerification.OtpForm.Code | frontend/src/pages/EmailVerification.jsx:48 | the code sent: the boxes joined in order |
| EmailVerification.CompleteCodeIsSixDigits | frontend/src/pages/EmailVerification.jsx:48-64 | a complete form submits a six-digit code |
| EmailVerification.Split | frontend/src/pages/EmailVerification.jsx:34 | one box per character, in order |
| EmailVerification.PasteRoundTrip | frontend/src/pages/EmailVerification.jsx:29-38 | a pasted six-digit code completes the form and joins back to itself |
| EmailVerification.OtpForm.HandleChange | frontend/src/pages/EmailVerification.jsx:18-27 | a value other than empty or one digit changes nothing; otherwise that box takes it, and a digit moves focus to the next box |
| EmailVerification.OtpForm.HandlePaste | frontend/src/pages/EmailVerification.jsx:29-38 | trimmed clipboard text of exactly six digits fills the boxes; anything else changes nothing |
| EmailVerification.OtpForm.HandleKeyDown | frontend/src/pages/EmailVerification.jsx:40-44 | Backspace on an empty box after the first moves focus back one box; nothing else moves it |
| ProfileSettings.EmailShape | frontend/src/pages/DashboardPages/ProfileSettingPage.jsx:38-41 | an accepted address has no whitespace, exactly one `@`, and is already trimmed |
| ProfileSettings.MatchesEmail | frontend/src/pages/DashboardPages/ProfileSettingPage.jsx:38 | the email pattern: some split into local part, domain and suffix without whitespace or @ |
| ProfileSettings.EmailExamples | frontend/src/pages/DashboardPages/ProfileSettingPage.jsx:38-41 | the pattern accepts a dotted domain and a trailing dot, and refuses an empty last part and a space |
| ProfileSettings.CheckDetails | frontend/src/pages/DashboardPages/ProfileSettingPage.jsx:29-41 | a blank field is refused first; the form passes its guards exactly when no field is blank and the email matches, and a passing email is already trimmed |
| ProfileSettings.RuleMeansStrong | frontend/src/pages/DashboardPages/ProfileSettingPage.jsx:132-133 | a password the rule accepts scores at least Strong on the meter |
| ProfileSettings.MatchesPasswordRule | frontend/src/pages/DashboardPages/ProfileSettingPage.jsx:132-133 | the password pattern: eight or more allowed characters with an upper-case letter, a digit and a special character |
| ProfileSettings.RuleAllowsNoLowercase | frontend/src/pages/DashboardPages/ProfileSettingPage.jsx:132-133 | the rule accepts a password without lower-case letters, which scores only Strong |
| ProfileSettings.CheckPassword | frontend/src/pages/DashboardPages/ProfileSettingPage.jsx:135-151 | a missing field, then a mismatch, then the rule; the change is sent exactly when all pass |
| ProfileSettings.SecurityForm.constructor | frontend/src/pages/DashboardPages/ProfileSettingPage.jsx:126-128 | the three password fields start empty and nothing has been sent |
| ProfileSettings.SecurityForm.Edit | frontend/src/pages/DashboardPages/ProfileSettingPage.jsx:173-205 | the current, new and confirmation fields take the typed values, nothing else changes |
| ProfileSettings.SecurityForm.Save | frontend/src/pages/DashboardPages/ProfileSettingPage.jsx:135-163 | the save as meant, with an `updatePassword` action that reaches the server: a refused form sends nothing; a passing one sends the current and new password, and the fields are cleared only when the server accepts |
| ProfileSettings.SaveOutcomeAsWritten | frontend/src/pages/DashboardPages/ProfileSettingPage.jsx:125-163 | the save as written: never `Updated`; a form the guards refuse is refused with the guard's reason, a passing one fails |
| ProfileSettings.ValidChangeFailsAsWritten | frontend/src/pages/DashboardPages/ProfileSettingPage.jsx:125-163 | a change that passes every guard still fails as written |
| ProfileSettings.SecurityForm.SaveAsWritten | frontend/src/pages/DashboardPages/ProfileSettingPage.jsx:125-163 | the form's save as written changes no field and sends nothing, and never reports `Updated` |
| ResetPassword.CheckReset | frontend/src/pages/ResetPasswordPage.jsx:15-41 | under six UTF-16 units is refused first, then a mismatch; otherwise the reset is sent |
| ResetPassword.IsFormValid | frontend/src/pages/ResetPasswordPage.jsx:43-44 | both fields filled in and equal |
| ResetPassword.SubmitNeedsValidForm | frontend/src/pages/ResetPasswordPage.jsx:15-44 | a reset that is sent had an enabled submit button |
| ResetPassword.ValidFormMayBeTooShort | frontend/src/pages/ResetPasswordPage.jsx:43-44 | the button is enabled for a matching password that is then refused as too short |
| UploadPage.PostPayload | frontend/src/pages/DashboardPages/UploadPage.jsx:44-47 | one `post_image` entry per image in order, then the caption, then the privacy |
| UploadPage.UploadForm.constructor | frontend/src/pages/DashboardPages/UploadPage.jsx:11-14 | the form starts with an empty caption, privacy "public", no images, no previews and nothing sent |
| UploadPage.UploadForm.AddImages | frontend/src/pages/DashboardPages/UploadPage.jsx:17-29 | accepted exactly when the total stays at most ten, and then files and previews are appended; otherwise nothing changes |
| UploadPage.UploadForm.RemoveImage | frontend/src/pages/DashboardPages/UploadPage.jsx:31-36 | the position leaves both lists, and every remaining image keeps its preview and its order |
| UploadPage.UploadForm.SetCaption | frontend/src/pages/DashboardPages/UploadPage.jsx:127 | the caption becomes the typed text, nothing else changes |
| UploadPage.UploadForm.SetPrivacy | frontend/src/pages/DashboardPages/UploadPage.jsx:134 | the privacy becomes the chosen value, nothing else changes |
| UploadPage.UploadForm.Post | frontend/src/pages/DashboardPages/UploadPage.jsx:38-61 | no image or a blank caption sends nothing; otherwise the payload is sent, and the form resets only on success |
| UploadEditPage.RemoveExisting | frontend/src/pages/DashboardPages/uploadEditPage.jsx:74-76 | the image at the index leaves the list and the rest keep their order; an index out of range changes nothing |
| UploadEditPage.ImageSrc | frontend/src/pages/DashboardPages/uploadEditPage.jsx:161-165 | an `http` path is used as is; any other is served from the `/Uploads/` path |
| UploadEditPage.ImageSrcEndsWithPath | frontend/src/pages/DashboardPages/uploadEditPage.jsx:161-165 | every image URL ends with the stored path |
| UploadEditPage.EditPayload | frontend/src/pages/DashboardPages/uploadEditPage.jsx:81-87 | the caption, then the kept images as JSON, then one `post_image` entry per new file |
| UploadEditPage.ImagePathsField | backend/src/controller/post.controller.js:108-113 | `req.body.imagePaths`: the value of the first `imagePaths` text entry of the body, or none |
| UploadEditPage.EditPayloadKeepsExisting | frontend/src/pages/DashboardPages/uploadEditPage.jsx:81-87 | the body the page builds reads back, through `updatePost`'s parse, as exactly the images the page kept |
| UploadEditPage.Submit | frontend/src/pages/DashboardPages/uploadEditPage.jsx:79-95 | the submit as meant: the body is sent, and the server reads back exactly the kept images |
| UploadEditPage.EditNeverSentAsWritten | frontend/src/pages/DashboardPages/uploadEditPage.jsx:16-95 | as written, no edit reaches the server, while the meant submit always sends one |
| UploadEditPage.SubmitAsWritten | frontend/src/pages/DashboardPages/uploadEditPage.jsx:79-95 | as written, the submit sends nothing, whatever the form holds |
| UploadEditPage.RemoveThenSubmit | frontend/src/pages/DashboardPages/uploadEditPage.jsx:74-95 | with the meant submit, removing one image and submitting keeps every other image on the server, in order |

## Left out

- The socket server is not part of this model. Server emits and client emits are entries in an event log; delivery, rooms and reconnection are not modelled.
- Authentication (`protectAuth`), signup, login, email sending and the auth store are not part of this model. The caller's id is a parameter.
- Mongo ObjectId casting is not modelled. Ids are compared as values, and a malformed id that would raise a CastError (500) has no counterpart, except in `getMessages`, which checks `isValid` itself.
- `populate` display fields (names, images) are not modelled; where a populated reference is null the model gives 500 as the source does.
- Mongo's order among equal sort keys is taken to be store order.
- `comment.model.js`, `friendRequest.model.js`, `user.model.js` and `message.model.js` are not part of this model; their fields are read off the controllers.
- Each request handler is modelled as one atomic step. The source checks, then creates, with an `await` in between (a pending request in `sendFriendRequest`, an acceptance notice in `respondToFriendRequest`, a like in `toggleLike`, a profile in `createProfile`), and no unique index is declared in the schemas this model reads (`notification.model.js`, `post.model.js`, `profile.model.js`). So `Store.PendingUnique`, `Store.AcceptNoticeUnique`, `Store.LikeUnique` and `Store.ProfileUnique`, which `Store.Database.Valid()` keeps, and the lemmas built on them (`PostInteractionController.ToggleFlipsPair`, `ProfileController.GetMyProfileUnique`, the `FriendRequestController.PendingUnique*` lemmas), hold only when handlers run one after another; two overlapping requests could store a duplicate.
- ChatController.IsValidObjectId: assumes the bson version (5 and later) in which a string is a valid object id exactly when it has 24 hexadecimal digits; older versions also accepted other string forms, such as any 12-character string.
- `updatePost` and `markAsRead` check no owner in the source, and the model keeps it that way.
- PostController.UpdatePost: a JSON `imagePaths` that is valid but not an array of strings gives 400 here, whereas the source stores it or fails later with 500. A lone surrogate `\u` escape is also refused.
- Json.DecodeEscape, Json.ParseStringArray: a `\u` escape of a lone surrogate is refused, whereas `JSON.parse` accepts it; `Json.Stringify` never produces one from a list of Dafny strings.
- UserController.GetFriendList: a friend whose user document is gone is not modelled (the source would fail on the populated null).
- Time (`Date.now`), random file names, `URL.createObjectURL` and clipboard data are parameters. These include the disk file name `filename`, the preview `urls`, and the pasted text.
- Failures of `fs.unlinkSync` are logged and ignored in the source; the model deletes every file.
- Multer's internals are reduced to a fixed order of checks: field name and count, then the filter, then the size. Files stored before a failure are taken to be removed.
- UploadMiddleware.FileFilter: lower-casing is ASCII only, which agrees with `toLowerCase` on the four type names; `path.extname` is modelled for POSIX paths.
- Text fields that arrive after the files in a multipart body are not modelled; the body is taken as fully parsed.
- Alerts, toasts, scrolling, theme and navigation are not modelled.
- ProfileSettings.CheckDetails: only the guards of `handleUserDetailsSave` are modelled. The `updateProfile` it then calls is not an action of the auth store, so as written the call throws and the failure message shows; no details update is modelled. As written the handler cannot be reached at all: the only Save button is commented out (frontend/src/pages/DashboardPages/ProfileSettingPage.jsx:105-117) and the three inputs are read-only.
- The notifications page's built-in sample list is not modelled.
- NotificationPage.Headings: headings are in order of first appearance. `Object.keys` would put integer-like group names first.
- NotificationPage.GroupNotifications, NotificationPage.TypeBadge: group and type names are taken not to be `Object.prototype` property names (such as "constructor", "toString" or "__proto__"). For those, the source's `acc[curr.group]` and `typeBadge[n.type]` find the inherited value.
- Results of requests whose outcome depends on the network or the server are boolean parameters (`serverAccepts`).
- JavaScript string length is counted in UTF-16 units, and `\s` and `trim` use the JavaScript whitespace set; no Unicode normalisation.

## Findings

| source | as written | input that shows it | evidently intended | confidence | as-written member | corrected member |
|---|---|---|---|---|---|---|
| backend/src/controller/chat.controller.js:20-24 | opening a chat marks the caller's own sent messages as seen | user "me" opens the chat with "u", where "u" sent "hi" and "me" sent "yo", both unseen: "yo" becomes seen and "hi" stays unread | mark the messages the other user sent to the caller (the commented-out filter next to it) | not executed | ChatController.SeenUpdateAsWrittenMarksWrongSide | ChatController.GetMessages |
| backend/src/controller/user.controller.js:13-35 | `findOne` ignores the status, so the first request in each direction decides the link | "a" sent a request to "b" that was declined, then sent a new one that is pending; the directory shows "b" with no request | report the pending request between the two users | not executed | UserController.LinkAsWrittenMissesPending | UserController.Link |
| frontend/src/store/notificationStore.js:53-60 | `useAuthStore` is not imported, so the handler throws before adding anything | any `receive_notification` event, even one for the signed-in user, leaves the list unchanged | prepend a notification addressed to the signed-in user | not executed | NotificationStore.ReceiveAsWrittenDropsOwn | NotificationStore.Receive |
| backend/src/controller/friendRequest.controller.js:72-91 | both user documents are loaded before either is saved, and each `includes` test reads its own copy; for a request a user sent to themselves (nothing refuses one) both pushes go to the same user | user "u" sends a request to "u" and accepts it: the friends list of "u" becomes ["u", "u"] | friend lists without repeats, as the `includes` tests intend | not executed | FriendRequestController.SelfRequestRepeatsFriend | FriendRequestController.BefriendKeepsUsersOk |
| frontend/src/pages/DashboardPages/ProfileSettingPage.jsx:125-163 | `updatePassword` is not an action of the auth store, so the call throws inside the `try` and the failure message shows | current "old", new and confirmation "ABCDEFG1!": every guard passes, nothing is sent, and the save fails | send the current and new password to the server | not executed | ProfileSettings.ValidChangeFailsAsWritten | ProfileSettings.SecurityForm.Save |
| frontend/src/pages/DashboardPages/uploadEditPage.jsx:16-95 | `updatePost` is not an action of the post store, so `handleSubmit` throws before any request and only logs the error | any edit, for example one image removed: the post on the server is unchanged | send the edit body to the update endpoint | not executed | UploadEditPage.EditNeverSentAsWritten | UploadEditPage.Submit |
