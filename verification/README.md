# Rollt: the request logic of a photo-sharing app, in Dafny

Rollt is a photo and video sharing web application. It has an Express server with a MySQL store behind
it and a Next.js client. This project models the decision logic of both halves as pure functions over
immutable data, and proves properties of that logic.

- **Server.** There is one module per route file. Each one handles a request from the store to a status
  and a new store:
  - `AuthGate`: the bearer-token middleware.
  - `AuthRoutes`: register and log in.
  - `PostsRoutes`: the feed, my posts, one post, create, like, unlike and delete.
  - `UsersRoutes`: profile, profile update, follow and unfollow.

  `Db` is the store. It holds users and posts in insertion order, likes and follows as sets of pairs,
  and comment counts. Its `Wellformed` predicate holds the key constraints the routes rely on.
- **Client.** There is one module per page or store.
  - Stores: `AuthStore` and `PostStore` (the two zustand stores) and `Storage` (the saved token and
    user).
  - Pages: `HomePage`, `ExplorePage`, `CreatePage`, `RegisterPage`, and `SetupPage` (the account
    security page).
  - `PasswordStrength` is that page's strength meter.

  Every answer from the network is a parameter. The page functions say what the page does with each
  kind of answer.
- **Both halves together.** `ClientServer` runs the pages against the route functions.
- **Shared pieces.**
  - `Base`: `Option`, HTTP statuses, and JavaScript truthiness (`x || fallback`).
  - `Text`: character classes, `split(" ")`, and decimal ids.
  - `Seqs`: `Array.prototype.filter`.

bcrypt and JWT are libraries this model does not contain, so they are function parameters:
`hash(password, rounds)`, `compare(password, stored)`, `sign(claims, lifetime)` and `verify(token)`. A
lemma that needs one of them to behave states that as a `requires`.

## Model

| member | source | states |
|---|---|---|
| AuthGate.Authenticate | server/middleware/auth.ts:19-46 | A missing header, or one not starting with `Bearer `, gets 401 with the header message. An empty token gets 401 with the token message. A token the verifier refuses gets 403. Otherwise the request goes on with the token's `userId` and claims. It goes on exactly when a non-empty, verified second word follows the prefix. |
| AuthGate.TokenIsTextUpToNextSpace | server/middleware/auth.ts:30 | After the `Bearer ` prefix, the token is the text up to the next space or the end of the header. It holds no space. |
| AuthGate.EmptyTokenRejected | server/middleware/auth.ts:30-33 | `Bearer ` with nothing after it is refused with 401 and the token message. |
| AuthGate.DoubleSpaceRejected | server/middleware/auth.ts:30-33 | With two spaces after `Bearer`, piece 1 of the split is empty. The request is refused with 401 whatever token follows. |
| AuthGate.TrailingTextIgnored | server/middleware/auth.ts:30 | Text after a further space does not change the gate's decision. Only the first word after the prefix is verified. |
| AuthGate.LowerCaseSchemeRejected | server/middleware/auth.ts:26-28 | The prefix test is case-sensitive: `bearer …` gets the 401 header message. |
| Text.Split | server/middleware/auth.ts:30 | `split(" ")` returns at least one piece. No piece holds the separator, and joining the pieces with it gives back the input. |
| Text.SplitAfterSeparatorFree | server/middleware/auth.ts:30 | Splitting `a + sep + t`, where `a` has no separator, yields `a` followed by the pieces of `t`. |
| Text.ParseId | server/routes/users.ts:13-17 | A path segment reads as an id exactly when it is a non-empty run of ASCII digits. |
| Text.ParseNatToString | server/routes/users.ts:55 | Reading back an id written by `toString()` gives the same id. |
| Text.NatToStringInjective | server/routes/users.ts:55 | Two different ids never write out as the same text. |
| AuthRoutes.Register | server/routes/auth.ts:9-58 | 400 `缺少必要字段` unless username, email and password are all non-empty. 400 `用戶名或信箱已存在` with the store unchanged when the username or email is taken. Otherwise 201 `註冊成功` with one new row: the next id, and the password hashed with cost 10. The answer carries a token signed for that id and username with lifetime `7d`, and the user without password. |
| AuthRoutes.RegisterKeepsWellformed | server/routes/auth.ts:24-27 | Registration keeps ids, usernames and emails unique and below the next id. |
| AuthRoutes.Login | server/routes/auth.ts:61-103 | 400 unless email and password are non-empty. 200 `登入成功` exactly when a user has that email and the password matches the stored hash; the answer then carries a token for that user and the user without password. Every other case is the same 401 `信箱或密碼錯誤`. |
| AuthRoutes.LoginHidesWhichFieldWasWrong | server/routes/auth.ts:73-84 | An unknown email and a wrong password get identical answers. |
| AuthRoutes.RegisterThenLogin | server/routes/auth.ts:21-98 | Assume bcrypt accepts a password against its own hash. Then logging in right after registering, with the same email and password, succeeds with the new id and the registered user. Its token is signed for the same claims (new id, username) and lifetime as the registration's. |
| AuthRoutes.IssuedTokenPassesGate | server/routes/auth.ts:32-36 | Suppose signer and verifier agree on a token and it is one word. Then `Bearer <token>` passes the gate with the id it was issued for. |
| Db.FindFirst | server/routes/users.ts:15-17 | A `WHERE` lookup gives the first row meeting the condition, or none exactly when no row meets it. |
| Db.FindUser | server/routes/users.ts:15-17 | `WHERE id = ?` finds a row with that id, or none exactly when no row has it. |
| Db.FindUserByEmail | server/routes/auth.ts:71-76 | `WHERE email = ?` finds a row with that email, or none exactly when no row has it. |
| Db.FindPost | server/routes/posts.ts:272-278 | `WHERE id = ?` on posts finds a row with that id, or none exactly when no row has it. |
| Db.FindUserUnique | server/routes/users.ts:15-17 | In a well-formed store, looking up a user's own id finds that very user. |
| Db.SortNewestFirst | server/routes/posts.ts:35 | `ORDER BY createdAt DESC` yields the same rows (as a multiset), newest first. |
| Db.InsertByDate | server/routes/posts.ts:35 | Inserting one row into a newest-first list keeps it newest-first and adds exactly that row. |
| Db.PrefixIsNewest | server/routes/posts.ts:35-36 | In a newest-first list, a row outside the first `n` is no newer than any row inside them. |
| PostsRoutes.Feed | server/routes/posts.ts:12-49 | The feed holds min(joined posts, 50) rows, newest first. Row `i` is the `i`-th post the query selects: its own columns, its author's name and avatar, its like and comment counts, and its media type with the `'image'` default. |
| PostsRoutes.FeedMediaType | server/routes/posts.ts:39-42 | A row's media type is the post's own when the column exists and the value is non-empty. Otherwise it is `image`. |
| PostsRoutes.FeedPosts | server/routes/posts.ts:33-36 | The selected posts are at most fifty of the joined posts (no row more often than stored), all with an author, newest first. |
| PostsRoutes.FeedHoldsNewest | server/routes/posts.ts:33-36 | Every feed post is a post with an author. A post with an author that the feed leaves out is no newer than any post it shows. |
| PostsRoutes.MyPostRows | server/routes/posts.ts:51-89 | The posts my-posts selects are exactly the caller's posts with an author, each as often as it is stored, newest first. |
| PostsRoutes.MyPosts | server/routes/posts.ts:51-89 | Row `i` is the `i`-th selected post with its author, counts and media type, so the answer is exactly the caller's posts, newest first, with no limit. No caller id gives no rows. |
| PostsRoutes.CreatedPostInMyPosts | server/routes/posts.ts:121-206 | After a post is created, the author's my-posts answer holds a row with its new id and date. |
| PostsRoutes.GetPost | server/routes/posts.ts:92-119 | 404 exactly when the post or its author is missing. Otherwise 200 with the stored post of that id: its id, author id, image, caption and date, its author's username, and its like and comment counts. |
| PostsRoutes.CreatePost | server/routes/posts.ts:121-206 | 400 without an image, and 500 with no caller id. Otherwise 201, with exactly the caller's new post inserted. |
| PostsRoutes.InsertPostKeepsWellformed | server/routes/posts.ts:150-162 | Inserting a post keeps post ids unique and below the next id. |
| PostsRoutes.CreateAnswersNewPost | server/routes/posts.ts:164-187 | The route answers with the caller's newest post. When none of the caller's earlier posts is dated after now, that is the post just inserted, with its author's name and avatar, the caption (empty by default) and a non-empty media type. |
| PostsRoutes.Like | server/routes/posts.ts:210-239 | 409 when the caller already likes the post, 500 with no caller id, otherwise the pair is added. |
| PostsRoutes.LikeCountsOneMore | server/routes/posts.ts:219-231 | A successful like raises that post's count by one and leaves every other post's count alone. |
| PostsRoutes.Unlike | server/routes/posts.ts:242-261 | Always 200. The caller's pair is removed if it was there. |
| PostsRoutes.UnlikeIdempotent | server/routes/posts.ts:250-253 | Unliking twice leaves the same store as unliking once. |
| PostsRoutes.LikeThenUnlikeRestores | server/routes/posts.ts:210-261 | A successful like followed by an unlike gives back the original store. |
| PostsRoutes.DeletePost | server/routes/posts.ts:264-292 | 404 when the post is missing. 403 when the caller is not its author. Otherwise only that post's row leaves the store. |
| PostsRoutes.DeleteRemovesOnlyThatPost | server/routes/posts.ts:284 | In a well-formed store, a delete removes exactly one row and keeps every other post, user and like. |
| PostsRoutes.DeletedPostNotFound | server/routes/posts.ts:264-292 | After a successful delete, getting that post answers 404. |
| PostsRoutes.CreatedPostFound | server/routes/posts.ts:92-162 | In a well-formed store, getting the id a create just assigned answers 200 with the caller as author and the body's image and caption. |
| PostsRoutes.DeletedPostLeavesFeed | server/routes/posts.ts:284 | After a delete, the post is in no feed row. |
| UsersRoutes.UserPosts | server/routes/users.ts:24-37 | The profile's posts are exactly the user's stored posts, each as often as it is stored, newest first. |
| UsersRoutes.GetUser | server/routes/users.ts:11-47 | 404 when no user has the path's id. Otherwise 200 with the user without password. Post `i` is the user's `i`-th post newest first, with its like and comment counts (no author join). |
| UsersRoutes.UpdateShowsInProfile | server/routes/users.ts:11-74 | After a successful update, the caller's profile shows the new username, bio and avatar. It is 404 when the caller has no row. |
| UsersRoutes.RegisteredUserHasProfile | server/routes/users.ts:11-47 | After a registration, the profile under the new id is the registered username and email, with no bio or avatar. |
| UsersRoutes.UpdateUser | server/routes/users.ts:50-74 | 403 unless the path is the caller's id written out. When the caller has no row, the update matches nothing: 200 with no body and nothing changed. Otherwise 500 when the username is missing or another user holds it, and else 200 with only that user's username, bio and avatar replaced and the updated row (the new username, the caller's id) answered. |
| UsersRoutes.UpdateTouchesOnlyProfileFields | server/routes/users.ts:59-62 | A successful update keeps every id, email and password. It keeps every other user, and all posts, likes and follows. |
| UsersRoutes.UpdateRowKeepsWellformed | server/routes/users.ts:59-62 | Setting a username no other user holds keeps ids, usernames and emails unique. |
| UsersRoutes.UpdateKeepsWellformed | server/routes/users.ts:59-62 | An update keeps ids, usernames and emails unique. |
| UsersRoutes.MountedUpdateAlwaysForbidden | server/index.ts:54 | As the router is mounted, with no gate, every update answers 403 and changes nothing. |
| UsersRoutes.GatedOwnerCanUpdate | server/routes/users.ts:50-74 | Behind the bearer gate, the owner of user `u` can update `/users/u` with a username no one else holds. The answer is the updated row. |
| UsersRoutes.Follow | server/routes/users.ts:77-105 | 400 when the path is the caller's id as text. 409 when the pair exists. 500 with no caller id or a path that is not a number. Otherwise the (followed, follower) pair is added. |
| UsersRoutes.LeadingZeroFollowsSelf | server/routes/users.ts:82-84 | User 5 following `/users/05` passes the text guard and inserts the pair (5, 5). |
| UsersRoutes.FollowChecked | server/routes/users.ts:77-105 | The follow route with the self-follow guard comparing numbers. Only a 200 changes the store, and then by exactly one pair of distinct ids. |
| UsersRoutes.FollowCheckedNeverSelf | server/routes/users.ts:82-84 | With the numeric guard, no follow ever creates a pair of a user with itself. |
| UsersRoutes.FollowTwiceConflicts | server/routes/users.ts:86-93 | Repeating a successful follow answers 409 and changes nothing. |
| UsersRoutes.Unfollow | server/routes/users.ts:108-123 | Always 200. The pair is removed when both ids are present. |
| UsersRoutes.UnfollowIdempotent | server/routes/users.ts:108-123 | Unfollowing twice is unfollowing once. A successful follow followed by an unfollow gives back the store. |
| AuthStore.Init | client/app/store/authStore.ts:18-26 | In a browser the store starts from the saved user, and is logged in exactly when there is one. Outside a browser it starts empty. |
| AuthStore.SetUser | client/app/store/authStore.ts:27-32 | The store holds the given user and is logged in exactly when that user is present. |
| AuthStore.Logout | client/app/store/authStore.ts:34 | No user, not logged in. |
| AuthStore.Login | client/app/store/authStore.ts:36 | That user, logged in. |
| AuthStore.InvariantAlwaysHolds | client/app/store/authStore.ts:18-37 | After any run of `setUser`, `logout` and `login` from the initial store, it is logged in exactly when it holds a user. |
| AuthStore.LogoutIdempotent | client/app/store/authStore.ts:34 | Logging out twice is logging out once. |
| AuthStore.SetUserCoversLoginAndLogout | client/app/store/authStore.ts:27-36 | `setUser(u)` is `login(u)` for a user and `logout()` for none. |
| PostStore.SetPosts | client/app/store/postStore.ts:29 | The store's list becomes exactly the given list, whatever it held before. |
| PostStore.AddPost | client/app/store/postStore.ts:31-34 | The new post comes first and the old list follows unchanged. |
| PostStore.LikePost | client/app/store/postStore.ts:36-43 | Every post with that id gains one like and is marked liked. The others are unchanged. |
| PostStore.UnlikePost | client/app/store/postStore.ts:45-52 | Every post with that id loses one like and is marked not liked. The others are unchanged. |
| PostStore.DeletePost | client/app/store/postStore.ts:54-57 | No post with that id remains. Every other post remains. |
| PostStore.LikeThenUnlikeRestoresLikes | client/app/store/postStore.ts:36-52 | A like then an unlike restores every count. |
| PostStore.AbsentIdChangesNothing | client/app/store/postStore.ts:36-57 | For an id no post has, like, unlike and delete all leave the list as it was. |
| PostStore.DeleteIdempotent | client/app/store/postStore.ts:54-57 | Deleting twice is deleting once. |
| PostStore.DeleteKeepsOrder | client/app/store/postStore.ts:54-57 | Deleting from a concatenation is deleting from each part, so the survivors keep their order. |
| PostStore.DeleteUndoesAdd | client/app/store/postStore.ts:31-57 | Adding a post, then deleting its id, is the same as deleting that id alone. |
| PostStore.UnlikeCanGoNegative | client/app/store/postStore.ts:45-52 | Nothing bounds the count below: unliking a post with 0 likes shows -1. |
| PasswordStrength.CheckPasswordStrength | client/app/setup/page.tsx:100-122 | The score is the number of met criteria capped at 4, and the feedback is the message for that score. The password is valid exactly when at least two criteria are met. The criteria are: at least 8 characters; at least 12; both cases; a digit; a symbol from `!@#$%^&*`. |
| PasswordStrength.ValidityMatchesClampedScore | client/app/setup/page.tsx:118-121 | Valid exactly when the shown score is at least 2. |
| PasswordStrength.ValidIffTwoCriteria | client/app/setup/page.tsx:104-119 | Valid exactly when two distinct criteria hold. |
| PasswordStrength.LongLowerCaseIsValid | client/app/setup/page.tsx:104-119 | Twelve lower-case letters already count as valid, with score 2. |
| PasswordStrength.RawScoreReachesFive | client/app/setup/page.tsx:104-121 | All five criteria can hold. The shown score is then 4 with the top message. |
| PasswordStrength.AppendNeverWeakens | client/app/setup/page.tsx:104-119 | Appending characters never lowers the score, and never makes a valid password invalid. |
| PasswordStrength.ScanStrength | client/app/setup/page.tsx:100-122 | A single pass over the characters computes the same result as the definition. |
| PasswordStrength.StrengthColor | client/app/setup/page.tsx:277-283 | Scores 0 to 3 map to gray, red, orange and yellow, and anything else to green. |
| PasswordStrength.ColorOfPassword | client/app/setup/page.tsx:277-283 | The bar is gray exactly when no criterion holds, and green exactly when four or more hold. The five reachable scores have five different colours. |
| SetupPage.EditField | client/app/setup/page.tsx:124-134 | An edit stores the field. Only an edit of the new password re-scores the meter. |
| SetupPage.SubmitDisabled | client/app/setup/page.tsx:454-456 | The update button is live exactly when nothing is in flight and a press would send the change request. |
| SetupPage.Submit | client/app/setup/page.tsx:136-164 | The success message is cleared. A mismatch is reported before a weak password. A request carrying the current and new password is sent exactly when they match and the meter says valid. |
| SetupPage.ReceiveAsWritten | client/app/setup/page.tsx:166-185 | As written, an OK answer reports success and empties the fields but keeps the meter. An error answer shows its message or the fallback, and a thrown request the retry message. |
| SetupPage.Receive | client/app/setup/page.tsx:166-185 | The same handling, with the meter reset along with the fields. |
| SetupPage.StaleMeterResendsEmptyPassword | client/app/setup/page.tsx:166-172 | As written, after a successful change the button is enabled again, and a second press sends an empty new password the meter would reject. |
| SetupPage.EverySentPasswordIsValid | client/app/setup/page.tsx:124-185 | With the meter reset on success, every change request sent in any run of edits, presses and answers carries a new password the meter rates valid. |
| SetupPage.StepKeepsMeterInSync | client/app/setup/page.tsx:124-185 | With the reset, every edit, press and answer keeps the meter describing the new-password field. |
| SetupPage.SanitizeCode | client/app/setup/page.tsx:556 | The code box keeps only ASCII digits, the first six of them, in order. |
| SetupPage.SanitizeIdempotent | client/app/setup/page.tsx:556 | Cleaning an already clean code changes nothing. |
| SetupPage.SanitizeKeepsShortCodes | client/app/setup/page.tsx:556 | A code of at most six digits passes through unchanged. |
| SetupPage.VerifyEnabledAfterSanitize | client/app/setup/page.tsx:556-571 | For the change handler alone, the verify button is enabled exactly when the handler's input holds at least six digits. |
| SetupPage.EnterCode | client/app/setup/page.tsx:553-558 | The box first cuts the entry to six characters (`maxLength`), then keeps the digits. The code holds digits only, at most six, and nothing else in the state changes. |
| SetupPage.EnterCodeEnablesVerify | client/app/setup/page.tsx:553-571 | Through the box, verify is enabled exactly when the first six characters entered are all digits. |
| SetupPage.PastedSpaceDisablesVerify | client/app/setup/page.tsx:553-571 | Pasting `123 456` leaves verify disabled. |
| SetupPage.ReceiveDisable | client/app/setup/page.tsx:189-206 | OK turns 2FA off and sets the success message, and nothing else changes. A not-OK answer changes nothing. A thrown request only shows the failure message. |
| SetupPage.ReceiveGenerate | client/app/setup/page.tsx:207-231 | The generate answer, read from a given field. OK opens the dialog with that field's value as the picture, and nothing else changes. Anything else only shows the failure message. Neither changes the 2FA flag. |
| SetupPage.GenerateDropsQrCode | client/app/setup/page.tsx:218-221 | As written, an answer with a `qrCode` field (and no `qrCoda`) opens the dialog with no QR code. |
| SetupPage.GenerateShowsQrCode | client/app/setup/page.tsx:218-221 | Reading `qrCode`, the dialog opens with exactly the QR code the answer carries. |
| SetupPage.ReceiveVerify | client/app/setup/page.tsx:234-256 | OK turns 2FA on, closes the dialog, empties the code and sets the success message; the error and picture stay. A not-OK answer only shows the wrong-code message, and a thrown request only the failure message; neither changes the flag. |
| SetupPage.TwoFactorFlagFollowsOkAnswers | client/app/setup/page.tsx:188-256 | A successful verify turns 2FA on, and a successful disable after it turns it off. A failed or thrown verify, disable or generate leaves the flag where it was. |
| SetupPage.LogoutSession | client/app/setup/page.tsx:258-275 | On an OK answer, no session with that id remains, every remaining session was there before, and every other session remains. Otherwise the list is kept. |
| SetupPage.LogoutSessionRemovesExactly | client/app/setup/page.tsx:258-275 | An OK answer removes every session with that id. Every other session keeps its count, and the survivors keep their order. |
| CreatePage.FileChange | client/app/create/page.tsx:124-154 | No file changes nothing. A file over 50 MiB only sets the size message; size is checked before type. A file that is neither image nor video only sets the type message. An accepted file becomes the choice, with kind `image` exactly for `image/` types (else `video`), its preview URL, and the error cleared; the loading and uploading flags stay. |
| CreatePage.ClearFile | client/app/create/page.tsx:156-166 | No file, no preview and no kind remain. The error and the loading and uploading flags stay. |
| CreatePage.ClearThenChoose | client/app/create/page.tsx:124-166 | Choosing an accepted file after a clear gives what choosing alone gives. A rejected choice after a clear leaves no file or preview. Clearing twice is clearing once. |
| CreatePage.SizeCheckedBeforeType | client/app/create/page.tsx:129-140 | An oversized file of a wrong type gets the size message, not the type message. |
| CreatePage.FileActionsKeepConsistent | client/app/create/page.tsx:124-166 | Choosing and clearing files keep this invariant: a kind is set exactly when a file is chosen, and a chosen file is acceptable and of that kind. |
| CreatePage.ExactLimitAccepted | client/app/create/page.tsx:11 | The limit is inclusive: 52428800 bytes are accepted and one more byte is refused. |
| CreatePage.Submit | client/app/create/page.tsx:44-85 | No token means a redirect to login. No file means a message and nothing sent. Otherwise the chosen file, caption and kind are sent. |
| CreatePage.SentFileIsAcceptable | client/app/create/page.tsx:44-154 | Every upload sent carries an acceptable file of the kind its type gives. |
| CreatePage.ReceiveUpload | client/app/create/page.tsx:88-114 | Success goes home. A failed read or request shows a non-empty error and ends loading: the server's message first, then the 401 prompt (which also goes to login), then the generic message. |
| CreatePage.FailedUploadResendsSameBody | client/app/create/page.tsx:44-114 | After a failure the choice is kept, so pressing again sends the same body. |
| RegisterPage.Validate | client/app/register/page.tsx:43-55 | A mismatched confirmation is reported first, then a password under 6 characters. Otherwise the username, email and password (not the confirmation) are sent. |
| RegisterPage.SixCharactersPass | client/app/register/page.tsx:50 | Six characters pass and five do not. |
| RegisterPage.HandleRegister | client/app/register/page.tsx:34-112 | Success saves the token and exactly `{id, username, email}`, and sets the auth store. A failure shows the server's message, else the network message for `Network Error`, else the generic one, and leaves storage alone. |
| RegisterPage.RegisteredIsLoggedIn | client/app/register/page.tsx:70-85 | After success the auth store is logged in as the saved user. |
| ExplorePage.HandleLike | client/app/explore/page.tsx:46-90 | No token sends nothing. A liked post is unliked and any other post liked. The liked set and the counts change only when the request succeeds. |
| ExplorePage.ToggleTwiceRestores | client/app/explore/page.tsx:46-90 | Two successful presses send a like then an unlike, and restore the set and every count. |
| ExplorePage.HandleDelete | client/app/explore/page.tsx:93-113 | A request is sent exactly when the signed-in user owns the post and confirms. On success only the posts with that id leave the list. |
| ExplorePage.DeleteRemovesExactly | client/app/explore/page.tsx:107 | Every other post keeps its multiplicity, the deleted id disappears, and the survivors keep their order. |
| HomePage.Normalize | client/app/page.tsx:69-81 | A row becomes a post with its own id, author, image, caption and date, the avatar `👤` and media type `image` when those are missing or empty, missing counts as 0, and not liked. |
| HomePage.NormalizeAll | client/app/page.tsx:69-81 | The store receives one post per row, in row order, each the normalised row. |
| HomePage.NormalizedPostsHaveDefaults | client/app/page.tsx:69-81 | Every post in the store is not liked and has a non-empty avatar (`👤` by default) and media type (`image` by default). |
| HomePage.NormalizeIdempotent | client/app/page.tsx:69-81 | Normalising an already normalised row gives the same post. |
| HomePage.CheckAuth | client/app/page.tsx:35-56 | A missing token or saved user redirects to login without fetching. Otherwise an empty auth store is filled from the saved user and the feed is fetched with the token. |
| HomePage.ReceiveFeed | client/app/page.tsx:58-98 | Rows replace the store's posts. 401 or 403 removes the saved token and user and redirects. Any other failure only shows the error message. |
| HomePage.RejectedTokenForcesLogin | client/app/page.tsx:84-91 | After a 401 or 403, the next check redirects to login. |
| ClientServer.EarlierLikeCannotBeUndone | client/app/explore/page.tsx:26-90 | The page starts with no liked posts. So for a post liked in an earlier visit, every press sends a like, and the page and the store never change: the like cannot be taken back there. |
| ClientServer.FreshLikeRoundTrip | client/app/explore/page.tsx:46-90 | On a post not yet liked, two presses against the server give back both the page and the store. |
| ClientServer.PageRegistrationSignsIn | client/app/register/page.tsx:34-93 | Take a registration the page lets through, with an unused username and email. The server creates it, and the page saves the new id and is logged in. |
| ClientServer.ServerLaxerThanPage | client/app/register/page.tsx:50-55 | The page refuses a five-character password that the server's register route accepts. |
| ClientServer.FeedNeverRejectsToken | server/routes/posts.ts:12 | The feed route has no gate. So the home page's fetch always gets rows, never clears the sign-in, and shows the server's media types and like counts. |
| Seqs.FilterConcat | client/app/store/postStore.ts:56 | `filter` distributes over concatenation. |
| Seqs.FilterMultiset | client/app/store/postStore.ts:56 | `filter` keeps every wanted element as often as it occurs and drops every other. |

## Left out

- The server side of change password, two-factor setup and verification, and device sessions is not
  part of this model. The account security page's requests to them are modelled; their answers are
  parameters.
- The SQL engine: queries are modelled by what they select. The connection pool, `SET SESSION`, the
  `SHOW COLUMNS` probe and any error the database raises are not modelled.
  - The probe is a boolean in the store.
  - The only database errors modelled are those the source depends on: duplicate keys at
    registration, `NULL` inserts and updates, and the unique username on update.
- Schema assumptions. The schema is not part of this model, so the model assumes:
  - `userId` and `followerId` are `NOT NULL`, so an insert without a caller id answers 500;
  - `users.username` is `NOT NULL`, so an update of an existing row without a username answers 500 (an
    update that matches no row raises nothing);
  - string columns compare with a binary (case-sensitive) collation. Under MySQL's default
    case-insensitive collation, `Alice@x` and `alice@x` would be one email, for the login lookup and for
    the unique keys alike;
  - no foreign keys are checked;
  - deleting a post removes only the post row (likes and comments stay);
  - username and email are unique keys;
  - ids are assigned in increasing order, and a failed insert does not consume one.
- AuthRoutes.Register: a refused duplicate leaves the next id unchanged. InnoDB consumes an
  auto-increment value on a failed insert, so "the next id" in `ClientServer.PageRegistrationSignsIn`
  holds only under that assumption.
- PostsRoutes.GetPost: the `:postId` path segment is taken as already read as a number. This applies to
  `Like`, `Unlike` and `DeletePost` as well. MySQL coerces text (`'abc'` reads as 0, `'5abc'` as 5), and
  a strict-mode insert of such text into `likes` fails with 500. Only user paths are read as text,
  through `Text.ParseId`.
- Ties in `ORDER BY createdAt DESC` are broken by the higher id first. SQL leaves their order
  unspecified.
- `server/routes/places.ts`, the profile, login and post-detail pages, and the shared components are not
  part of this model.
- Rendering, timers (`setTimeout` clearing messages or delaying a redirect), router navigation beyond a
  flag, `alert`/`confirm` (a parameter), object URLs and `FileReader`'s base64 encoding are not modelled.
- Concurrency: each request and each page event runs to completion, with no interleaving of async
  callbacks.
- `JSON.parse` of saved values is taken as the value it parses to. Malformed saved JSON is not modelled.
- HomePage.CheckAuth: tests the parsed saved user. The source tests the raw stored string, so a saved
  `"null"` would pass there and redirect here. The app never writes that string.
- String lengths are counted in characters, not UTF-16 code units.
- The password hash, token signing and verification are parameters. Expiry inside `verify` is
  whatever that parameter decides.
- AuthRoutes.RegisterThenLogin: `sign` is a function of the claims and lifetime alone and `hash` of the
  password and rounds alone. `jsonwebtoken` stamps the issue time into each token and bcrypt draws a
  random salt, so two real tokens for the same claims differ; the lemma promises the same claims and
  lifetime, not the same token text.
- Text.ParseId: reads only an all-digit segment as an id. MySQL would coerce `'5abc'` to 5; in the
  model such a segment names no row. The coercion rules are the database's, not the routes'.

## Findings

| source | as written | input that shows it | evidently intended | confidence | as-written member | corrected member |
|---|---|---|---|---|---|---|
| server/index.ts:54 | The users router is mounted without the bearer-token gate. `req.userId` is never set, so `PUT /users/:userId` always answers 403 and follow/unfollow always have no follower. | The owner of user 5 sends `PUT /users/5` with a valid token. | Mount the router behind the gate, as the posts routes are. | high, not executed | UsersRoutes.MountedUpdateAlwaysForbidden | UsersRoutes.GatedOwnerCanUpdate |
| client/app/setup/page.tsx:166-172 | After a successful change the three fields are emptied but the strength meter is not. The update button stays enabled, and a second press sends an empty new password. | Type `Abcdefgh1!` in both new-password fields, press, get an OK answer, press again. | Reset the meter with the fields. | high, not executed | SetupPage.StaleMeterResendsEmptyPassword | SetupPage.EverySentPasswordIsValid |
| client/app/setup/page.tsx:220 | The QR code is read from `data.qrCoda`. The generate answer carries it as `qrCode`, so the dialog opens without the picture. | An OK answer `{"qrCode": "data:image/png;base64,…"}`. | Read `data.qrCode`, the name of the page's own state. | medium, not executed (the server route is not part of this model) | SetupPage.GenerateDropsQrCode | SetupPage.GenerateShowsQrCode |
| server/routes/users.ts:82 | The self-follow guard compares the path text with `toString()` of the caller id. A path with a leading zero names the caller but passes the guard. This applies once the router is behind the gate. | User 5 posts to `/users/05/follow`. | Compare the path as the number the database reads. | medium, not executed | UsersRoutes.LeadingZeroFollowsSelf | UsersRoutes.FollowCheckedNeverSelf |
