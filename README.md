# MyVidVault, modelled in Dafny

MyVidVault is a video-bookmarking site. It has a Django REST backend and a Vue
frontend. Users bookmark videos into channels, and channels sit inside
collections. Bookmarks and videos are tagged. Users like videos and follow each
other, and they file reports that moderators resolve. This project models the
rules under the HTTP and ORM plumbing, over an in-memory store, and proves
what they guarantee.

The database is one object, `Store.Db`, with one field per table: users,
profiles, collections, channels, videos, tags, bookmarks, likes, follows,
reports, moderator assignments and the moderator audit log. Rows are keyed by
integer ids. `Db.Valid()` states the schema's constraints:
- foreign keys point at existing rows;
- tag names are unique;
- (user, channel, video) is unique among bookmarks;
- (user, video) is unique among likes, because likes are a set of pairs;
- a report has at most one assignment, because assignments are a map.

Views that change the store are methods with field-granular `modifies`
clauses. Each view's contract states its answer, its error cases with their
statuses, and the whole new state of the tables it touches. The pure rules are
functions. They cover:
- the feed pipeline;
- tag-name normalisation;
- URL dispatch;
- tag suggestion;
- required-field validation.

Lemmas relate the operations to each other: idempotence, toggling twice,
status-after-toggle, reload-after-write and the order of suggestions.

The modules follow the source files:
- `FeedQuery`: the bookmark feed;
- `OperationsUtils`, `OperationsModels` and `NormalizeTagsCommand`: tags, and
  the records of the operations app;
- `VideoViews` and `ManualBookmark`: likes and the manual bookmark form;
- `UsersModels`, `UsersViews`, `UserSerializers`, `UserSignals` and
  `MissingProfilesCommand`: the users app;
- `ModerationViews`: reports and their moderation;
- `AuthViews`: registration and password reset;
- `AuthStore`, `OrientationStore` and `RouteGuard`: the frontend stores and the
  navigation guard;
- `BrowserStorage`: `localStorage`.

`Wrappers`, `Text` and `Seqs` hold the option and result types, ASCII string
functions with Python's meaning, and sequence filtering, de-duplication,
sorting and shuffling.

Where the project's own design description and its code disagree, the model
follows the code. The code applies no visibility filter to the feed. It does
not collapse bookmarks of the same video, and it has no tag filter and no
"popular" sort. Filing a report does not make the bookmark private, and denying
a report does not make it public again. Approve and deny differ only in their
audit row.

## Model

| member | source | states |
|---|---|---|
| FeedQuery.ByOrientation | api/operations/views.py:39-41 | a bookmark is kept iff it was in the input and, when an orientation other than `all` is given, its video has that orientation; no duplicates are introduced |
| FeedQuery.ByOwner | api/operations/views.py:43-45 | with a non-empty `user`, exactly the input bookmarks owned by the user of that name remain |
| FeedQuery.ByLikes | api/operations/views.py:47-52 | with a non-empty `liked_by`, exactly the input bookmarks whose video that user liked remain |
| FeedQuery.ByFollowing | api/operations/views.py:54-57 | only `following=true` from a signed-in viewer restricts the feed, to bookmarks of users the viewer follows; otherwise nothing is removed |
| FeedQuery.ApplyFilters | api/operations/views.py:37-59 | the four filters combine as a conjunction: a bookmark survives iff it passes every active filter |
| FeedQuery.ApplySearch | api/operations/views.py:61-71 | with a non-empty `q`, a bookmark is kept iff its title, description, video title or a tag name contains `q` case-insensitively; the result has no duplicates |
| FeedQuery.ApplySorting | api/operations/views.py:73-82 | the result is a permutation of the input; unless `sort=random` it is in descending creation time |
| FeedQuery.GetQueryset | api/operations/views.py:18-35 | the feed holds each selected bookmark exactly once, and nothing else, newest first unless the sort is random |
| Seqs.ShuffleReaches | api/operations/views.py:77-79 | every rearrangement of the feed is the random order for some seed, so the random sort is an arbitrary permutation |
| OperationsUtils.NormalizeTagName | api/operations/utils.py:5-12 | the result has no upper-case letter, no space and no surrounding whitespace, and is no longer than the input |
| OperationsUtils.NormalizeIdempotent | api/operations/utils.py:10-12 | normalising twice gives the same name as normalising once |
| OperationsUtils.NormalizeFixedIff | api/operations/utils.py:10-12 | a name is left unchanged exactly when it is already in normal form |
| OperationsUtils.NormalizeMatchesSave | api/operations/utils.py:6-12 | the helper computes the same name `Tag.save` stores |
| OperationsUtils.NormalizedNamesMembers | api/operations/utils.py:22-26 | a name is looked up iff its normalised form is non-empty, and only such forms are looked up |
| OperationsUtils.GetOrCreateTagResult | api/operations/utils.py:25 | get_or_create returns the tag of that name or a new tag holding the saved form of the name; it fails (unique name) only when the name is absent but its saved form exists |
| OperationsUtils.NormalNameNeverCollides | api/operations/utils.py:23-25 | a non-empty normalised name never makes get_or_create fail, and is stored unchanged |
| OperationsUtils.GetOrCreateTag | api/operations/utils.py:25 | the store changes as the get_or_create result says: one new tag when one was created, nothing otherwise |
| OperationsUtils.CreateOrGetTags | api/operations/utils.py:14-27 | one tag per non-empty normalised name, in order, each carrying that name; equal names give the same tag; existing tags keep their names and only these names are added |
| OperationsModels.Tag.Save | api/operations/models.py:50-54 | a non-empty name is stored lower-cased, without spaces and stripped; an empty one is stored as it is |
| OperationsModels.Tag.Clean | api/operations/models.py:56-62 | the same rewrite, and a refusal exactly when it empties a non-empty name |
| OperationsModels.NewVideo | api/operations/models.py:64-86 | a new video has no tags and a like count of zero, and the given source, title, creator and time |
| OperationsModels.NewReport | api/operations/models.py:132-138 | a new report is unresolved with no resolution time |
| NormalizeTagsCommand.TagsToFix | api/operations/management/commands/normalize_tags.py:26-32 | only tags whose name is not normal are listed, each with its normalised name |
| NormalizeTagsCommand.TagsToFixComplete | api/operations/management/commands/normalize_tags.py:29-32 | every tag whose name is not normal is listed |
| NormalizeTagsCommand.TagsToFixDistinct | api/operations/management/commands/normalize_tags.py:27-32 | no tag is listed twice |
| NormalizeTagsCommand.RelinkVideos | api/operations/management/commands/normalize_tags.py:63-65 | every video linked to the old tag is linked to the surviving one instead; no video is added or dropped |
| NormalizeTagsCommand.RelinkBookmarks | api/operations/management/commands/normalize_tags.py:68-70 | the same for bookmarks |
| NormalizeTagsCommand.RelinkKeepsTagLinks | api/operations/management/commands/normalize_tags.py:61-73 | after relinking, deleting the old tag leaves no video or bookmark pointing at a missing tag |
| NormalizeTagsCommand.MergeTag | api/operations/management/commands/normalize_tags.py:52-73 | a merge moves all links to the existing tag and deletes the old one, keeping the store valid |
| NormalizeTagsCommand.RenameTag | api/operations/management/commands/normalize_tags.py:75-81 | a rename changes only that tag's name, and names stay unique |
| NormalizeTagsCommand.ScanTags | api/operations/management/commands/normalize_tags.py:26-32 | the scan loop computes the fix list |
| NormalizeTagsCommand.Swap | api/operations/management/commands/normalize_tags.py:63-70 | in a tag set holding the old tag, the old tag is replaced by the survivor and every other tag is kept; a set without the old tag is unchanged |
| NormalizeTagsCommand.RelinkSelf | api/operations/management/commands/normalize_tags.py:75-81 | relinking a tag to itself, as a rename does, leaves every video and bookmark as it was |
| NormalizeTagsCommand.Survivor | api/operations/management/commands/normalize_tags.py:52-54 | the surviving tag is the fixed tag itself exactly when no other tag carries the normal name, and otherwise a tag that carries it |
| NormalizeTagsCommand.FixKeepsNormalNames | api/operations/management/commands/normalize_tags.py:50-81 | fixing one tag and moving a tag set's link to the survivor keeps the set's normalised names |
| NormalizeTagsCommand.FixKeepsLinks | api/operations/management/commands/normalize_tags.py:50-81 | each fix keeps every video and bookmark, with its tags carrying the normalised names of its original tags |
| NormalizeTagsCommand.NamesOfNormalTags | api/operations/management/commands/normalize_tags.py:50-81 | once every name is normal, the names of a tag set are its normalised names |
| NormalizeTagsCommand.FollowedNames | api/operations/management/commands/normalize_tags.py:49-81 | after the loop each video and bookmark is tagged with exactly the normalised names of its old tags |
| NormalizeTagsCommand.FixOne | api/operations/management/commands/normalize_tags.py:50-81 | the tag is renamed to its normal name when no other tag has that name, and then its videos and bookmarks keep it; otherwise every video and bookmark linked to it is relinked to the tag that has the name, and it is deleted; no other tag changes |
| NormalizeTagsCommand.Handle | api/operations/management/commands/normalize_tags.py:17-85 | a dry run or an empty fix list changes nothing; a tag whose name was normal keeps its id and name; otherwise every remaining tag name is normal and is the normalised form of that tag's old name, no tag is created, no video or bookmark is added or dropped or changed except in its tags, and each is tagged with exactly the normalised names of its old tags |
| VideoViews.ToggleLikeSpec | api/videos/views.py:26-40 | an unknown video is a 404 with no change; otherwise the answer says whether the like now exists, only the (user, video) like changes, and the stored counter is the returned one; a decrement below zero is a 500 that leaves the videos as they were with the like already removed |
| VideoViews.ToggleLike | api/videos/views.py:26-40 | the view changes the like and video tables as the toggle specification says |
| VideoViews.ToggleFlips | api/videos/views.py:29-36 | the toggle creates a missing like (counter + 1) and deletes an existing one (counter − 1) |
| VideoViews.ToggleReturnsStoredCount | api/videos/views.py:37-38 | the count in the answer is the count saved on the video |
| VideoViews.ToggleKeepsCount | api/videos/views.py:29-37 | a counter equal to the number of like rows stays equal after a toggle, and the toggle then succeeds |
| VideoViews.ToggleTwiceRestores | api/videos/views.py:26-38 | toggling twice restores the like table and the video table |
| VideoViews.LikeStatus | api/videos/views.py:45-52 | 404 exactly for an unknown video; otherwise whether the user's like exists |
| VideoViews.StatusAfterToggle | api/videos/views.py:45-52 | after a toggle the status endpoint answers what the toggle answered |
| VideoViews.BookmarksOf | api/videos/views.py:59 | exactly the bookmarks of the video, without duplicates |
| VideoViews.UsersWhoBookmarked | api/videos/views.py:57-62 | entry k is the owner of the video's k-th bookmark, so there is one entry per bookmark |
| VideoViews.UsersWhoBookmarkedCount | api/videos/views.py:59-60 | the list is as long as the video has bookmarks |
| ManualBookmark.FirstMissing | api/videos/serializers.py:16-18 | none iff every required field is truthy; otherwise the first falsy field, all before it truthy |
| ManualBookmark.CheckRequired | api/videos/serializers.py:15-22 | the loop refuses on exactly the first missing field of its section |
| ManualBookmark.Validate | api/videos/serializers.py:9-23 | the whole validation: video fields first, then bookmark fields |
| ManualBookmark.VideoFieldsFirst | api/videos/serializers.py:15-22 | a payload missing a video field is refused on its video section whatever its bookmark section holds |
| ManualBookmark.ValidateNamesFirstMissing | api/videos/serializers.py:15-22 | a refusal names a required field of its section that is missing, and a bookmark-field refusal means all video fields were present |
| ManualBookmark.GetOrCreateVideo | api/videos/serializers.py:33-42 | an existing video with the same source URL is reused unchanged; otherwise a new video is made from the defaults; two or more matches are a 500 |
| ManualBookmark.SetVideoTags | api/videos/serializers.py:45-47 | the video's tags become exactly the tags of its normalised names, nothing else of it changes |
| ManualBookmark.SetBookmarkTags | api/videos/serializers.py:65-67 | the same for the bookmark |
| ManualBookmark.InsertTagged | api/videos/serializers.py:56-67 | the inserted bookmark has the user, channel, video, description and access given, no title, and the tags of its names |
| ManualBookmark.TaggedVideo | api/videos/serializers.py:33-47 | the video step: the reused or new video, as `GetOrCreateVideo` says, then tagged with exactly the tags of its normalised names |
| ManualBookmark.AddBookmark | api/videos/serializers.py:49-67 | an unknown channel is a 500, a duplicate (user, channel, video) a 400, both without insert; otherwise it succeeds with one new bookmark as above |
| ManualBookmark.Create | api/videos/serializers.py:25-68 | the whole create: the video step's outcome; a new video is the only video that changes, given in full with its tags; then the bookmark step's errors, or success with its one new bookmark when the channel exists and the bookmark is not a duplicate; the tag table grows by exactly the normalised names of both lists |
| UsersModels.SplitExt | api/users/models.py:44 | the extension is non-empty iff the name has a `.` with no `.` or `/` after it and a character other than `.` before it in the same path part, and it is then the text from that `.` on |
| UsersModels.AvatarPath | api/users/models.py:42-51 | the path is exactly `avatars/`, the username, then the lower-cased extension of the uploaded name |
| UsersModels.AvatarPathKeepsExtension | api/users/models.py:42-51 | for a username without `/` that is not all dots, splitting the stored path again gives back the lower-cased extension of the uploaded name |
| UsersModels.Notification.Display | api/users/models.py:249-256 | the printed form is `System: verb` without an actor, else actor and verb, followed by the target when there is one, each separated by one space |
| UsersModels.Notification.MarkAsRead | api/users/models.py:258-261 | the notification is read afterwards, and a write happens only when it was unread |
| UsersModels.Notification.MarkAsUnread | api/users/models.py:263-266 | the notification is unread afterwards, and a write happens only when it was read |
| UsersViews.FollowToggleSpec | api/users/views.py:135-150 | unknown target 404, self 400, both without change; otherwise the follow flips and the answer says whether it now exists |
| UsersViews.ToggleFollow | api/users/views.py:135-150 | the view changes the follow table as the toggle specification says |
| UsersViews.FollowToggleTwice | api/users/views.py:141-146 | a second toggle undoes the first and answers the opposite |
| UsersViews.NoSelfEdge | api/users/views.py:138-141 | the toggle never creates a self-follow |
| UsersViews.FollowStatus | api/users/views.py:228-237 | 404 exactly for an unknown user; `is_self` iff the target is the caller; `is_followed` is the follow edge, false for oneself |
| UsersViews.StatusAfterFollowToggle | api/users/views.py:141-148 | after a toggle the status endpoint answers what the toggle answered |
| UsersViews.WithScheme | api/users/views.py:265-266 | a URL starting with `http://` or `https://` is kept; any other is exactly `https://` followed by the typed URL |
| UsersViews.WithSchemeIdempotent | api/users/views.py:265-266 | prefixing twice is prefixing once |
| UsersViews.Domain | api/users/views.py:269-270 | the host is the text right after the scheme's `//`, lower-cased character by character, ending just before the first `/`, `?` or `#` or at the end of the URL |
| UsersViews.PlatformOf | api/users/views.py:272-287 | the platform is the first in the `elif` order whose site the host names, and the generic one iff no site matches |
| UsersViews.ProposedOrientation | api/users/views.py:356-372 | the four adult-site extractors propose `straight`, every other one `sfw` |
| UsersViews.SchemelessDispatch | api/users/views.py:265-274 | a URL typed without a scheme is dispatched on the host it starts with |
| UsersViews.ShortLinkIsYouTube | api/users/views.py:265-274 | a `youtu.be/` link without a scheme goes to the YouTube extractor |
| UsersViews.ExtractedOrientation | api/users/views.py:261-287 | the proposed orientation is a valid choice, and `straight` only for a host naming one of the four adult sites |
| UsersViews.Words | api/users/views.py:464 | every match is a non-empty run of word characters |
| UsersViews.WordsSplit | api/users/views.py:464 | the matches, with gaps of non-word characters around them (non-empty between two matches), make up the text |
| UsersViews.SplitIsWords | api/users/views.py:464 | any such split of the text into words and gaps is the one the matcher finds, so the matches are exactly the maximal runs of word characters, in order |
| UsersViews.WordsOfLowered | api/users/views.py:464 | words of lower-cased text hold no capitals |
| UsersViews.KeptWords | api/users/views.py:476-479 | a word is kept iff it has three letters or more, only letters, and is not a common word |
| UsersViews.ExtractTagsFromTitle | api/users/views.py:458-482 | at most ten distinct lower-case kept words of the text, and all of them when there are fewer than ten |
| UsersViews.ExtractTagsInOrder | api/users/views.py:481-482 | the suggestions come in the order of their first occurrence |
| UsersViews.ExtractTagsFirstTen | api/users/views.py:476-482 | a kept word is left out only when ten words were already taken, all of them before its first occurrence |
| UsersViews.SuggestedTags | api/users/views.py:434-450 | at most ten distinct suggestions, each from the title or the description; a title or description tag is left out only when the ten places are full |
| UsersViews.SuggestedFirstTen | api/users/views.py:434-450 | the merged suggestions keep the order of first occurrence in the title's suggestions followed by the description's, and a word is left out only when ten were kept, all occurring before it |
| UsersViews.TitleTagsFirst | api/users/views.py:434-440 | the title's suggestions all come first, in their order |
| UsersViews.GenericTitle | api/users/views.py:444 | the title is never empty and is the scraped one when there is one |
| UsersViews.CollectError | api/users/views.py:496-505 | no error iff the three parameters are present, the source bookmark and the channel exist and the caller has not bookmarked that video in that channel; missing parameters are a 400 and an unknown source a 404 |
| UsersViews.CollectionIgnored | api/users/views.py:496-500 | which collection is named makes no difference |
| UsersViews.CollectBookmark | api/users/views.py:491-519 | on success one new bookmark: the source's video, title, description, access and tags, owned by the caller, in the named channel, created now; no change on error |
| UserSerializers.InputError | api/users/serializers.py:25-35 | the input is accepted iff the stripped title is non-empty, the video exists, a given channel and collection exist, and no tag name is blank |
| UserSerializers.InsertError | api/users/serializers.py:35 | the insert fails iff the channel is null or the (user, channel, video) bookmark exists |
| UserSerializers.TrimmedNames | api/users/serializers.py:33 | each tag name arrives stripped |
| UserSerializers.RawTags | api/users/serializers.py:36-40 | the loop as written fails iff some name misses its lookup while its saved form is already stored, and then with the duplicate-name error and the bookmark untouched; on success the bookmark's tags are exactly the tags holding a given name as given or as saved |
| UserSerializers.RawRounds | api/users/serializers.py:36-39 | the rounds fail with the duplicate-name error iff some name misses its lookup while its saved form is already stored; otherwise each name is held, as given or as saved, by the tag of its round, and no old tag changes |
| UserSerializers.RawAppend | api/users/serializers.py:37-39 | one round fails iff the name is not stored but its saved form is, and then changes nothing; otherwise the stored names are the original ones plus the saved form of every name not found so far |
| UserSerializers.RawNamesClash | api/users/serializers.py:36-39 | two new names that are not in saved form and save to the same name make the later round fail |
| UserSerializers.CreateBookmarkAsWritten | api/users/serializers.py:32-41 | the create as written: input errors 400 without insert; insert errors 500; after the insert the tag loop fails exactly as `RawTags` says, leaving the inserted bookmark without tags, and otherwise tags it with exactly the tags of its names |
| UserSerializers.SpacedNameRewritten | api/operations/models.py:50-54 | a name with a space is stored under a different name without spaces |
| UserSerializers.RawNameCollides | api/users/serializers.py:37-39 | a name with a space creates a tag under its rewritten form and then fails on the same name |
| UserSerializers.NewRow | api/users/serializers.py:25-35 | the created row belongs to the caller, in the given channel and video, with the trimmed title, no tags, and the model's default access `public`, one of the access choices, since the serializer does not accept `access` |
| UserSerializers.CreateBookmark | api/users/serializers.py:32-41 | the corrected create: errors exactly for bad input or a failing insert, with no change; otherwise one new bookmark carrying the tags of its normalised names |
| UserSerializers.Patched | api/users/serializers.py:106-116 | an absent avatar or bio leaves that field alone; a given avatar replaces the old one, and a given bio is stored stripped of surrounding whitespace |
| UserSerializers.PatchIdempotent | api/users/serializers.py:106-116 | applying the same patch twice is applying it once |
| UserSerializers.UpdateProfile | api/users/serializers.py:106-116 | only the profile of that user changes, as the patch says |
| UserSerializers.ProfileCollections | api/users/serializers.py:80-86 | the prefetched collections when there are some, otherwise exactly the user's collections without duplicates |
| UserSerializers.AbsoluteUri | api/users/serializers.py:97-98 | a location with a scheme is returned as it is; otherwise the absolute URL is the request origin followed by the location |
| UserSerializers.AvatarUrl | api/users/serializers.py:91-104 | the avatar's URL when it has a name and the file exists, otherwise the default image under the media URL |
| UserSerializers.AvatarUrlEnds | api/users/serializers.py:91-104 | the URL always ends with the avatar's file name or with `default.jpg` |
| UserSignals.AddProfile | api/users/signals.py:9 | the user gets an empty profile and no other profile changes |
| UserSignals.AddDefaultCollection | api/users/signals.py:11-21 | one new collection named after the user and one new channel in it, with the fixed descriptions |
| UserSignals.CreateUserProfile | api/users/signals.py:6-21 | nothing unless the user was created; then the profile, the collection and the channel; a second profile is an error without change |
| MissingProfilesCommand.WithoutProfile | api/users/management/commands/create_missing_profiles.py:10 | exactly the users without a profile, without duplicates |
| MissingProfilesCommand.Bootstrap | api/users/management/commands/create_missing_profiles.py:19-37 | the user gets a profile; a user with a collection keeps its collections and channels as they were; otherwise exactly one default collection and channel pair is added for it |
| MissingProfilesCommand.Handle | api/users/management/commands/create_missing_profiles.py:9-44 | afterwards every user has a profile; the count is the number of users that had none; each of them that had no collection has a default collection and channel pair; every new collection is the default collection of such a user, at most one per user, and every new channel is the default channel of a new collection, at most one per collection; existing profiles, collections and channels are kept; nothing changes when none was missing |
| ModerationViews.ReportList | api/moderation/views.py:21-23 | exactly the unresolved reports, each once, newest first |
| ModerationViews.ModeratorGateAsWritten | api/moderation/permissions.py:7-8 | as written no caller is admitted: 403 without a profile, and a 500 for a missing field when there is one |
| ModerationViews.ModeratorGate | api/moderation/permissions.py:3-8 | corrected: admitted iff the caller has a profile flagged as moderator, otherwise 403 |
| ModerationViews.GateRefusesModerators | api/moderation/permissions.py:8 | every caller the intended gate admits (a flagged moderator with a profile) is refused by the written one, which fails reading the missing flag; for a caller without a profile both answer with the same 403 |
| ModerationViews.AssignReportAsWritten | api/moderation/views.py:30-44 | as written: 400 without a report id and 500 for an unknown report; a report without an assignment is a 500 too, with nothing written; only a report already assigned is taken over, with one audit row |
| ModerationViews.AssignReport | api/moderation/views.py:30-44 | corrected: 400 without a report id, 500 for an unknown report, both without change; otherwise the report's one assignment names the caller and one audit row is added |
| ModerationViews.Resolved | api/moderation/views.py:54-55 | a resolved report is marked resolved at that time and keeps what it reports |
| ModerationViews.ResolveReport | api/moderation/views.py:51-82 | 500 for a missing or unknown report without change; otherwise only that report becomes resolved, one audit row is added, and the bookmark is untouched |
| ModerationViews.ResolvedLeavesQueue | api/moderation/views.py:21-23 | resolving a report removes it from the queue and changes nothing else in it |
| ModerationViews.ResolveTwice | api/moderation/views.py:72-75 | resolving twice is resolving once, at the later time |
| AuthViews.RegisterError | api/authsystem/views.py:20-31 | over the stripped fields: refused for a blank username or password or a taken username, and otherwise exactly when the passwords differ; every refusal is a 400 |
| AuthViews.RegisterIgnoresSurroundingSpace | api/authsystem/views.py:20-31 | whitespace around the fields never changes the registration verdict |
| AuthViews.NormalizeEmail | api/authsystem/views.py:33-36 | the address keeps its length; up to and including its last `@` it is unchanged and the part after it is lower-cased; an address without `@` is unchanged |
| AuthViews.NormalizeEmailIdempotent | api/authsystem/views.py:33-36 | normalising an address twice is normalising it once |
| AuthViews.Register | api/authsystem/views.py:33-40 | on success one new user with the stripped name and password and the stripped email with its domain lower-cased, plus a profile and exactly one new collection and one new channel, the default pair, with every earlier collection and channel kept; no change on refusal |
| AuthViews.ResetRequest | api/authsystem/views.py:67-85 | no email is a 400; otherwise the same 200 answer whether or not an account has it, and the link goes to the one account that has it; two accounts make it a 500 |
| AuthViews.ResetRequestHidesAccounts | api/authsystem/views.py:71-85 | adding the account that owns the address changes who is mailed but not the answer |
| AuthViews.ConfirmErrors | api/authsystem/views.py:96-106 | one error per missing field, and the mismatch error on the confirmation exactly when both passwords are given and differ |
| AuthViews.ResetConfirm | api/authsystem/views.py:90-121 | field errors, then an unknown user, then a bad token are 400s without change; only then is that user's password set, and nothing else changes |
| AuthStore.Restore | frontend/src/stores/auth.js:7-10 | a new store takes its tokens, user and expiry from storage, an empty value counting as none |
| AuthStore.Store.constructor | frontend/src/stores/auth.js:7-11 | a new store starts idle with the session restored from storage |
| AuthStore.Store.IsAuthenticated | frontend/src/stores/auth.js:14-16 | authenticated iff both tokens are non-empty |
| AuthStore.Store.IsTokenExpired | frontend/src/stores/auth.js:18-25 | expired without an expiry or within five minutes of it; an unreadable date never expires |
| AuthStore.Store.SetTokens | frontend/src/stores/auth.js:28-41 | both tokens and an expiry seven days on are kept in memory and in storage, and the token is not expired |
| AuthStore.ReloadAfterSetTokens | frontend/src/stores/auth.js:28-41 | a store created from the storage `setTokens` wrote reads back the same tokens and expiry, so it is not expired |
| AuthStore.RefreshWithoutRotation | frontend/src/stores/auth.js:126-131 | a refresh answer without a refresh token leaves the store signed out in memory but signed in, with the token text `undefined`, after a reload |
| AuthStore.Store.ClearTokens | frontend/src/stores/auth.js:52-63 | all four fields are emptied and the five storage keys removed |
| AuthStore.ReloadAfterClear | frontend/src/stores/auth.js:52-63 | a store created after clearing is signed out |
| AuthStore.Store.Login | frontend/src/stores/auth.js:65-85 | a failed login clears everything and passes the error on; a successful one sets the tokens |
| AuthStore.Store.Logout | frontend/src/stores/auth.js:87-101 | whatever the server answers, the store ends cleared |
| AuthStore.Store.RefreshTokens | frontend/src/stores/auth.js:103-141 | without a refresh token it fails and changes nothing; a good answer sets the new tokens; a failed call clears them and goes to `/login`; no refresh is left in flight |
| AuthStore.Store.CheckAndRefreshToken | frontend/src/stores/auth.js:103-158 | false without a session and nothing changes; true for an unexpired session and nothing changes; for an expired one, whether the refresh succeeded, with the new session and stored tokens on success, and on failure a logged-out session, the keys removed and a page load of `/login` |
| RouteGuard.RequiresAuthIffCreate | frontend/src/main.js:29-37 | a path needs a session iff it starts with `/bookmarks/create` |
| RouteGuard.BeforeEach | frontend/src/main.js:27-53 | unprotected paths proceed without touching the session; a protected one proceeds iff the session checks out, and otherwise goes to `/login` with the full path as `redirect`; when that is because a refresh failed, the store's page load of `/login` (without the query) comes back as well; on a protected path the session and the stored items are unchanged unless the session was authenticated and expired, in which case a successful refresh leaves the new token pair, the same user and an expiry seven days on (stored likewise), and a failed one leaves the store logged out with the three keys removed |
| OrientationStore.FiltersAreChoices | frontend/src/stores/orientation.js:7-14 | the menu is `all` followed by exactly the backend's orientation choices |
| OrientationStore.InitialSelection | frontend/src/stores/orientation.js:16-18 | the stored selection, or `all` when none is stored |
| OrientationStore.ReloadKeepsSelection | frontend/src/stores/orientation.js:16-22 | after a selection is set, a new store starts with it, except that an empty one reads back as `all` |
| OrientationStore.Store.constructor | frontend/src/stores/orientation.js:16-18 | a new store starts with the initial selection read from storage |
| OrientationStore.Store.SetOrientation | frontend/src/stores/orientation.js:20-23 | any id becomes the selection and is written under `orientationFilter` |

## Left out

- Network, mail, page scraping and JSON: server answers and decoded request bodies are parameters, and the mailed reset link is returned as its recipients.
- Clocks: the current time is a parameter. `created_at` values are plain integers, and the frontend keeps times as milliseconds.
- Randomness: `order_by('?')` is a permutation chosen by a seed parameter. `Seqs.ShuffleReaches` shows that every permutation is reachable.
- Database iteration order: `Tag.objects.all()`, the user and report tables and the bookmark table are enumerated by an `order` parameter, a duplicate-free list of the table's keys.
- Text: only ASCII. `lower`, `isspace`, `isalpha` and `\w` take their ASCII meaning, and there is no Unicode case folding.
- `urlparse`: the host is modelled only for URLs whose scheme the view added or checked.
- Ids: request ids are integers; a non-numeric id is not modelled.
- DRF field validation is collapsed into one error per endpoint, with the status the endpoint answers. Surrounding whitespace is stripped and a blank field refused, as DRF's character fields do. Username character rules, field length limits and email format checks are not modelled.
- AuthViews.Register: the Unicode NFKC normalisation `create_user` applies to the username is not modelled, since text is ASCII only.
- Concurrency on the backend: requests are modelled one at a time. So the race in the `likes_count` read-modify-write (api/videos/views.py:29-37) is not captured, nor is `video.save()` writing every field over a concurrent update.
- Name lookups (usernames, tag names, source URLs) assume a case-sensitive database collation.
- The `Subscription` and `MutedUser` tables, with `MutedUser`'s unique (user, muted_user) pair, are not modelled: no operation of the modelled views writes them.
- Moderation views: `ModerationViews.ReportList`, `ModerationViews.AssignReport` and `ModerationViews.ResolveReport` model a caller admitted by the corrected gate `ModerationViews.ModeratorGate`. As written no caller is admitted (see Findings).
- UserSerializers.Patched: a JSON `null` bio, which DRF refuses with a 400, is treated as an absent bio.
- UserSerializers.AvatarUrl: the `quote()` percent-encoding of the file name is not modelled; the name appears as stored.
- The console output of the `normalize_tags` and `create_missing_profiles` commands (the dry-run listing, the per-tag and per-user lines, the totals) is not modelled; `NormalizeTagsCommand.Handle` returns the fix list and `MissingProfilesCommand.Handle` the count they print.
- UsersViews.Domain: the removal of tab and newline characters that `urlsplit` performs first is not modelled.
- Password hashing, the reset token's cryptography and the base64 user id: the password is stored as given, the token check is a boolean and the decoded id an option.
- `LoginView` and `LogoutView` call `authenticate`, `login` and `logout`, which are never imported (api/authsystem/views.py:42-62), so they fail at run time; they are not modelled.
- Avatar storage: whether the file exists is a boolean. `build_absolute_uri` is modelled as prefixing the request origin to a location without a scheme.
- `Profile.save` image processing and the other profile fields are not modelled.
- `EditBookmarkView` and `EditVideoView` set arbitrary attributes from the request body, which has no finite model here. `LookupBookmarkView` and `AuditLogListView` only read.
- Assignment and audit timestamps, and report notes.
- Frontend concurrency: the wait of a second caller while a refresh is in flight (frontend/src/stores/auth.js:104-120), the hourly auto-refresh timer, `initializeAuth` and the profile fetch after login (with `setUser`). `AuthStore.Store.RefreshTokens` requires that no refresh is in flight, which always holds between calls in a sequential model.
- AuthStore.Store.IsTokenExpired: in the source it is a Vue `computed` over `new Date()`, which is not reactive, so its value is cached until `tokenExpiry` changes and can read a stale `false` after the real expiry. The model evaluates it afresh at the `now` parameter.
- AuthStore.Store.CheckAndRefreshToken: reads the same cached value in the source, so it can skip a refresh that the model, evaluating at `now`, performs.
- AuthStore.Restore: the expiry is stored as decimal milliseconds rather than an ISO date. A text that does not read as a number plays the part of an invalid date.
- AuthStore.Store.SetTokens: seven days are counted as 7 × 24 hours; calendar days across a daylight-saving change are not modelled.

## Findings

| source | as written | input that shows it | evidently intended | confidence | as-written member | corrected member |
|---|---|---|---|---|---|---|
| api/users/serializers.py:36-40 | each tag is fetched with `get_or_create(name=tag_name)` on the raw name, but `Tag.save` stores the name rewritten (lower-cased, spaces removed), so the lookup misses the stored row and the insert hits the unique name | tags `["My Tag", "My Tag"]`: the first creates `mytag`, the second looks for `My Tag`, misses, and fails on the unique name; the bookmark stays with no tags (a 500) | look tags up by their normalised name, as `create_or_get_tags` does, skipping names that normalise to empty | medium, not executed | UserSerializers.CreateBookmarkAsWritten, UserSerializers.RawNameCollides | UserSerializers.CreateBookmark |
| api/moderation/views.py:35 | `get_or_create(report=report)` is called without `defaults`, but the assignment's `moderator` is a non-null foreign key (api/moderation/models.py:9), so creating a missing assignment fails on the NULL moderator | a pending report with no assignment, assigned by a moderator: the insert fails and the answer is a 500 with nothing written | create the assignment with the caller as moderator (`defaults={'moderator': request.user}`) | high, not executed | ModerationViews.AssignReportAsWritten | ModerationViews.AssignReport |
| api/moderation/permissions.py:8 | the permission reads `profile.is_moderator`, a field the profile model does not declare | any signed-in user with a profile calling a moderation endpoint: the attribute read fails and the answer is a 500; without a profile it is a 403 | admit exactly the users whose profile is flagged as moderator | medium, not executed | ModerationViews.ModeratorGateAsWritten, ModerationViews.GateRefusesModerators | ModerationViews.ModeratorGate |
