# Feed, note detail and home tab logic of a note-sharing Android client

This project models the parts of the app that keep real state. Everything else in the app is view binding, image loading and HTTP calls.

- **The feed controller `MainViewModel`.** It holds:
  - the canonical list `localNotes`;
  - the published list `notes`, which stays absent until first set;
  - the page counter `currentPage`, with pages of 16;
  - three flags: `isLoading`, `isLoadingMore` and `hasMoreData`.

  Its operations are:
  - a first-page refresh;
  - a guarded "load more" that appends only notes with ids not seen before;
  - an optimistic like toggle;
  - a replace-by-id of a note handed back by the detail screen.
- **The note detail screen `NoteDetailActivity`.** It covers:
  - the note's like toggle;
  - the image gallery list;
  - comments written on the device. They are put in front of the local list and given the negated clock as id.
  - merging those comments with the server's list;
  - the display order: each top-level comment followed by its direct replies;
  - the like callback of the comment list;
  - both outcomes of a comment fetch.
- **The home screen `HomeFragment`.** It covers:
  - the double tap on the first tab, which switches between the one- and two-column layouts;
  - the second tab, which reloads the first page;
  - the scroll guard that asks the controller for the next page;
  - the "latest copy by id" choice made when a note is opened;
  - writing the detail screen's result back into the feed.

Modules:
- `Collections`: Kotlin's `indexOfFirst`, `firstOrNull`/`find`, indexed replacement, `map`-by-id and reversal, written once over a key function.
- `Model`: the `Note` and `Comment` records, the fetch outcome and the like rule.
- `Feed`: the classes and specification functions of the feed.
- `Detail`: the classes and specification functions of the detail screen.
- `Home`: the classes and specification functions of the home screen.

Each screen component is a Dafny `class` whose fields are the Kotlin fields. Its methods change them in place. Fetch results, the clock, the scroll position and the saved layout preference are parameters.

Each method is proved against specification functions:
- `Unseen` and `MergeBatch` for the batch append;
- `ToggleFirst` / `ToggleTarget` for the like;
- `MergedComments` and `DisplayOrder` for the comment list;
- `LatestNote` for the note that is opened.

The lemmas then prove what the app relies on about those functions.

Three behaviours of the code differ from what a reader of the app might expect; the model follows the code:
- **A failed `loadMore` does not roll back `currentPage`.** The code increments it before the fetch and never decrements it (MainViewModel.kt:66).
- **On an id collision between a local and a server comment, the server copy is kept.** `buildAllComments` skips local comments whose id the server knows (NoteDetailActivity.kt:311).
- **The `Comment` class in `data/model/NoteModel.kt:49-58` has no reply fields.** They are `parentCommentId`, `replyToUsername` and `replies`, and the activity builds comments with them (NoteDetailActivity.kt:227-239). The model's `Comment` carries them.

## Model

| member | source | states |
|---|---|---|
| Collections.IndexOfFirst | app/src/main/java/com/example/myapplication/ui/main/MainViewModel.kt:105 | -1 exactly when no element has the key; otherwise an index whose element has the key and before which none does |
| Collections.FirstOrNone | app/src/main/java/com/example/myapplication/ui/main/MainViewModel.kt:72 | absent exactly when `indexOfFirst` is -1, otherwise the element at that index (also `firstOrNull` at HomeFragment.kt:155) |
| Collections.ReplaceFirst | app/src/main/java/com/example/myapplication/ui/detail/NoteDetailActivity.kt:86-96 | same length and keys at every index; without a match the list is unchanged; with one, only the first matching index holds the new element |
| Collections.ReplaceEvery | app/src/main/java/com/example/myapplication/ui/main/MainViewModel.kt:124-126 | same length; every element with the key becomes the new element, every other one is kept |
| Collections.KeySet | app/src/main/java/com/example/myapplication/ui/detail/NoteDetailActivity.kt:309 | defines the set of ids occurring in a list, as `map { it.id }.toSet()` builds it; also the ids `none { it.id == … }` tests at MainViewModel.kt:85 |
| Collections.Reversed | app/src/main/java/com/example/myapplication/ui/detail/NoteDetailActivity.kt:310-313 | the reversal has the same length as the list |
| Collections.ReversedAt | app/src/main/java/com/example/myapplication/ui/detail/NoteDetailActivity.kt:310-313 | index i of the reversal holds the element at the mirror position |
| Collections.ReversedMultiset | app/src/main/java/com/example/myapplication/ui/detail/NoteDetailActivity.kt:310-313 | the reversal has the same multiset of elements, hence the same members |
| Collections.ReversedCons | app/src/main/java/com/example/myapplication/ui/detail/NoteDetailActivity.kt:241 | reversing a list with an element put in front puts that element last |
| Collections.IndexOfFirstSameKeys | app/src/main/java/com/example/myapplication/ui/main/MainViewModel.kt:105-116 | the index found depends only on the keys, so replacing a note by a copy with the same id does not move later lookups |
| Collections.ReplaceFirstThenLookup | app/src/main/java/com/example/myapplication/ui/detail/NoteDetailActivity.kt:86-90 | after replacing, looking the id up again finds the new element at the same index |
| Collections.ReplaceFirstWithOwnEntry | app/src/main/java/com/example/myapplication/ui/detail/NoteDetailActivity.kt:86-90 | writing back the element that is already first with its id changes nothing |
| Collections.ReplaceEveryIdempotent | app/src/main/java/com/example/myapplication/ui/main/MainViewModel.kt:123-127 | applying the same replace-by-id twice is the same as once, and the set of ids is unchanged |
| Model.ToggledNote | app/src/main/java/com/example/myapplication/ui/main/MainViewModel.kt:107-111 | `isLiked` flips; likes go up by one when it becomes liked and down by one when it becomes unliked; no other field changes |
| Model.ToggledComment | app/src/main/java/com/example/myapplication/ui/detail/adapter/CommentAdapter.kt:64-67 | the same rule for a comment |
| Model.ToggledNoteTwice | app/src/main/java/com/example/myapplication/ui/detail/NoteDetailActivity.kt:262-266 | toggling a note twice gives the note back |
| Model.ToggledCommentTwice | app/src/main/java/com/example/myapplication/ui/detail/adapter/CommentAdapter.kt:64-67 | toggling a comment twice gives the comment back |
| Feed.CarryForward | app/src/main/java/com/example/myapplication/ui/main/MainViewModel.kt:71-81 | same length and ids as the fetched batch; a fetched note whose id is held takes `isLiked` and `likes` from the first held note with that id and keeps every other field as fetched; a fetched note whose id is not held is kept as fetched |
| Feed.Unseen | app/src/main/java/com/example/myapplication/ui/main/MainViewModel.kt:84-86 | no longer than the batch; a note is kept exactly when it is in the batch and its id is not held |
| Feed.MergeBatch | app/src/main/java/com/example/myapplication/ui/main/MainViewModel.kt:71-86 | the merge-then-filter of loadMore equals filtering the raw batch by unseen ids |
| Feed.ToggleFirst | app/src/main/java/com/example/myapplication/ui/main/MainViewModel.kt:104-112 | defines the published list after a like: the first note with the id is replaced by its toggled copy; its shape is stated by `Feed.ToggleFirstShape` |
| Feed.ToggleTarget | app/src/main/java/com/example/myapplication/ui/main/MainViewModel.kt:105-111 | a new copy exists exactly when the list is published and holds the id; it is the toggled copy of the first published note with that id |
| Feed.UnseenConcat | app/src/main/java/com/example/myapplication/ui/main/MainViewModel.kt:84-86 | the filter distributes over concatenation, so fetched order is kept |
| Feed.UnseenAllNew | app/src/main/java/com/example/myapplication/ui/main/MainViewModel.kt:84-86 | a batch of only new ids is appended whole |
| Feed.CarriedLikesNeverAppended | app/src/main/java/com/example/myapplication/ui/main/MainViewModel.kt:71-86 | the carried-forward like state never reaches the result, because every note it touches is then filtered out |
| Feed.UnseenDistinct | app/src/main/java/com/example/myapplication/ui/main/MainViewModel.kt:84-86 | filtering keeps a batch's ids distinct |
| Feed.AppendUnseenDistinct | app/src/main/java/com/example/myapplication/ui/main/MainViewModel.kt:84-89 | distinct held ids plus a batch with distinct ids give a list with distinct ids |
| Feed.BatchDuplicatesKept | app/src/main/java/com/example/myapplication/ui/main/MainViewModel.kt:84-89 | a duplicate inside one batch is appended twice, so distinct ids need a distinct batch |
| Feed.ToggleFirstTwice | app/src/main/java/com/example/myapplication/ui/main/MainViewModel.kt:103-121 | toggling the same id twice restores the published list |
| Feed.ToggleFirstShape | app/src/main/java/com/example/myapplication/ui/main/MainViewModel.kt:103-121 | same length and ids; only the first match changes, to its toggled copy; an absent id changes nothing |
| Feed.MainViewModel.constructor | app/src/main/java/com/example/myapplication/ui/main/MainViewModel.kt:16-36 | page 1, nothing held or published, more data expected, no load in flight |
| Feed.MainViewModel.LoadFirstPage | app/src/main/java/com/example/myapplication/ui/main/MainViewModel.kt:38-56 | page reset to 1 in both outcomes; on success both lists are the batch and `hasMoreData` is whether the batch is a full page; on failure lists and `hasMoreData` are kept; `isLoading` ends false |
| Feed.MainViewModel.BeginLoadMore | app/src/main/java/com/example/myapplication/ui/main/MainViewModel.kt:60-63 | goes ahead exactly when more data is expected and no load is in flight, and then marks one in flight |
| Feed.MainViewModel.CompleteLoadMore | app/src/main/java/com/example/myapplication/ui/main/MainViewModel.kt:64-99 | page + 1 in both outcomes; on success the held list is the old one plus the unseen part of the batch, republished only when that part is non-empty, and distinct ids are preserved; on failure lists and flags are kept; `isLoadingMore` ends false |
| Feed.MainViewModel.LoadMore | app/src/main/java/com/example/myapplication/ui/main/MainViewModel.kt:58-101 | a complete no-op when the guard refuses; otherwise the effect of CompleteLoadMore |
| Feed.MainViewModel.ToggleLike | app/src/main/java/com/example/myapplication/ui/main/MainViewModel.kt:103-121 | the published list becomes ToggleFirst of it, and the same toggled copy replaces the first held note with that id; nothing changes when the id is not published |
| Feed.MainViewModel.UpdateNote | app/src/main/java/com/example/myapplication/ui/main/MainViewModel.kt:123-127 | every published note with the id is replaced; an unset list stays unset; `localNotes` is untouched |
| Feed.ToggleLikeTwice | app/src/main/java/com/example/myapplication/ui/main/MainViewModel.kt:103-121 | two toggles restore the published list; the held list's first match becomes the published copy, so it is restored only when the two lists agreed |
| Feed.UpdateLostOnAppend | app/src/main/java/com/example/myapplication/ui/main/MainViewModel.kt:87-89 | an update from the detail screen is discarded by the next appending loadMore, which republishes the held list |
| Detail.IsWhitespace | app/src/main/java/com/example/myapplication/ui/detail/NoteDetailActivity.kt:220 | defines Kotlin's `Char.isWhitespace`: the code points 9-13, 28-32, U+00A0, U+1680, U+2000-U+200A, U+2028, U+2029, U+202F, U+205F and U+3000 |
| Detail.IsBlank | app/src/main/java/com/example/myapplication/ui/detail/NoteDetailActivity.kt:72 | defines `isBlank()`: every character is whitespace, so the empty string is blank |
| Detail.TrimStartIndex | app/src/main/java/com/example/myapplication/ui/detail/NoteDetailActivity.kt:220 | the start index trim settles on: everything it skips is whitespace and it stops at the first non-whitespace char or the end |
| Detail.TrimEndIndex | app/src/main/java/com/example/myapplication/ui/detail/NoteDetailActivity.kt:220 | the end index trim settles on, never below the start: everything it skips is whitespace and it stops after a non-whitespace char or at the start |
| Detail.Trim | app/src/main/java/com/example/myapplication/ui/detail/NoteDetailActivity.kt:220-221 | empty exactly when the text is blank; otherwise a contiguous piece of it with only whitespace before and after it, which starts and ends with a non-whitespace char |
| Detail.NonBlank | app/src/main/java/com/example/myapplication/ui/detail/NoteDetailActivity.kt:72 | no longer than the list, and no kept image is blank |
| Detail.NonBlankMembership | app/src/main/java/com/example/myapplication/ui/detail/NoteDetailActivity.kt:72 | an image is kept exactly when it is in the list and not blank |
| Detail.GalleryImages | app/src/main/java/com/example/myapplication/ui/detail/NoteDetailActivity.kt:70-73 | the cover comes first, followed by the note's non-blank images in their order and multiplicity (`NonBlank` of the image list); only non-blank images follow the cover, exactly those of the note's list; no image list means the cover alone |
| Detail.NonBlankConcat | app/src/main/java/com/example/myapplication/ui/detail/NoteDetailActivity.kt:72 | the image filter keeps order: it distributes over concatenation |
| Detail.NonBlankKeepsAll | app/src/main/java/com/example/myapplication/ui/detail/NoteDetailActivity.kt:72 | a list with no blank image is shown whole |
| Detail.Unknown | app/src/main/java/com/example/myapplication/ui/detail/NoteDetailActivity.kt:309-313 | the local comments the server does not know, no more of them than there are local comments |
| Detail.UnknownMembership | app/src/main/java/com/example/myapplication/ui/detail/NoteDetailActivity.kt:310-313 | a comment is kept exactly when it is local and its id is not a server id |
| Detail.MergedComments | app/src/main/java/com/example/myapplication/ui/detail/NoteDetailActivity.kt:306-316 | length is the server count plus the unknown local count; the server list is the suffix in its own order |
| Detail.MergedCommentsOrder | app/src/main/java/com/example/myapplication/ui/detail/NoteDetailActivity.kt:310-313 | the unknown local comments come first, in reverse local order |
| Detail.MergedCommentsMembership | app/src/main/java/com/example/myapplication/ui/detail/NoteDetailActivity.kt:308-313 | a comment is in the merged list exactly when the server sent it or it is local with an id the server does not know, so the server copy wins a collision |
| Detail.MergedCommentsStep | app/src/main/java/com/example/myapplication/ui/detail/NoteDetailActivity.kt:310-314 | one step of the scan: the next local comment goes in front unless the server knows its id |
| Detail.UnknownCons | app/src/main/java/com/example/myapplication/ui/detail/NoteDetailActivity.kt:241 | a comment put in front of the local list is the first unknown one, if the server does not know it |
| Detail.SentCommentPosition | app/src/main/java/com/example/myapplication/ui/detail/NoteDetailActivity.kt:241-259 | a new comment whose id is not a server id lands right before the server comments, after the older local ones |
| Detail.TopLevel | app/src/main/java/com/example/myapplication/ui/detail/NoteDetailActivity.kt:321 | no longer than the list, and every kept comment has no parent |
| Detail.TopLevelMembership | app/src/main/java/com/example/myapplication/ui/detail/NoteDetailActivity.kt:321 | a comment is kept exactly when it is in the list and has no parent |
| Detail.RepliesTo | app/src/main/java/com/example/myapplication/ui/detail/NoteDetailActivity.kt:323-325 | no longer than the list, and every kept comment names the given parent |
| Detail.RepliesToMembership | app/src/main/java/com/example/myapplication/ui/detail/NoteDetailActivity.kt:323-325 | a comment is kept exactly when it is in the list and its parent is the given id |
| Detail.GroupRepliesByParent | app/src/main/java/com/example/myapplication/ui/detail/NoteDetailActivity.kt:323-325 | a parent id is a key exactly when it has replies, and it maps to them in list order |
| Detail.Blocks | app/src/main/java/com/example/myapplication/ui/detail/NoteDetailActivity.kt:327-331 | defines the result of the `forEach` over the parents: each parent followed by the replies naming its id; its properties are in `BlocksTopLevel`, `BlocksReplies` and `BlocksLength` |
| Detail.DisplayOrder | app/src/main/java/com/example/myapplication/ui/detail/NoteDetailActivity.kt:318-333 | defines the list buildDisplayComments returns for a merged list: `Blocks` of its top-level comments; its properties are in the `Display…` lemmas |
| Detail.TopLevelConcat | app/src/main/java/com/example/myapplication/ui/detail/NoteDetailActivity.kt:321 | the top-level filter distributes over concatenation |
| Detail.RepliesToConcat | app/src/main/java/com/example/myapplication/ui/detail/NoteDetailActivity.kt:323-325 | the reply filter distributes over concatenation |
| Detail.TopLevelOfReplies | app/src/main/java/com/example/myapplication/ui/detail/NoteDetailActivity.kt:321-325 | no reply is top-level |
| Detail.BlocksTopLevel | app/src/main/java/com/example/myapplication/ui/detail/NoteDetailActivity.kt:327-331 | the top-level comments of the built list are the parents, in order |
| Detail.DisplayTopLevel | app/src/main/java/com/example/myapplication/ui/detail/NoteDetailActivity.kt:318-333 | keeping only the parentless comments of the display list gives the merged list's top-level comments in the same order |
| Detail.DisplayMembership | app/src/main/java/com/example/myapplication/ui/detail/NoteDetailActivity.kt:318-333 | a comment is displayed exactly when it is in the merged list and is top-level or replies to a top-level comment; orphan replies are dropped |
| Detail.BlocksReplies | app/src/main/java/com/example/myapplication/ui/detail/NoteDetailActivity.kt:327-331 | with distinct parent ids, the replies to a parent in the built list are its replies in the merged list, and there are none for a non-parent |
| Detail.DisplayRepliesOrder | app/src/main/java/com/example/myapplication/ui/detail/NoteDetailActivity.kt:318-333 | with distinct top-level ids, the displayed replies to a top-level comment are its replies in merged order, and orphans have none |
| Detail.DisplayLength | app/src/main/java/com/example/myapplication/ui/detail/NoteDetailActivity.kt:318-333 | with distinct top-level ids, the display length is the top-level count plus the number of replies to them, at most the merged length |
| Detail.DuplicateParentIdsRepeatReplies | app/src/main/java/com/example/myapplication/ui/detail/NoteDetailActivity.kt:328-331 | two top-level comments sharing an id both receive the reply, so the distinct-id condition is needed |
| Detail.NewLocalComment | app/src/main/java/com/example/myapplication/ui/detail/NoteDetailActivity.kt:227-239 | id is the negated clock, negative for any positive time; the content is the given text; parent and reply-to name come from the reply target; no likes, no replies |
| Detail.NoteDetailActivity.constructor | app/src/main/java/com/example/myapplication/ui/detail/NoteDetailActivity.kt:39-73 | the opened note, the gallery list, and empty comment lists with no reply target |
| Detail.NoteDetailActivity.BuildAllComments | app/src/main/java/com/example/myapplication/ui/detail/NoteDetailActivity.kt:306-316 | the loop returns MergedComments of the local and server lists |
| Detail.NoteDetailActivity.BuildDisplayComments | app/src/main/java/com/example/myapplication/ui/detail/NoteDetailActivity.kt:318-333 | the loop returns DisplayOrder of the merged list |
| Detail.NoteDetailActivity.ToggleLike | app/src/main/java/com/example/myapplication/ui/detail/NoteDetailActivity.kt:262-266 | the current note becomes its toggled copy |
| Detail.NoteDetailActivity.OnReplyClick | app/src/main/java/com/example/myapplication/ui/detail/NoteDetailActivity.kt:98-103 | the tapped comment becomes the reply target |
| Detail.NoteDetailActivity.OnLikeClick | app/src/main/java/com/example/myapplication/ui/detail/NoteDetailActivity.kt:84-96 | the first comment with the updated id is replaced in the displayed list and in the local list; other indexes and lengths are kept; a list without the id is unchanged |
| Detail.NoteDetailActivity.SendComment | app/src/main/java/com/example/myapplication/ui/detail/NoteDetailActivity.kt:219-254 | blank text changes nothing; otherwise the new comment becomes element 0 of the local list, the reply target is cleared and the display list is rebuilt |
| Detail.NoteDetailActivity.LoadComments | app/src/main/java/com/example/myapplication/ui/detail/NoteDetailActivity.kt:276-298 | success replaces the server list, failure keeps it; the display list is rebuilt in both outcomes |
| Detail.LikeCommentTwice | app/src/main/java/com/example/myapplication/ui/detail/NoteDetailActivity.kt:84-96 | liking a displayed comment twice through the callback restores the displayed list |
| Home.LatestNote | app/src/main/java/com/example/myapplication/ui/home/HomeFragment.kt:155 | same id as the tapped note; the first published note with that id when there is one, otherwise the tapped note |
| Home.LatestAfterToggle | app/src/main/java/com/example/myapplication/ui/home/HomeFragment.kt:151-155 | after a like in the feed, opening the note gives its toggled copy |
| Home.IsDoubleTap | app/src/main/java/com/example/myapplication/ui/home/HomeFragment.kt:103 | defines the double-tap test: the new tap comes less than `DoubleTabTimeOut` (300 ms) after the remembered one |
| Home.HomeFragment.constructor | app/src/main/java/com/example/myapplication/ui/home/HomeFragment.kt:30-53 | the saved layout choice, and no remembered tap |
| Home.HomeFragment.SetupLayoutManager | app/src/main/java/com/example/myapplication/ui/home/HomeFragment.kt:114-115 | the layout flag flips |
| Home.HomeFragment.HandleTabClick | app/src/main/java/com/example/myapplication/ui/home/HomeFragment.kt:98-112 | tab 0 within 300 ms of the remembered time flips the layout and clears the time; any other tab-0 tap remembers its time; tab 1 has the effect of a first-page load; other tabs change nothing; only tab 1 reaches the controller |
| Home.HomeFragment.OnScrolled | app/src/main/java/com/example/myapplication/ui/home/HomeFragment.kt:170-179 | a load is requested exactly when scrolling down at the end with more data expected and none loading; the controller's own guard then always passes, so the page advances, `isLoadingMore` ends false, `isLoading` is kept, and on success the unseen notes are appended, `notes` is republished only when some were appended and `hasMoreData` follows the batch size, while a failure keeps the lists and `hasMoreData`; without a request the controller is untouched |
| Home.HomeFragment.OnNoteClick | app/src/main/java/com/example/myapplication/ui/home/HomeFragment.kt:154-160 | the note sent to the detail screen is LatestNote of the published list |
| Home.HomeFragment.OnDetailResult | app/src/main/java/com/example/myapplication/ui/home/HomeFragment.kt:183-191 | an OK result with a note replaces every published note with its id; any other result changes nothing |
| Home.FlipTwice | app/src/main/java/com/example/myapplication/ui/home/HomeFragment.kt:115 | two layout flips restore the layout |
| Home.TripleTapFlipsOnce | app/src/main/java/com/example/myapplication/ui/home/HomeFragment.kt:102-108 | three quick taps flip the layout once, because the double tap clears the remembered time |
| Home.LikeOnDetailScreen | app/src/main/java/com/example/myapplication/ui/home/HomeFragment.kt:154-191 | opening a published note, liking it on the detail screen and returning puts its toggled copy at every published index with its id |

## Left out

- The Android UI, not modelled because it is rendering with no state of its own beyond the toggles above. This covers:
  - view binding, adapters, view holders and layout manager objects;
  - the image pager and its indicators, Glide image loading and toasts;
  - hints, focus and input visibility;
  - the text-syncing watchers;
  - the comment count text;
  - the in-place toggles inside the feed list's adapter.
- The touch listener at NoteDetailActivity.kt:207-215 is not modelled. Besides hiding the expanded input, it sets `replyToComment` to null when that input is visible, so the model does not capture a reply target being cleared by touching the page.
- Feed.MainViewModel.constructor: `isLoading` starts as `false`, while the Kotlin `_isLoading` holds no value until the first `loadFirstPage`. No modelled operation reads it before then.
- `HomeFragment` keeps only the layout flag. The layout manager object it installs is not modelled, and neither is the list it re-submits to the adapter.
- Networking: the feed and comment repositories and the HTTP service. A fetch is a `FetchResult` parameter. The page number never reaches the request.
- Coroutines, `delay` and LiveData dispatch. Each operation is one sequential step. `loadMore` is also given as separate guard and completion steps. Interleavings of overlapping coroutines are not modelled.
- Persistence: the writes to shared preferences in `saveCommentsToLocal`, and the saved layout preference, which is a constructor parameter.
- The comment cache calls `addCommentToCache` and `addLocalCommentToCache`. Their definitions are not part of this model.
- The clock: `System.currentTimeMillis()` is the `now` parameter of `SendComment` and `HandleTabClick`.
- The superseded root-package files (`MainActivity.kt`, `NoteAdapter.kt`, `NoteModel.kt`, `ApiService.kt`) and the splash screens.
- Model.ToggledNote: likes are unbounded integers, so the 32-bit wrap-around of Kotlin's `Int` at the largest like count is not modelled.
- Model.ToggledComment: likes are unbounded integers, as for notes.
- Detail.NewLocalComment: the id is an unbounded integer. The width of the Kotlin id field for these comments is not part of this model, and no truncation of the negated clock is modelled.
- Detail.IsWhitespace is stated on Unicode scalar values, while Kotlin's `Char.isWhitespace` works on UTF-16 units. No whitespace character lies outside the Basic Multilingual Plane, so `IsWhitespace`, `IsBlank` and `Trim` agree with Kotlin's UTF-16 versions.
