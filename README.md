# kairo-blog: the logic under the blog and its admin

kairo-blog is a Next.js blog with an admin area, backed by Supabase. This Dafny project models
the logic that sits under its pages and service calls. The database is replaced by in-memory
tables, and what a database call returns (an error, a rejected write) is passed in as a parameter.

- **Reactions** (`engagement.dfy`). The `post_likes` table is a class whose map field is keyed
  by (post, user). A visitor therefore holds at most one reaction per post.
  - `toggleLike` is a method whose postconditions give the new table exactly: insert, flip or
    retract.
  - The like and dislike counts are a function of the table. `getLikeStats` is a loop proved
    against that function.
- **Slugs** (`slug.dfy`). `generateSlug` is shared by the post editor and the tag dialog.
  Proved about it: the output alphabet, no leading, trailing or doubled dash, idempotence, and
  exactly when the slug is empty.
- **Post editor** (`post_editor.dfy`): the title handler, the tag toggle, the SEO score and the
  record written on save.
- **Tag dialog** (`tag_dialog.dfy`): the schema, the reset on open and the automatic slug.
- **Admin data table** (`data_table.dfy`): the page count, the displayed range, the page
  buttons, the prev/next enabling, the empty-row span and the dotted-path cell lookup.
- **Post service** (`post_service.dfy`).
  - `getAll`: the default arguments, the page window, the filters and the null fallbacks.
  - `create` and `update`: the posts table and its `post_tags` links, held in one class.
- **Lists and figures**:
  - the tag filter of the blog grid (`posts_grid.dfy`);
  - the dashboard counts (`dashboard.dfy`);
  - the comment form (`comment_section.dfy`);
  - the home page's card list (`post_list.dfy`);
  - the storage service's path handling (`storage.dfy`);
  - the sidebar's active item (`sidebar.dfy`).
- **Shared modules**:
  - `wrappers.dfy`: `Option`/`Result`;
  - `database.dfy`: the database error and its codes;
  - `strings.dfy`: JavaScript `split(c).pop()`, `trim`, `startsWith`;
  - `seqs.dfy`: `filter` and subsequences.

A failed read in `getUserLike` or `getLikeStats` does not reach the caller. The code answers
`{ likeType: null }` and `{ likes: 0, dislikes: 0 }` instead (services/engagement-service.ts:39-42,
67-70), and the model does the same.

## Model

| member | source | states |
|---|---|---|
| Engagement.WithReaction | services/engagement-service.ts:97-126 | Writing one (post, user) entry sets that entry's reaction and keeps every other key and value as it was. |
| Engagement.LikeTable.ToggleLike | services/engagement-service.ts:80-129 | Same reaction again: the row is deleted. Other reaction: the row is updated and the table does not grow. No row: exactly one row with the requested type is inserted. A read error other than PGRST116 is returned and nothing is written. A rejected write changes nothing. On success, only this key changes, following the none/like/dislike state machine. |
| Engagement.LikeTable.GetLikeStats | services/engagement-service.ts:33-54 | The fold's like count is the number of the post's rows holding "like", and likewise for dislikes. A failed query gives {0, 0}. |
| Engagement.LikeTable.GetUserLike | services/engagement-service.ts:59-73 | Returns the caller's reaction. Returns null when there is no row or the query failed. |
| Engagement.StatsPartitionRows | services/engagement-service.ts:44-53 | No row counts as both a like and a dislike. likes + dislikes equals the number of the post's rows. |
| Engagement.CountAfterWrite | services/engagement-service.ts:97-126 | A write to one key changes a count by the row it removes and the row it adds, and by nothing else. |
| Engagement.ToggleKeepsOtherPostStats | services/engagement-service.ts:99-103 | A toggle on one post leaves every other post's counts unchanged. |
| Engagement.LikeThenDislikeStats | services/engagement-service.ts:109-126 | From no reaction, like then dislike ends with the dislike recorded, one more dislike, and the likes as before. |
| Engagement.ToggleTwiceRestores | services/engagement-service.ts:97-126 | Toggling the same type twice restores the earlier state exactly when that state was not the other reaction. From none it returns to none. |
| Engagement.LikeThenDislikeEndsDisliked | services/engagement-service.ts:97-119 | Like followed by dislike ends in dislike from any state. |
| Slug.LowerIdempotent | app/admin/components/PostEditor.tsx:132 | toLowerCase applied twice gives the same text as once. |
| Slug.LowerKeepsSlugAlphabet | app/admin/components/PostEditor.tsx:132 | toLowerCase leaves text made of [a-z0-9-] unchanged. |
| Slug.ReplaceCharRemovesAll | app/admin/components/PostEditor.tsx:135-136 | replace(/x/g, y) with y different from x leaves no x behind, and changes nothing when there is no x. |
| Slug.GenerateSlug | app/admin/components/PostEditor.tsx:130-139 | The pipeline lowercase, strip marks, replace đ/Đ, collapse runs outside [a-z0-9], trim one dash at each end. Its output is proved a well-formed slug (GenerateSlugIsSlug), idempotent (GenerateSlugIdempotent) and empty exactly for letterless titles (EmptySlugIffNoLetters). |
| Slug.StripMarks | app/admin/components/PostEditor.tsx:133-134 | Drops every character from U+0300 to U+036F and keeps the rest in order. After lowercasing it leaves no Đ (CapitalDReplacementUnreachable). |
| Slug.Collapse | app/admin/components/PostEditor.tsx:137 | Replaces each maximal run outside [a-z0-9] by one dash. Its shape and letters are proved by CollapseSpec; it is the identity on well-formed slugs (CollapseKeepsSlug). |
| Slug.TrimDashes | app/admin/components/PostEditor.tsx:138 | Drops one leading and one trailing dash. On collapsed text it yields a well-formed slug with the same letters (TrimCollapsedIsSlug). |
| Slug.CollapseSpec | app/admin/components/PostEditor.tsx:137 | Each run outside [a-z0-9] becomes one dash. The output holds only [a-z0-9-], never "--", starts with a dash exactly when the input starts outside [a-z0-9], and keeps the letters and digits in order. |
| Slug.DropSeparatorsSpec | app/admin/components/PostEditor.tsx:137 | Dropping a leading run of separators leaves a suffix that starts with a letter or digit and keeps the letters and digits. |
| Slug.TrimCollapsedIsSlug | app/admin/components/PostEditor.tsx:138 | Removing one leading and one trailing dash from collapsed text gives a well-formed slug with the same letters and digits. |
| Slug.GenerateSlugIsSlug | app/admin/components/PostEditor.tsx:130-139 | generateSlug outputs only [a-z0-9-], with no leading, trailing or doubled dash. |
| Slug.SlugIsFixedPoint | app/admin/components/PostEditor.tsx:130-139 | A well-formed slug passes through generateSlug unchanged. |
| Slug.GenerateSlugIdempotent | app/admin/components/PostEditor.tsx:130-139 | generateSlug(generateSlug(t)) == generateSlug(t). |
| Slug.EmptySlugIffNoLetters | app/admin/components/TagDialog.tsx:68-77 | The slug is empty exactly when the name has no letter, digit or đ. |
| Slug.CapitalDReplacementUnreachable | app/admin/components/PostEditor.tsx:132-136 | After lowercasing, the replace(/Đ/g, "D") step never changes anything. |
| PostEditor.HandleTitleChange | app/admin/components/PostEditor.tsx:141-154 | A vi title sets the title and slug = generateSlug(title), a well-formed slug. An en title sets only title_en. No other field changes. |
| PostEditor.EnglishTitleKeepsSlug | app/admin/components/PostEditor.tsx:148-153 | Editing the en title leaves the slug and the vi title unchanged. |
| PostEditor.SaveRecord | app/admin/components/PostEditor.tsx:159-174 | Publishing stores published = true. Otherwise the form's flag is stored. Every other field is copied from the form. |
| PostEditor.SaveNeverUnpublishes | app/admin/components/PostEditor.tsx:167 | A published post stays published whichever save button is used. |
| PostEditor.ToggleTag | app/admin/components/PostEditor.tsx:208-214 | A selected id is removed, keeping the order and membership of the other ids. An unselected id is appended at the end. |
| PostEditor.ToggleTagTwice | app/admin/components/PostEditor.tsx:208-214 | Toggling twice restores membership. For an id that was absent it restores the exact list. |
| PostEditor.SeoScore | app/admin/components/PostEditor.tsx:216-223 | The score is 25 × the number of criteria met, so it is one of 0, 25, 50, 75, 100. og_image or featured_image meets the image criterion. |
| PostEditor.MetCriteriaRange | app/admin/components/PostEditor.tsx:216-223 | At most four criteria are met. All four are met exactly when every criterion holds, none exactly when no criterion holds, so the score is 100 or 0 in exactly those cases. |
| TagDialog.SchemaErrors | app/admin/components/TagDialog.tsx:9-13 | name and slug each get their own message exactly when empty. |
| TagDialog.SchemaAcceptsIffNonEmpty | app/admin/components/TagDialog.tsx:9-13 | The schema accepts exactly the forms with a non-empty name and slug. |
| TagDialog.OnOpen | app/admin/components/TagDialog.tsx:53-66 | Opening on a tag pre-fills its id, name and slug. Opening for a new tag resets name and slug to "". A closed dialog keeps its values. |
| TagDialog.AutoSlug | app/admin/components/TagDialog.tsx:79-85 | Only for a new tag with a non-empty name does the slug become generateSlug(name), a well-formed slug. Otherwise nothing changes. |
| TagDialog.LetterlessNameRejected | app/admin/components/TagDialog.tsx:68-85 | For a new tag, the generated slug is rejected by the schema exactly when the name has no letter or digit. |
| DataTable.TotalPages | app/admin/components/DataTable.tsx:37-39 | With pagination, the result is the least page count that holds all rows (Math.ceil). Without pagination it is 1. |
| DataTable.ControlsIffMoreThanOnePage | app/admin/components/DataTable.tsx:113 | The controls appear exactly when total > pageSize. |
| DataTable.DisplayedRangeBounds | app/admin/components/DataTable.tsx:116-117 | The range never ends past total. On an existing page it is non-empty and at most one page long. |
| DataTable.PageButtons | app/admin/components/DataTable.tsx:129-159 | The buttons are exactly 1..min(5, totalPages), then totalPages when it exceeds 5. They are strictly increasing and in range. |
| DataTable.NavigationStaysInRange | app/admin/components/DataTable.tsx:122-123 | From an existing page, an enabled prev or next button leads to an existing page. |
| DataTable.EmptyRowSpan | app/admin/components/DataTable.tsx:75 | The empty-data cell spans the whole header row: the columns plus the actions cell. |
| DataTable.GetValue | app/admin/components/DataTable.tsx:41-48 | The loop returns the walk of the '.'-separated segments of the key, in order. |
| DataTable.WalkAppend | app/admin/components/DataTable.tsx:44-46 | Walking a path in two parts equals walking the whole path. |
| DataTable.SingleSegmentIsFieldRead | app/admin/components/DataTable.tsx:42-46 | A key without '.' is a plain field read. |
| DataTable.MissingIntermediateIsUndefined | app/admin/components/DataTable.tsx:45 | Once an intermediate value is undefined or null, the result is undefined. |
| PostService.Resolve | services/post-service.ts:39-49 | An absent argument becomes page 1, pageSize 10, search "" or status "all". A given one is kept. |
| PostService.PagesAreAdjacent | services/post-service.ts:54 | A page's inclusive range holds pageSize indices, and the next page starts right after it. |
| PostService.PagesAreDisjoint | services/post-service.ts:54 | Two different pages of a positive size share no index. |
| PostService.FirstPagesArePrefix | services/post-service.ts:54 | Pages 1..n read in order are exactly the first n × pageSize rows. |
| PostService.QueryOf | services/post-service.ts:50-65 | The range is that of the requested page. The title filter is present exactly for a non-empty search. published is filtered to true for "published", to false for "draft", and not at all for "all". |
| PostService.BuildQuery | services/post-service.ts:50-65 | Building the query step by step, filter by filter, gives exactly QueryOf(args). |
| PostService.Unwrap | services/post-service.ts:67-73 | An error is thrown. Otherwise null data gives [] and a null count gives 0. |
| PostService.GetAll | services/post-service.ts:39-74 | Fails exactly when the query fails, with that error. Otherwise the posts are exactly the requested page window of the rows passing the filters, and the total is the number of all rows passing them. Hence: at most pageSize rows, each matching the status and search and taken from the table, and the whole table counted when nothing is filtered. |
| PostService.WindowOfMatching | services/post-service.ts:54-65 | Every row of the returned window passes the filters and comes from the table. |
| PostService.SplitId | services/post-service.ts:112 | The update payload is the post without its id. Adding the id back gives the post. |
| PostService.TagIdsOfPostTagRows | services/post-service.ts:97-101 | The rows built for a post link it to exactly the given tag ids, in order, and link no other post. |
| PostService.TagIdsOfWithoutPost | services/post-service.ts:122 | Deleting a post's links removes all of its tags and keeps every other post's. |
| PostService.PostStore.Create | services/post-service.ts:87-109 | A failed insert changes nothing. Then one link per tag id is added, none for no ids. A failed link insert is reported with the post already stored. |
| PostService.PostStore.Update | services/post-service.ts:111-131 | Every column but id is written into the post with that id. Links are replaced only when tag ids are given. The two link writes are not checked. |
| PostService.ReplacedTags | services/post-service.ts:120-130 | After a replacement the post is linked to exactly the given tags, and other posts keep theirs. |
| PostService.CreatedTags | services/post-service.ts:97-106 | After create, the new post is linked to exactly the given tags. |
| PostsGrid.FilteredPosts | components/blog/PostsGrid.tsx:18-22 | With no selection, every post. With a selection, exactly the posts carrying that tag id. Either way the original order is kept. |
| PostsGrid.NotFoundIffNoPostHasTag | components/blog/PostsGrid.tsx:42 | With a selection, the panel shows exactly when no post carries the tag. Without one, exactly when there are no posts. |
| Dashboard.CountsPartitionPosts | app/admin/components/DashboardContent.tsx:41-42 | publishedCount + draftCount is the number of posts, and 0 when there are none. |
| Dashboard.TotalViews | app/admin/components/DashboardContent.tsx:43-44 | Missing posts give 0 views. |
| Dashboard.SumViewsAppend | app/admin/components/DashboardContent.tsx:44 | The view total of two lists is the sum of their totals. |
| Dashboard.MissingViewCountAddsNothing | app/admin/components/DashboardContent.tsx:44 | A post without view_count adds 0. |
| Dashboard.TotalViewsBoundsEachPost | app/admin/components/DashboardContent.tsx:43-44 | With non-negative counts, the total is at least any single post's views. |
| Dashboard.DisplayedTotalPosts | app/admin/components/DashboardContent.tsx:99 | A missing total is shown as 0. |
| CommentSection.FormErrors | components/blog/CommentSection.tsx:41-50 | Each blank field gets its own key and message, and no other key is produced. |
| CommentSection.ValidIffBothFilled | components/blog/CommentSection.tsx:41-54 | The form is valid exactly when neither field is all whitespace. |
| CommentSection.SubmittedCommentIsTrimmed | components/blog/CommentSection.tsx:63-67 | The comment from a valid form carries the post id. Its name and content are non-empty and hold no outer whitespace. |
| CommentSection.CommentForm.ValidateForm | components/blog/CommentSection.tsx:41-54 | The shown errors become the form's errors. The result is valid exactly when there are none. |
| CommentSection.CommentForm.HandleSubmit | components/blog/CommentSection.tsx:56-79 | An invalid form submits nothing. A valid one submits the trimmed comment. Success clears the fields and errors. Failure keeps the fields and shows only the submit error. |
| PostList.TransformPost | components/home/PostList.tsx:20-39 | Uses the vi content when present, else en, else no card. The tag names, image and slug are carried over. |
| PostList.ImageUrl | components/home/PostList.tsx:34-36 | A missing or empty thumbnail gives the default image. |
| PostList.TagNames | components/home/PostList.tsx:33 | The card's tags are the post's tag names in order, or [] without tags. |
| PostList.FormattedAppend | components/home/PostList.tsx:41-46 | Formatting a list in two parts is formatting each part. |
| PostList.FormattedKeepsEveryPost | components/home/PostList.tsx:41-46 | When every post has content, each card is its post's card, at the same position. |
| PostList.ContentlessPostsDropped | components/home/PostList.tsx:21-22 | Posts without content produce no card. |
| PostList.FeaturedThenRegular | components/home/PostList.tsx:48-49 | The featured card followed by the regular cards is the formatted list. |
| PostList.LoadMoreCountsReceivedPosts | components/home/PostList.tsx:84 | More than 7 received posts show "load more" and not the empty message, even when no post has content. |
| Storage.Extension | services/storage-service.ts:7 | The extension is the text after the last '.', or the whole name when there is no '.'. |
| Storage.GeneratedPathKeepsExtension | services/storage-service.ts:8 | A generated path keeps the file's extension, starts with the token, and for tags starts with "tag-". |
| Storage.DeleteTarget | services/storage-service.ts:46-49 | The target is the text after the last '/'. None (nothing removed) exactly when the path is empty or ends in '/'. |
| Storage.DeleteTargetOfPublicUrl | services/storage-service.ts:59-64 | A public URL ending in a generated name yields that name as the object to remove. |
| Sidebar.ActiveRules | app/admin/components/Sidebar.tsx:98-100 | An item is active on its own path. "/admin" is active only there. Any other item is active exactly on paths starting with its href. |
| Sidebar.PrefixIsCharacterBased | app/admin/components/Sidebar.tsx:100 | "/admin/postsX" activates "/admin/posts". |
| Sidebar.SubRouteHighlightsSection | app/admin/components/Sidebar.tsx:98-100 | "/admin/posts/new" activates the posts item, and neither the dashboard nor the tags item. |
| Sidebar.ExactlyOneItemForEachSection | app/admin/components/Sidebar.tsx:17-43 | On each item's own page, exactly that item is active. |
| Strings.AfterLastIsFinalSegment | services/storage-service.ts:47 | split(c).pop() is the suffix after the last c, free of c. It is all of the string when there is no c. |
| Strings.TrimRemovesOnlyOuterWhitespace | components/blog/CommentSection.tsx:44-48 | trim removes only whitespace, only at the two ends. |
| Strings.TrimEmptyIffBlank | components/blog/CommentSection.tsx:44-48 | trim gives "" exactly for all-whitespace text. |
| Strings.TrimIdempotent | components/blog/CommentSection.tsx:44-48 | Trimming trimmed text changes nothing. |
| Strings.Split | services/storage-service.ts:47 | split(c) gives at least one part, no part holds c, there is exactly one part when the text holds no c, and joining the parts with c gives the text back. |
| Strings.AfterLastOfJoined | services/storage-service.ts:47 | Whatever precedes the last c, split(c).pop() is the text after it. |
| PostService.DefaultArguments | services/post-service.ts:39-44 | getAll({}) asks for page 1 of 10 rows, every status, no search. |
| PostService.Filtered | services/post-service.ts:50-65 | The rows the query counts are rows of the table that pass the filters, and every table row passing them is among them. |
| Slug.CollapseKeepsSlug | app/admin/components/PostEditor.tsx:137 | Text of [a-z0-9-] without doubled dash or leading dash is left as it is by the run collapse. |
| Slug.LetterReachesPlain | app/admin/components/PostEditor.tsx:132-136 | A letter, digit or đ of the title leaves a letter or digit after lowercasing, mark stripping and the đ replacement. |
| Slug.NoLetterReachesPlain | app/admin/components/PostEditor.tsx:132-136 | A title without letters, digits or đ keeps none after those steps. |
| Dashboard.SumViewsNonNegative | app/admin/components/DashboardContent.tsx:43-44 | With non-negative view counts the total is non-negative. |
| Sidebar.IsActive | app/admin/components/Sidebar.tsx:98-100 | The item is active on its own path, and any item other than "/admin" also on every path starting with its href. Its cases are proved by ActiveRules. |
| Dashboard.PublishedCount | app/admin/components/DashboardContent.tsx:41 | The number of published posts, 0 for a missing list. With DraftCount it partitions the posts (CountsPartitionPosts). |
| Dashboard.DraftCount | app/admin/components/DashboardContent.tsx:42 | The number of unpublished posts, 0 for a missing list. |
| Dashboard.SumViews | app/admin/components/DashboardContent.tsx:43-44 | The sum of view_count over the posts, a missing count adding 0. It splits over concatenation (SumViewsAppend). |
| PostList.FormattedPosts | components/home/PostList.tsx:41-46 | The cards of the posts with content, in order, at most one per post. |
| PostList.Featured | components/home/PostList.tsx:48 | formattedPosts[0]: the first card, if there is one. |
| PostList.Regular | components/home/PostList.tsx:49 | formattedPosts.slice(1): every card after the first. With Featured it rebuilds the list (FeaturedThenRegular). |
| PostList.ShowsEmptyMessage | components/home/PostList.tsx:9 | The empty message shows for a missing or empty list of received posts. |
| PostList.ShowsLoadMore | components/home/PostList.tsx:84 | The load-more button shows for more than 7 received posts. |
| DataTable.DisplayedRange | app/admin/components/DataTable.tsx:116-117 | The "showing first - last" numbers. Their bounds are proved by DisplayedRangeBounds. |
| DataTable.ShowsControls | app/admin/components/DataTable.tsx:113 | Controls show with pagination and more than one page, that is exactly when total > pageSize (ControlsIffMoreThanOnePage). |
| DataTable.PrevDisabled | app/admin/components/DataTable.tsx:123 | The previous button is disabled on page 1. |
| DataTable.NextDisabled | app/admin/components/DataTable.tsx:163 | The next button is disabled on the last page. |
| DataTable.Walk | app/admin/components/DataTable.tsx:41-48 | Reads the path's fields one after another, undefined once a value is missing. It splits over paths in two parts (WalkAppend). |
| PostService.PageBounds | services/post-service.ts:54 | The inclusive row range of a page. Pages are adjacent and disjoint (PagesAreAdjacent, PagesAreDisjoint). |
| PostService.Window | services/post-service.ts:54 | The rows of an inclusive range that exist, at most to - from + 1 of them, and exactly rows[from..to+1] when the range is inside the rows. |
| PostService.Execute | services/post-service.ts:50-67 | The database's answer: the page window of the rows passing the filters, the count of all of them, and the given error. |
| PostService.ILikeContains | services/post-service.ts:56-59 | The search text occurs in the vi title, case ignored. |
| PostService.PostTagRows | services/post-service.ts:97-101 | One link row per tag id. They link the post to exactly those ids (TagIdsOfPostTagRows). |
| PostService.WithoutPost | services/post-service.ts:122 | The rows that do not link the post, each taken from the table. |
| Storage.PostImagePath | services/storage-service.ts:7-9 | The token, a dot and the file's extension. |
| Storage.TagImagePath | services/storage-service.ts:27-29 | "tag-", the token, a dot and the file's extension. |
| CommentSection.CommentOf | components/blog/CommentSection.tsx:62-66 | The new comment: the post id and the trimmed name and content (SubmittedCommentIsTrimmed). |
| Engagement.NextReaction | services/engagement-service.ts:97-126 | The same reaction again gives none, anything else gives the chosen reaction. Applied twice it restores the state (ToggleTwiceRestores). |
| Engagement.Stats | services/engagement-service.ts:44-53 | The like and dislike counts of a post: one per user row holding that reaction. They partition the post's rows (StatsPartitionRows). |
| PostsGrid.ShowsNotFound | components/blog/PostsGrid.tsx:42 | The not-found panel shows when the filtered list is empty. |

## Left out

- Supabase I/O. Queries, inserts, updates, deletes, storage uploads and removals, and public
  URLs are not modelled. Their outcomes are parameters, and the tables are in-memory values.
- getById, delete and togglePublish of the post service, and the comment queries of the
  engagement service: each is one database call with no logic of its own.
- The read-then-write race in toggleLike and any concurrency. Each operation runs alone.
- The random file token (`Math.random().toString(36).substring(2)`) is a parameter. So are the
  new post's id, the visitor id and every date.
- Slug.Lower: `toLowerCase` is modelled for ASCII letters and Đ only, because full Unicode case
  mapping is not available. `normalize("NFD")` is the identity, so titles are taken to be
  decomposed already.
- PostService.ILikeContains: `%` and `_` inside the search text are taken literally rather than
  as wildcards. Case is ignored only as far as Slug.Lower goes.
- PostService.Window: PostgREST rejects an offset past the last row with an error. The model
  answers it with an empty page. The `created_at` ordering is taken as the table's order.
- DataTable.Member: property reads on primitives (a string's `length` or index) are undefined
  here. Arrays are not a separate kind of value.
- Rendering, styles, icons, date formatting, toasts and router navigation.
- RichTextEditor, ConfirmDialog, the cards, headers, footers and the admin page glue.
- The post editor's loading of a post and its save round-trip (insert/update, then tag
  rewrite). The editor's column names do not match the service's `languages` shape.
- The comment list reload after a successful submit, and the `submitting` and `loading` flags.
- Engagement.LikeTable.ToggleLike and PostService.PostStore.Create: both tables are taken to
  have a unique key, (post_id, user_id) for `post_likes` and id for `posts`. A map holds one
  row per key, so a second insert of a key is rejected with code 23505. Duplicate rows, and
  the PGRST116 error `maybeSingle` reports for them, cannot arise in the model.
- PostService.GetAll and PostService.PostStore: the `posts` table appears twice, as the listed
  rows (`seq<PostRow>`) that `getAll` reads and as the column maps that `create` and `update`
  write. Nothing ties the two, so a listing after a write is not modelled.
