# yatube `posts`: the rule layer, in Dafny

This project models the rule layer of the `posts` app of yatube, a small blogging site: users
write posts, optionally in a group (a community with a unique slug and a creator), comment on
posts, follow other authors and read a feed of the authors they follow.

The model has four modules:

- `QuerySet` (`queryset.dfy`): the query-set primitives the handlers are built from. `Filter`
  is `filter()`: it keeps rows in order. `Get` is `get()`: it finds the matching row, and the
  lookup column is unique at every use; `None` there is what `get_object_or_404` turns into
  Not Found. `Update` saves edited rows in place. The module also proves the facts they
  carry: filtering preserves any relation between earlier and later rows, and counting the
  rows of a table without repeated rows counts its distinct entries.
- `Paging` (`paging.dfy`): `get_page_obj`. Pages hold `PostsPerPage` = 10 items, the `page`
  argument is read the way `Paginator.get_page` reads it, and lemmas cover page sizes, the
  slice each page is, and joining the pages back into the listing.
- `Models` (`models.py` → `models.dfy`): the records `User`, `Profile`, `Group`, `Post`,
  `Comment`, `Follow`; `str()` of a post (`CharsShown` = 30); the newest-first order of
  posts; the uniqueness constraints and foreign keys as a schema invariant `SchemaValid`; and
  the `on_delete` rules (`SET_NULL` on `Post.group`, `CASCADE` everywhere else) as functions on
  the tables.
- `Views` (`views.py` → `views.dfy`): the store class `Store`, whose fields are the tables.
  The five handlers that only read are functions of it: `Index`, `GroupPosts`, `ProfileView`,
  `PostDetail`, `FollowIndex`. The ten handlers that save or delete are methods whose
  `modifies` clauses name the exact tables they may change; they are `PostCreate`, `PostEdit`,
  `PostDelete`, `AddComment`, `ProfileFollow`, `ProfileUnfollow`, `ProfileEdit`,
  `GroupCreate`, `GroupEdit` and `GroupDelete`. Every handler answers `Redirect(target)`,
  `Render(page data)` or `NotFound`. The delete rules of the schema are methods too:
  `DeletePost`, `DeleteGroup`, and `DeleteUser` with its ordered steps.

Modelling choices:

- `Store.posts` is held newest first, which is the `ordering = ('-pub_date',)` of every
  listing. `pub_date` is a counter, `clock`: each new post or comment takes the current value
  and the counter then goes up, so a new post is newer than every other post and goes in
  front.
- `Store.Valid()` is the schema invariant that every handler keeps. It says: primary keys,
  usernames and slugs are unique; there is at most one profile per user and at most one follow
  edge per (user, author) pair; nobody follows themself; and every foreign key names an
  existing row.
- The requester is the id of a signed-in user. A submitted form is its fields plus `formOk`,
  the outcome of the form's own field checks. The two checks a form makes against the store
  are written out. For a post, the chosen group must exist. For a group, the slug must not
  belong to another group.
- `AddUser` and `AddProfile` create accounts and profile rows. Both are done outside `posts`
  (the authentication layer and the profile setup); they are here so that a store can be
  filled.

## Model

| member | source | states |
|---|---|---|
| Paging.NumPages | yatube/posts/utils.py:10-11 | a listing of n items has the fewest pages of 10 that hold it; an empty listing has exactly one page |
| Paging.GetPage | yatube/posts/utils.py:11 | page k is the slice from position 10·(k−1) up to min(10·k, n)−1; it holds at most 10 items, every page before the last is full, and a non-empty listing has a non-empty page |
| Paging.Pages | yatube/posts/utils.py:11 | the listing cut into pages has exactly NumPages pages |
| Paging.PagesAreGetPage | yatube/posts/utils.py:11 | the k-th of the cut pages is exactly what asking for page k returns |
| Paging.PagesBounded | yatube/yatube/settings.py:6 | no page holds more than POSTS_PER_PAGE = 10 items |
| Paging.JoinPages | yatube/posts/utils.py:11 | reading all pages in page order gives back the whole listing |
| Paging.JoinSize | yatube/posts/utils.py:11 | the joined pages are as long as the page sizes added up |
| Paging.PageSizesSum | yatube/posts/utils.py:11 | the page sizes add up to the length of the listing |
| Paging.ThirteenItems | yatube/posts/tests/test_views.py:113-157 | 13 items make two pages: page 1 holds 10 items and starts with the first item, page 2 holds the other 3 |
| Paging.PageNumber | yatube/posts/utils.py:11 | the page shown is always an existing one: the page named when it exists, page 1 without a usable argument, the last page for a number out of range |
| Paging.PageObj | yatube/posts/utils.py:10-11 | `get_page_obj` returns one of the cut pages (the one PageNumber picks), at most 10 items, all from the listing, and the first items of the listing when no page is asked for |
| Paging.PageObjPairwise | yatube/posts/utils.py:11 | a page keeps the order of the listing, so a newest-first listing gives newest-first pages |
| QuerySet.Filter | yatube/posts/views.py:36 | `filter()` keeps exactly the rows that match, and no more rows than it was given |
| QuerySet.FilterKeepsAll | yatube/posts/views.py:146-149 | a filter every row matches returns the rows unchanged |
| QuerySet.FilterPairwise | yatube/posts/models.py:77-78 | filtering keeps the order of the rows it keeps, so a newest-first listing filtered stays newest first |
| QuerySet.Get | yatube/posts/views.py:82 | `get()` finds a matching row exactly when one exists; that is what `get_object_or_404` relies on |
| QuerySet.Update | yatube/posts/views.py:98-99 | saving an edit rewrites the matching rows and leaves every other row, and the order, unchanged |
| QuerySet.CountDistinct | yatube/posts/models.py:120-126 | a sequence without repeated rows has as many rows as distinct values |
| QuerySet.CountFilter | yatube/posts/views.py:35-36 | `filter(...).count()` over rows without repetition is the number of distinct matching rows |
| Models.PostStr | yatube/posts/models.py:82-83 | `str(post)` is a prefix of the text, 30 characters long, or the whole text when it is shorter |
| Models.NewestFirstUnique | yatube/posts/models.py:77-78 | two newest-first listings holding the same posts are the same listing, so the order is fully determined |
| Models.TailMembers | yatube/posts/models.py:77-78 | in a newest-first listing the newest post occurs once, in front |
| Models.PrependNewest | yatube/posts/models.py:53-56 | a post stamped later than all others, with a fresh key, goes in front and the listing stays newest first with unique keys |
| Models.PostsDistinct | yatube/posts/models.py:51 | posts with unique keys are never listed twice |
| Models.CommentsDistinct | yatube/posts/models.py:86 | comments with unique keys are never listed twice |
| Models.DetachGroups | yatube/posts/models.py:63-70 | `SET_NULL`: exactly the posts of the deleted groups lose their group; no post is deleted or moved and no other field changes |
| Models.CommentsNotOn | yatube/posts/models.py:87-92 | `CASCADE` from Post: exactly the comments on the deleted posts go |
| Models.UsersWithout | yatube/posts/models.py:11-16 | the deleted account goes, and with it only its key |
| Models.ProfilesWithout | yatube/posts/models.py:11-16 | `CASCADE`: the profile of the deleted user goes, and only that |
| Models.GroupsWithout | yatube/posts/models.py:30-35 | `CASCADE`: exactly the groups the deleted user created go |
| Models.PostsWithout | yatube/posts/models.py:57-62 | `CASCADE`: exactly the deleted user's posts go, and the rest stay newest first with unique keys |
| Models.CommentsWithout | yatube/posts/models.py:93-98 | `CASCADE`: exactly the deleted user's comments go |
| Models.FollowsWithout | yatube/posts/models.py:107-118 | `CASCADE`: exactly the follow edges the deleted user is user or author of go |
| Views.UserByName | yatube/posts/views.py:33 | the user with that username is found exactly when one exists |
| Views.UserById | yatube/posts/views.py:85 | the user with that key is found exactly when the key is registered |
| Views.GroupBySlug | yatube/posts/views.py:188 | the group with that slug is found exactly when one exists |
| Views.PostById | yatube/posts/views.py:90 | the post with that key is found exactly when the key exists |
| Views.ProfileOf | yatube/posts/views.py:157 | the user's profile is found exactly when they have one |
| Views.PostsBy | yatube/posts/views.py:34 | exactly the author's posts, newest first, counted as the number of distinct such posts |
| Views.InGroup | yatube/posts/views.py:24 | exactly the group's posts, newest first |
| Views.Feed | yatube/posts/views.py:126-128 | exactly the posts whose author `me` follows, newest first |
| Views.FeedPages | yatube/posts/views.py:126-131 | read page after page, the follow feed holds exactly the posts of the followed authors, newest first; posts of other authors never appear |
| Views.CommentsOn | yatube/posts/views.py:54 | exactly the comments on the post, counted as the number of distinct such comments |
| Views.Followers | yatube/posts/views.py:35 | exactly the edges with that author, counted as the number of distinct such edges |
| Views.Followings | yatube/posts/views.py:36 | exactly the edges with that user, counted as the number of distinct such edges |
| Views.AddFollow | yatube/posts/views.py:140 | `get_or_create`: afterwards the edge is present once, no other edge appears or goes, and edges stay unique |
| Views.FollowTwice | yatube/posts/views.py:140 | following twice leaves the same edges as following once |
| Views.RemoveFollow | yatube/posts/views.py:146-149 | exactly that edge goes; with no such edge nothing changes; with it, there is one edge fewer |
| Views.UnfollowTwice | yatube/posts/views.py:146-149 | unfollowing twice leaves the same edges as unfollowing once |
| Views.WithoutPost | yatube/posts/views.py:84 | exactly the post with that key goes, and the rest stay newest first with unique keys |
| Views.EditPost | yatube/posts/views.py:98-99 | the edited post gets the new text, group and image and keeps key, author and stamp; every other post is unchanged |
| Views.WithoutGroup | yatube/posts/views.py:209 | exactly the group with that key goes; slugs and keys stay unique |
| Views.EditGroup | yatube/posts/views.py:195-196 | the edited group gets the new title, slug and description and keeps key and creator; every other group is unchanged |
| Views.EditProfile | yatube/posts/views.py:163-164 | the user's profile gets the new photo and bio; every other profile is unchanged |
| Views.SlugHeldOnlyBy | yatube/posts/models.py:40 | with unique slugs, a slug lookup that finds nothing, or finds group g, means that no other group holds the slug |
| Views.EditKeepsGroupsValid | yatube/posts/models.py:40 | editing a group to a slug no other group holds keeps keys and slugs unique and keeps every group's creator |
| Views.EditKeepsPostsValid | yatube/posts/models.py:77-78 | editing a post keeps the listing newest first and keys unique; every post keeps the key, author and stamp it had |
| Views.Store.constructor | yatube/posts/models.py:10-128 | an empty database satisfies the schema |
| Views.Store.Index | yatube/posts/views.py:13-19 | one page of all posts: at most 10, newest first; it is the page PageNumber picks, and without a page number it starts with the newest post |
| Views.Store.GroupPosts | yatube/posts/views.py:22-29 | Not Found exactly when no group has the slug; otherwise the group and one page of exactly its posts, newest first |
| Views.Store.ProfileView | yatube/posts/views.py:32-47 | Not Found exactly when no user has the username. Otherwise: one page of the author's posts, newest first; posts_num counts the author's posts and equals the page sizes added up; followers_num counts the edges with that author; following_num counts the edges with that user; `following` is present only for a signed-in viewer and is true exactly when the viewer follows the author |
| Views.Store.PostDetail | yatube/posts/views.py:50-63 | Not Found exactly when no post has the key; otherwise the post, exactly the comments on it, their number, and the number of posts by its author |
| Views.Store.FollowIndex | yatube/posts/views.py:124-133 | one page of the feed: at most 10 posts, newest first, each by an author the requester follows |
| Views.Store.AddUser | yatube/users/views.py:13-14 | a new username becomes an account with a fresh key, and the next key moves on; a username already taken changes nothing |
| Views.Store.AddProfile | yatube/users/views.py:15-16 | a registered user without a profile gets one, with the default photo of yatube/posts/models.py:17-21 and an empty bio; otherwise nothing changes |
| Views.Store.PostCreate | yatube/posts/views.py:66-77 | a valid form becomes a post in front of all others, whose author is the requester and whose stamp is the newest, then redirect to the requester's profile; an invalid form (or an unknown group) changes nothing, not even the next key or stamp, and renders the form |
| Views.Store.AddComment | yatube/posts/views.py:108-121 | Not Found for an unknown post; otherwise a valid form adds one comment by the requester on the post in the path, and the answer is always that post's `#comments` anchor; without a new comment the next key and stamp stay as they were |
| Views.Store.ProfileFollow | yatube/posts/views.py:136-141 | Not Found for an unknown username; following oneself changes nothing; otherwise the edge is added once; the answer is the author's profile |
| Views.Store.ProfileUnfollow | yatube/posts/views.py:144-150 | Not Found for an unknown username, with no change; otherwise exactly the edge from the requester to the author goes, if there is one; the answer is the author's profile |
| Views.Store.PostEdit | yatube/posts/views.py:88-105 | Not Found for an unknown post; anyone but the author is sent to the post with nothing changed; a valid form from the author edits that post only; an invalid form renders the form |
| Views.Store.PostDelete | yatube/posts/views.py:80-85 | Not Found for an unknown post; the author's request deletes the post and exactly its comments; anyone else changes nothing; both are sent to the author's profile |
| Views.Store.ProfileEdit | yatube/posts/views.py:153-170 | anyone but the owner is sent to the profile with nothing changed; Not Found when the owner has no profile; a valid form edits the owner's profile only |
| Views.Store.GroupCreate | yatube/posts/views.py:173-183 | a valid form with a free slug adds a group created by the requester and redirects to it; otherwise nothing changes, not even the next key, and the form is rendered |
| Views.Store.GroupEdit | yatube/posts/views.py:186-202 | Not Found for an unknown slug; anyone but the creator is sent to the group with nothing changed; a valid form from the creator, whose slug is free or the group's own, edits that group only and redirects to its new slug |
| Views.Store.GroupDelete | yatube/posts/views.py:205-210 | Not Found for an unknown slug; the creator's request deletes the group and its posts lose their group; anyone else changes nothing; both are sent to the index |
| Views.Store.DeletePost | yatube/posts/models.py:87-92 | deleting a post deletes exactly the comments on it, and the schema still holds |
| Views.Store.DeleteGroup | yatube/posts/models.py:63-70 | deleting a group leaves every post in place, with the group cleared on the posts that were in it |
| Views.Store.DeleteUser | yatube/posts/models.py:11-118 | deleting a user removes their account, profile, groups, posts, comments and every follow edge they are in; the comments on their posts go too; other users' posts in their groups stay, without a group; the schema still holds |
| Views.Store.DeleteFollowsOf | yatube/posts/models.py:107-118 | the follow edges the user is user or author of go |
| Views.Store.DeleteProfileOf | yatube/posts/models.py:11-16 | the user's profile goes |
| Views.Store.DeleteCommentsOf | yatube/posts/models.py:87-98 | the user's comments, and the comments on the user's posts, go |
| Views.Store.DeletePostsBy | yatube/posts/models.py:57-62 | the user's posts go, once no comment is on them |
| Views.Store.DetachGroupsOf | yatube/posts/models.py:63-70 | the posts in groups the user created lose their group |
| Views.Store.DeleteGroupsOf | yatube/posts/models.py:30-35 | the groups the user created go, once no post is in them |
| Views.Store.DeleteAccount | yatube/posts/models.py:11-16 | the account goes once no row refers to it |

## Left out

- `@cache_page` on `index` (yatube/posts/views.py:12): a cache that expires after a timeout depends on the wall clock and on Django's cache layer. `Index` always reads the current store.
- `@login_required`, sessions and authentication: the requester of a signed-in-only handler is a parameter, the id of a registered user. The redirect to the login page is not modelled.
- Form validation inside `ModelForm.is_valid` (yatube/posts/forms.py) is the boolean `formOk`. The only checks written out are the ones that read the store: the chosen group exists, and the slug is free.
- Views.Store.GroupEdit: when the form is invalid, the page is rendered with the slug from the path. Django may already have copied a submitted slug into the instance at that point; that is not modelled.
- Image uploads and media storage: an image is the stored path string.
- Templates, and `CHARS_SHOWN` in the detail context: a rendered page is the data handed to its template.
- Paging.PageNumber: the `page` argument is already parsed. `None` stands for a missing argument or one that is not an integer. The rest of `Paginator.get_page` follows Django's Paginator, which is not part of this model.
- URL routing (yatube/posts/urls.py), the static pages (yatube/about), the admin, `get_all_fields` (yatube/posts/utils.py:6-7), the sign-up view and the settings apart from the constants 10 and 30.
- Models.GroupStr: `str(group)` is the title; the function has no contract of its own.
- `Comment` declares no `ordering` (yatube/posts/models.py:101-103), so the order of a post's comments is the database's. The model lists them in the order they were added.
- Creating users and their profiles belongs to the authentication layer and to profile setup. `AddUser` and `AddProfile` only make a store that can be filled.
- `pub_date` is a counter, not a date. Two posts never share a stamp, so ties in the ordering do not arise.
- Transactions and concurrent requests: every handler runs alone and in full.
- Views.Store.DeleteUser: the cascade is run as ordered steps that each keep the schema valid. Django's deletion collector chooses its own order inside one transaction. Only the final state is claimed to agree.
