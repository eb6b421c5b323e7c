# Yatube posts: a Dafny model

Yatube is a small blogging site. Users write posts, may file them under a
group, comment on posts, and follow other authors. This project models the
state behind the site's `posts` application as an immutable database value,
`Models.Store`. The store holds a set of usernames and four tables: groups,
posts, comments and follow edges. Each view is a total function over the
store:

- Each writing view (`new_post`, `post_edit`, `add_comment`, `profile_follow`,
  `profile_unfollow`) returns a new store and an outcome tag. The tag is one
  of: rendered, redirect to a route, 404, or the login redirect.
- The listing views `index` and `follow_index` return the ordered posts
  they hand to the paginator. `group_posts` and `profile` return a page
  record: the group or author, the ordered posts, and for a profile the
  post count and the `following` flag. `post_view` has no paginator; it
  returns the post, its author's post count and the post's comments.
  Module `Paging` models the ten-per-page slicing.

The model declarations add these rules:

- the unique slug;
- the unique `(user, author)` follow pair;
- newest-first ordering;
- the `__str__` renderings;
- the `on_delete` cascades.

`Models.Valid` is the consistency invariant. Module `Invariants` proves that
every write keeps it when its foreign keys name stored rows: the views'
requester is a signed-in user, and a follow row names two stored users. Module `Properties` states what the views promise
across calls.

Modules:

- `Seqs` has the generic table operations: filter, first match, delete
  matching rows, reverse. It also has the pairwise-order and no-duplicates
  predicates, with their lemmas.
- `Models` has the records, the store and its invariant. It also has the
  `__str__` functions, the ordering, the inserts a uniqueness constraint can
  refuse, and the cascading deletes.
- `Paging` has `Paginator(list, 10)` and the page slice.
- `Views` has the view functions.
- `Invariants` has the invariant preservation lemmas.
- `Properties` has the cross-call lemmas.

Modelling choices:

- A user is identified by username. A requester is `Option<UserName>`, and
  `None` stands for an anonymous visitor.
- `pub_date` and `created` become stamps taken from a counter in the store
  (`clock`). The counter goes up by one at every post or comment insert.
- A table is a sequence kept in saving order. The ordering
  `ordering = ('-pub_date',)` is the table read backwards. The lemma
  `ListingsNewestFirst` proves this is newest-first on every consistent
  store.
- Follow edges are a sequence of rows rather than a set, so the
  `UniqueConstraint` is an invariant that can fail. This also gives "count + 1"
  and "count - 1" a meaning.
- A bound form carries an abstract `valid` flag for the framework's field
  validation. A post form naming a group that does not exist counts as
  invalid, because the group choice field only offers existing groups. The helper
  `Views.Accepts` is that test; `Properties.UnknownGroupRejected` states
  what the group rule refuses.
- An image is an opaque stored name.

On the profile page, an anonymous visitor's `following` flag keeps its
initial value `True` (yatube/posts/views.py:46-49). For a signed-in viewer
the flag is whether the edge exists. The model reproduces both branches
as written, in `Views.Following`. `Properties.OwnProfileFlag` shows the
consequence: a signed-in user sees `False` on their own profile, while an
anonymous visitor sees `True` on every profile.

## Model

| member | source | states |
|---|---|---|
| `Models.PostStr` | yatube/posts/models.py:32-33 | A post renders as a prefix of its text of length min(15, length of text): the whole text when it is short, exactly fifteen characters otherwise |
| `Models.GroupStr` | yatube/posts/models.py:12-13 | A group renders as its title, never shortened |
| `Seqs.Filter` | yatube/posts/views.py:121 | A queryset filter keeps exactly the rows that pass the condition and never grows the table |
| `Seqs.Find` | yatube/posts/views.py:27 | A `get_object_or_404` lookup yields a row that is stored and matches, and finds nothing exactly when no stored row matches |
| `Models.Unlink` | yatube/posts/models.py:22 | `SET_NULL` on one post: a post in the deleted group loses its group, every other field is kept, and a post in another group is untouched |
| `Views.Edited` | yatube/posts/views.py:107-112 | Saving the edit form over a post keeps its key, stamp and author, and takes the form's text, group and image |
| `Models.Listing` | yatube/posts/models.py:29-30 | A posts listing holds exactly the stored posts (same multiset) and, on a table kept in saving order, is strictly newest first |
| `Models.Fresh` | yatube/posts/models.py:7-57 | A database with only users, and no groups, posts, comments or follow edges, is consistent and has no self-follow |
| `Models.CreateGroup` | yatube/posts/models.py:9 | Creating a group is refused exactly when its slug is taken; otherwise the group table gains exactly one copy of the new row, the key counter moves past the new key, and nothing else changes |
| `Models.InsertFollow` | yatube/posts/models.py:53-57 | Inserting a follow row is refused exactly when the pair already has one (the `UniqueConstraint`); otherwise one row is added and nothing else changes |
| `Models.DeleteGroup` | yatube/posts/models.py:22-25 | Deleting a group removes it, keeps every post, nulls the group on its posts, leaves every other field and table alone |
| `Models.DeletePost` | yatube/posts/models.py:37-38 | Deleting a post removes it and exactly the comments on it |
| `Models.DeleteUser` | yatube/posts/models.py:20-51 | Deleting a user removes their posts, the comments on those posts, their own comments, and every follow edge with them at either end; groups, key counters and the clock are untouched |
| `Seqs.Remove` | yatube/posts/views.py:145 | Deleting the rows equal to one value removes every copy of it, keeps every other row with its number of copies (multiset minus that value), shrinks the table by its number of copies, and is the identity when there is none |
| `Paging.NumPages` | yatube/posts/views.py:17 | The page count is the least positive number of ten-item pages that hold the listing: one page for an empty listing (an empty first page is allowed), otherwise the fewest pages of ten that hold every item |
| `Paging.Page` | yatube/posts/views.py:17-19 | A page holds at most ten items, exactly ten unless it is the last, the last ends at the end of the listing, and item i of page n is item 10(n-1)+i of the listing |
| `Paging.FirstPagesArePrefix` | yatube/posts/views.py:17-19 | Pages 1 to k laid end to end are the first 10k items of the listing (or all of them) |
| `Paging.PagesCoverListing` | yatube/posts/views.py:17-19 | Reading every page in turn gives back the whole listing in order |
| `Paging.FirstPageSize` | yatube/posts/views.py:43-45 | The first page is the first min(10, N) items of an N-item listing |
| `Paging.ThirteenItems` | yatube/posts/tests/test_views.py:203-212 | Thirteen items make two pages, of ten and of three |
| `Views.FindPost` | yatube/posts/views.py:103-104 | The post lookup by author and id finds a stored post by that author with that id, and finds nothing exactly when the user is unknown or has no such post |
| `Views.NewPost` | yatube/posts/views.py:84-95 | Anonymous: login redirect, no change. Invalid form: form re-rendered, no change. Otherwise exactly one post is appended, authored by the requester whatever was submitted, with the form's text, group and image, and the requester is sent to the index |
| `Views.PostEdit` | yatube/posts/views.py:98-113 | Unknown author or post: 404. Non-author: redirect to the post, nothing changes. Invalid form: re-rendered. Author with a valid form: same number of posts, every post keeps id, author and stamp, only the target post takes the form's text, group and image |
| `Views.AddComment` | yatube/posts/views.py:70-81 | Unknown author or post: 404. Invalid form: redirect to the post with no comment added. Otherwise exactly one comment is appended, authored by the requester, on the post the URL names |
| `Views.ProfileFollow` | yatube/posts/views.py:128-138 | Anonymous: login redirect. Unknown author: 404. Following oneself changes nothing. Otherwise the edge is present afterwards, no other edge appears, and the table grows by one only if the edge was absent. An existing edge leaves the database exactly as it was |
| `Views.ProfileUnfollow` | yatube/posts/views.py:141-146 | Unknown author: 404. Otherwise every row for the pair is gone, every other edge stays, and an absent edge leaves the database unchanged |
| `Views.IndexFeed` | yatube/posts/views.py:12-20 | The global feed holds every post once, newest first on a consistent store |
| `Views.GroupPosts` | yatube/posts/views.py:23-33 | An unknown slug gives 404; otherwise the page names a stored group with that slug and lists exactly the posts of that group |
| `Views.AuthorPosts` | yatube/posts/views.py:41 | An author's listing holds exactly that author's posts |
| `Views.Following` | yatube/posts/views.py:46-52 | The flag is true for an anonymous viewer and, for a signed-in viewer, true exactly when the viewer follows the author |
| `Views.Profile` | yatube/posts/views.py:36-53 | An unknown username gives 404; otherwise the page's posts are the author's newest-first listing (`Views.AuthorPosts`), the count is that listing's length, and the page carries the following flag |
| `Views.PostDetail` | yatube/posts/views.py:56-67 | A missing post gives 404; otherwise the page shows that post, its author's post count, and exactly the comments on it |
| `Views.FollowIndex` | yatube/posts/views.py:116-125 | Anonymous: login redirect. Otherwise the feed holds exactly the posts whose author the viewer follows |
| `Invariants.NewPostKeepsValid` | yatube/posts/views.py:92-94 | Creating a post keeps every table invariant: saving order, unique keys, existing author and group |
| `Invariants.PostEditKeepsValid` | yatube/posts/views.py:107-112 | Editing a post keeps every table invariant |
| `Invariants.AddCommentKeepsValid` | yatube/posts/views.py:77-80 | Adding a comment keeps every table invariant; the comment's post and author exist |
| `Invariants.InsertFollowKeepsValid` | yatube/posts/models.py:47-57 | A new follow row whose two ends are stored users keeps the follow pairs unique and the whole store consistent |
| `Invariants.ProfileFollowKeepsValid` | yatube/posts/views.py:134-137 | Get-or-create keeps the follow pair unique |
| `Invariants.ProfileUnfollowKeepsValid` | yatube/posts/views.py:145 | Unfollowing keeps every table invariant |
| `Invariants.CreateGroupKeepsValid` | yatube/posts/models.py:9 | A created group keeps slugs and keys unique |
| `Invariants.DeleteGroupKeepsValid` | yatube/posts/models.py:22-25 | After a group is deleted, no post refers to a missing group |
| `Invariants.DeletePostKeepsValid` | yatube/posts/models.py:37-38 | After a post is deleted, no comment refers to a missing post |
| `Invariants.DeleteUserKeepsValid` | yatube/posts/models.py:20-51 | After a user is deleted, no post, comment or follow edge refers to a missing user or post |
| `Invariants.RewrittenPostsKeepValid` | yatube/posts/views.py:112 | Saving posts in place keeps the store consistent when every row keeps its key, stamp and author and names an existing group |
| `Invariants.ProfileFollowNoSelfFollow` | yatube/posts/views.py:132-133 | The follow view never creates an edge from a user to themselves |
| `Invariants.ProfileUnfollowNoSelfFollow` | yatube/posts/views.py:145 | Unfollowing never creates a self edge |
| `Invariants.DeleteUserNoSelfFollow` | yatube/posts/models.py:48-51 | Deleting a user never creates a self edge |
| `Properties.FollowLeavesOneEdge` | yatube/posts/views.py:134-137 | After following another user, exactly one row holds the pair |
| `Properties.FollowIdempotent` | yatube/posts/views.py:132-137 | A second identical follow request changes nothing and answers the same |
| `Properties.UnfollowRemovesOneRow` | yatube/posts/tests/test_views.py:269-275 | Unfollowing an existing edge shrinks the follow table by exactly one |
| `Properties.UnfollowUndoesFollow` | yatube/posts/views.py:128-146 | A fresh follow followed by an unfollow restores the database exactly |
| `Properties.FollowingFlagTracksEdges` | yatube/posts/views.py:50-52 | After following, the follower sees the flag set on the author's profile; after unfollowing, cleared |
| `Properties.OwnProfileFlag` | yatube/posts/views.py:46-52 | A signed-in user sees the flag false on their own profile; an anonymous visitor sees it true |
| `Properties.FollowFeedEmptyWithoutEdges` | yatube/posts/tests/test_views.py:281-286 | A user following nobody gets an empty follow feed |
| `Properties.FollowFeedOfOneAuthor` | yatube/posts/views.py:121-124 | Following exactly one author, the follow feed is that author's listing and its first page holds min(10, N) posts |
| `Properties.NewPostHeadsIndex` | yatube/posts/tests/test_views.py:239-245 | After a new post the global feed has one more item and its first item is the new post with the form's data and the requester as author |
| `Properties.NewPostIsNewest` | yatube/posts/models.py:29-30 | The new post is strictly newer than every earlier post and the feed stays newest first |
| `Properties.UnknownGroupRejected` | yatube/posts/views.py:89-111 | A post form naming a group that is not stored is invalid: `new_post` and the author's `post_edit` re-render the form and write nothing |
| `Properties.PostEditIdempotent` | yatube/posts/views.py:107-112 | Submitting the same edit twice leaves the database as one edit does |
| `Properties.EditShownOnPostPage` | yatube/posts/tests/test_forms.py:86-111 | After the author's accepted edit, the post page shows the submitted text, group and image |
| `Properties.CommentShownOnPostPage` | yatube/posts/tests/test_forms.py:113-139 | An accepted comment is appended to its post's comments, with the requester as author, and nothing else joins them |
| `Properties.ListingsNewestFirst` | yatube/posts/models.py:29-30 | The global, group, author and follow feeds are all strictly newest first on a consistent store |
| `Properties.SlugsIdentifyGroups` | yatube/posts/models.py:9 | Two group rows with the same slug are the same row |
| `Properties.GroupPostsPicksTheSlugsGroup` | yatube/posts/views.py:27-28 | The group page for a stored group's slug is that group's page |
| `Properties.ThirteenPostsIndex` | yatube/posts/tests/test_views.py:203-212 | With thirteen posts the global feed has two pages, of ten and of three |
| `Properties.IndexPagesCoverFeed` | yatube/posts/views.py:16-19 | The global feed's pages together are the whole feed |
| `Properties.DeletedPostGone` | yatube/posts/models.py:37-38 | After a post is deleted its page gives 404 and no comment refers to it |
| `Properties.DeletedUserGone` | yatube/posts/models.py:20-51 | After a user is deleted: their profile gives 404, no feed shows their posts, nobody follows them, and they follow nobody |
| `Properties.DeletedGroupGone` | yatube/posts/models.py:22-25 | After a group is deleted its slug gives 404, and the global feed keeps as many posts, each earlier post still in it with its group nulled if it was in the deleted group |

## Left out

- Template rendering, HTTP status codes and redirect URLs are left out. Each view's answer is reduced to an outcome tag.
- The `next` parameter of the login redirect is left out. The `login_required` guard is modelled only as "anonymous gets the login redirect and nothing changes".
- The page cache on the index page is left out. It is time-based and owned by the framework, so the model's index is always current.
- Image upload and file storage are left out. An image is an opaque optional name; the form supplies the cleaned value to store.
- Form field validation is left out. It is an abstract `valid` flag, plus the rule that a chosen group must exist.
- Models.InsertFollow: refuses only a duplicate pair. The database would also refuse a row whose `user` or `author` foreign key names a missing user; that refusal is not modelled. `Views.ProfileFollow` only inserts a row for a stored author, `Invariants.ProfileFollowKeepsValid` assumes a signed-in requester, and `Invariants.InsertFollowKeepsValid` requires both ends to be stored.
- Paging.Page: defined only for page numbers from 1 to the page count. `get_page` falls back to page 1 for a missing or non-integer number, and to the last page for an out-of-range one. That framework behaviour is not modelled.
- Models.Listing: orders posts by reading the saving-ordered table backwards, not by sorting on `pub_date`. On every consistent store the two agree (`Properties.ListingsNewestFirst`). On an arbitrary table they need not.
- `pub_date` and `created` as datetimes are left out. They are integer stamps from a counter that goes up by one at every post or comment insert, so no two posts and no two comments share a stamp.
- Concurrency is left out. Two simultaneous `get_or_create` calls rely on the database constraint; the model runs one request at a time.
- The order of a post's comments is the model's choice. `Comment` declares no `Meta.ordering`, so `post.comments.all()` promises no order; `Views.PostDetail` lists them in saving order, and `Properties.CommentShownOnPostPage` (the new comment comes last) holds for that choice only.
- The 404 and 500 handler views (`page_not_found`, `server_error`) are left out. They only render templates.
- The `about` application is left out. It has only static pages.
- The registration form in yatube/users/forms.py is left out. It is a field allowlist over a framework form.
- User creation is left out. The `Models.Fresh` store starts with a given set of users, and `Models.DeleteUser` removes one.
- The unbound comment form that `post_view` puts in its context is left out. It carries no data.
