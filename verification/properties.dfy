/**
  What the views promise across calls: following is idempotent and undone by
  unfollowing, the follow feed and the profile flag track the edges, an
  edit touches only its post, a new post heads the global feed, listings are
  newest first and split into pages of ten, and deletions cascade.
 */
module Properties {
  import opened Seqs
  import opened Models
  import opened Views
  import opened Paging
  import opened Invariants

  // ---------------------------------------------------------------------------
  // Following

  /** Following another user leaves exactly one row for the pair, however often it is asked. */
  lemma FollowLeavesOneEdge(s: Store, u: UserName, a: UserName)
    requires Valid(s) && u in s.users && a in s.users && u != a
    ensures multiset(ProfileFollow(s, Some(u), a).store.follows)[Follow(u, a)] == 1
  {
    var t := ProfileFollow(s, Some(u), a).store;
    ProfileFollowKeepsValid(s, Some(u), a);
    DistinctOccursOnce(t.follows, Follow(u, a));
  }

  /** Following twice is following once: the second request changes nothing. */
  lemma FollowIdempotent(s: Store, requester: Option<UserName>, a: UserName)
    ensures var r := ProfileFollow(s, requester, a);
            ProfileFollow(r.store, requester, a) == r
  {
  }

  /** Unfollowing an edge that exists removes exactly one row. */
  lemma UnfollowRemovesOneRow(s: Store, u: UserName, a: UserName)
    requires Valid(s) && a in s.users && Follow(u, a) in s.follows
    ensures |ProfileUnfollow(s, Some(u), a).store.follows| == |s.follows| - 1
  {
    DistinctOccursOnce(s.follows, Follow(u, a));
  }

  /** A fresh follow followed by an unfollow restores the database. */
  lemma UnfollowUndoesFollow(s: Store, u: UserName, a: UserName)
    requires Follow(u, a) !in s.follows
    ensures ProfileUnfollow(ProfileFollow(s, Some(u), a).store, Some(u), a).store == s
  {
    if a in s.users && u != a {
      RemoveAppend(s.follows, Follow(u, a));
    }
  }

  /**
    The profile flag after a follow or an unfollow by a signed-in viewer:
    set after following someone else, cleared after unfollowing.
   */
  lemma FollowingFlagTracksEdges(s: Store, u: UserName, a: UserName)
    requires a in s.users && u != a
    ensures Profile(ProfileFollow(s, Some(u), a).store, Some(u), a).value.following
    ensures !Profile(ProfileUnfollow(s, Some(u), a).store, Some(u), a).value.following
  {
  }

  /**
    A signed-in user looking at their own profile sees `following` false (the
    views never create a self edge); a visitor who is not signed in sees it
    true on every profile, their own included.
   */
  lemma OwnProfileFlag(s: Store, u: UserName)
    requires NoSelfFollow(s) && u in s.users
    ensures !Profile(s, Some(u), u).value.following
    ensures Profile(s, None, u).value.following
  {
    assert Follow(u, u) !in s.follows;
  }

  // ---------------------------------------------------------------------------
  // Follow feed

  /** A viewer with no outgoing edge sees an empty follow feed. */
  lemma FollowFeedEmptyWithoutEdges(s: Store, v: UserName)
    requires forall f :: f in s.follows ==> f.user != v
    ensures FollowIndex(s, Some(v)) == Show([])
  {
    FilterNone(Listing(s.posts), FollowedBy(s.follows, v));
  }

  /**
    A viewer who follows exactly one author sees that author's listing, so
    the first page holds min(N, 10) of the author's N posts.
   */
  lemma FollowFeedOfOneAuthor(s: Store, v: UserName, a: UserName)
    requires forall f :: f in s.follows && f.user == v ==> f.author == a
    requires Follow(v, a) in s.follows
    ensures FollowIndex(s, Some(v)) == Show(AuthorPosts(s, a))
    ensures |Page(AuthorPosts(s, a), 1)| == Min(PerPage, |AuthorPosts(s, a)|)
  {
    FilterAgree(Listing(s.posts), FollowedBy(s.follows, v), ByAuthor(a));
    FirstPageSize(AuthorPosts(s, a));
  }

  // ---------------------------------------------------------------------------
  // Creating and editing posts

  /** A new post is the first item of the global feed, carrying the form's data and the requester as author. */
  lemma NewPostHeadsIndex(s: Store, u: UserName, form: PostForm)
    requires Accepts(s, form)
    ensures var feed := IndexFeed(NewPost(s, Some(u), form).store);
            && |feed| == |IndexFeed(s)| + 1
            && feed[0] == Post(s.nextPostId, form.text, s.clock, u, form.group, form.image)
  {
  }

  /** A new post is newer than every post already stored, so newest-first puts it first. */
  lemma NewPostIsNewest(s: Store, u: UserName, form: PostForm)
    requires Valid(s) && u in s.users && Accepts(s, form)
    ensures var t := NewPost(s, Some(u), form).store;
            && NewestFirst(IndexFeed(t))
            && forall p :: p in IndexFeed(s) ==> Newer(IndexFeed(t)[0], p)
  {
    NewPostKeepsValid(s, Some(u), form);
  }

  /**
    A form naming a group that is not stored is refused: neither a new post
    nor an edit writes anything, and both re-render the form.
   */
  lemma UnknownGroupRejected(s: Store, u: UserName, username: UserName, postId: nat, form: PostForm, gid: nat)
    requires form.group == Some(gid) && forall g :: g in s.groups ==> g.id != gid
    ensures NewPost(s, Some(u), form) == Response(s, Rendered)
    ensures FindPost(s, username, postId).Some? ==>
      PostEdit(s, Some(username), username, postId, form) == Response(s, Rendered)
  {
    assert gid !in GroupIds(s);
  }

  /** Submitting the same edit twice leaves the database as one edit does. */
  lemma PostEditIdempotent(s: Store, requester: Option<UserName>, username: UserName, postId: nat, form: PostForm)
    ensures var r := PostEdit(s, requester, username, postId, form);
            PostEdit(r.store, requester, username, postId, form).store == r.store
  {
    var r := PostEdit(s, requester, username, postId, form);
    var r2 := PostEdit(r.store, requester, username, postId, form);
    if r.store != s {
      var p := FindPost(s, username, postId).value;
      var i :| 0 <= i < |s.posts| && s.posts[i] == p;
      assert r.store.posts[i].id == postId && r.store.posts[i].author == username;
      assert FindPost(r.store, username, postId).Some?;
      assert r.store.groups == s.groups;
      assert |r2.store.posts| == |r.store.posts|;
      forall j | 0 <= j < |r.store.posts| ensures r2.store.posts[j] == r.store.posts[j] {
      }
    }
  }

  /** After an accepted edit by the author, the post page shows the submitted text, group and image. */
  lemma EditShownOnPostPage(s: Store, username: UserName, postId: nat, form: PostForm)
    requires FindPost(s, username, postId).Some? && Accepts(s, form)
    ensures var d := PostDetail(PostEdit(s, Some(username), username, postId, form).store, username, postId);
            && d.Show?
            && d.value.post.text == form.text
            && d.value.post.group == form.group
            && d.value.post.image == form.image
  {
    var t := PostEdit(s, Some(username), username, postId, form).store;
    var p := FindPost(s, username, postId).value;
    var i :| 0 <= i < |s.posts| && s.posts[i] == p;
    assert t.posts[i].id == postId && t.posts[i].author == username;
    assert t.posts[i] in t.posts;
    var q := PostDetail(t, username, postId).value.post;
    var k :| 0 <= k < |t.posts| && t.posts[k] == q;
    assert s.posts[k].id == postId;
  }

  // ---------------------------------------------------------------------------
  // Comments

  /** An accepted comment joins its post's page, one more than before, with the requester as author. */
  lemma CommentShownOnPostPage(s: Store, u: UserName, username: UserName, postId: nat, form: CommentForm)
    requires FindPost(s, username, postId).Some? && form.valid
    ensures var before := PostDetail(s, username, postId);
            var after := PostDetail(AddComment(s, Some(u), username, postId, form).store, username, postId);
            && before.Show? && after.Show?
            && after.value.comments == before.value.comments + [Comment(s.nextCommentId, postId, u, form.text, s.clock)]
  {
    var t := AddComment(s, Some(u), username, postId, form).store;
    var c := Comment(s.nextCommentId, postId, u, form.text, s.clock);
    assert t.comments == s.comments + [c];
    assert t.posts == s.posts && t.users == s.users;
    FilterAppend(s.comments, c, OnPost(postId));
  }

  // ---------------------------------------------------------------------------
  // Listings

  /** Every listing view shows its posts newest first. */
  lemma ListingsNewestFirst(s: Store, slug: string, u: UserName, v: UserName)
    requires Valid(s)
    ensures NewestFirst(IndexFeed(s))
    ensures GroupPosts(s, slug).Show? ==> NewestFirst(GroupPosts(s, slug).value.posts)
    ensures NewestFirst(AuthorPosts(s, u))
    ensures NewestFirst(FollowIndex(s, Some(v)).value)
  {
    var all := Listing(s.posts);
    assert NewestFirst(all);
    var found := Find(s.groups, WithSlug(slug));
    if found.Some? {
      FilterPairwise(all, InGroup(found.value.id), Newer);
    }
    FilterPairwise(all, ByAuthor(u), Newer);
    FilterPairwise(all, FollowedBy(s.follows, v), Newer);
  }

  /** Two rows of the groups table with the same slug are the same row. */
  lemma SlugsIdentifyGroups(s: Store)
    requires GroupsOk(s)
    ensures forall i, j :: 0 <= i < |s.groups| && 0 <= j < |s.groups| && s.groups[i].slug == s.groups[j].slug ==> i == j
  {
    forall i, j | 0 <= i < |s.groups| && 0 <= j < |s.groups| && s.groups[i].slug == s.groups[j].slug
      ensures i == j
    {
      assert i < j ==> Unclashing(s.groups[i], s.groups[j]);
      assert j < i ==> Unclashing(s.groups[j], s.groups[i]);
    }
  }

  /** A slug names at most one group, so the group feed is that group's. */
  lemma GroupPostsPicksTheSlugsGroup(s: Store, g: Group)
    requires Valid(s) && g in s.groups
    ensures GroupPosts(s, g.slug) == Show(GroupPage(g, Filter(Listing(s.posts), InGroup(g.id))))
  {
    var h := Find(s.groups, WithSlug(g.slug)).value;
    var i :| 0 <= i < |s.groups| && s.groups[i] == g;
    var j :| 0 <= j < |s.groups| && s.groups[j] == h;
    SlugsIdentifyGroups(s);
  }

  /** Thirteen posts: the global feed has two pages, of ten and three. */
  lemma ThirteenPostsIndex(s: Store)
    requires |s.posts| == 13
    ensures NumPages(|IndexFeed(s)|) == 2
    ensures |Page(IndexFeed(s), 1)| == 10 && |Page(IndexFeed(s), 2)| == 3
  {
    ThirteenItems(IndexFeed(s));
  }

  /** The index feed's pages, read in turn, are the whole feed. */
  lemma IndexPagesCoverFeed(s: Store)
    ensures FirstPages(IndexFeed(s), NumPages(|IndexFeed(s)|)) == IndexFeed(s)
  {
    PagesCoverListing(IndexFeed(s));
  }

  // ---------------------------------------------------------------------------
  // Deletion

  /** After a post is deleted its page is gone and no comment refers to it. */
  lemma DeletedPostGone(s: Store, username: UserName, postId: nat)
    ensures var t := DeletePost(s, postId);
            && PostDetail(t, username, postId).Missing?
            && forall c :: c in t.comments ==> c.post != postId
  {
  }

  /**
    After a user is deleted their profile is gone, no feed shows their posts,
    nobody follows them any more, and they follow nobody.
   */
  lemma DeletedUserGone(s: Store, u: UserName, v: UserName)
    ensures var t := DeleteUser(s, u);
            && Profile(t, Some(v), u).Missing?
            && (forall p :: p in IndexFeed(t) ==> p.author != u)
            && !Following(t, Some(v), u)
            && FollowIndex(t, Some(u)) == Show([])
            && (forall f :: f in t.follows ==> f.user != u && f.author != u)
  {
    var t := DeleteUser(s, u);
    FilterNone(Listing(t.posts), FollowedBy(t.follows, u));
  }

  /** After a group is deleted its slug leads nowhere, and no post was lost. */
  lemma DeletedGroupGone(s: Store, g: Group)
    requires Valid(s) && g in s.groups
    ensures var t := DeleteGroup(s, g.id);
            && GroupPosts(t, g.slug).Missing?
            && |IndexFeed(t)| == |IndexFeed(s)|
            && forall p :: p in s.posts ==> Unlink(p, g.id) in IndexFeed(t)
  {
    var t := DeleteGroup(s, g.id);
    SlugsIdentifyGroups(s);
    forall h | h in t.groups ensures h.slug != g.slug {
      var i :| 0 <= i < |s.groups| && s.groups[i] == g;
      var j :| 0 <= j < |s.groups| && s.groups[j] == h;
      assert i != j;
    }
    forall p | p in s.posts ensures Unlink(p, g.id) in IndexFeed(t) {
      var i :| 0 <= i < |s.posts| && s.posts[i] == p;
      assert t.posts[i] == Unlink(p, g.id);
      assert t.posts[i] in t.posts;
    }
  }
}
