/**
  The `posts` views as functions of the store. A mutating view maps a store
  and a request to a new store and an outcome tag. The listing views `index`
  and `follow_index` return the ordered posts they hand to the paginator;
  `group_posts` and `profile` return a page record holding the group or
  author and the ordered posts (and, for a profile, the post count and the
  `following` flag); `post_view` has no paginator and returns the post, its
  author's post count and its comments. Pagination itself is in module
  Paging. The requester is `None` for an anonymous visitor.
 */
module Views {
  import opened Seqs
  import opened Models

  datatype Route = IndexRoute | PostRoute(username: UserName, postId: nat) | ProfileRoute(username: UserName)

  /**
    How a mutating view answers: a rendered page (the form again), a redirect,
    a 404, or the `login_required` redirect to the login page.
   */
  datatype Outcome = Rendered | RedirectTo(to: Route) | NotFound | LoginRedirect

  datatype Response = Response(store: Store, outcome: Outcome)

  /** How a reading view answers: the page context, a 404, or the login redirect. */
  datatype View<T> = Show(value: T) | Missing | NeedLogin

  /** A bound `PostForm`; `valid` abstracts the framework's field validation. */
  datatype PostForm = PostForm(valid: bool, text: string, group: Option<nat>, image: Option<ImageRef>)

  /** A bound `CommentForm`: only the text is taken from the submission. */
  datatype CommentForm = CommentForm(valid: bool, text: string)

  /** `form.is_valid()`; the group choice field only accepts an existing group. */
  predicate Accepts(s: Store, form: PostForm) {
    form.valid && (form.group.Some? ==> form.group.value in GroupIds(s))
  }

  /** `get_object_or_404(User, username=u)` followed by `get_object_or_404(author.posts.all(), pk=pid)`. */
  function FindPost(s: Store, u: UserName, pid: nat): (r: Option<Post>)
    ensures r.Some? ==> r.value in s.posts && r.value.author == u && r.value.id == pid
    ensures r.None? <==> u !in s.users || forall p :: p in s.posts ==> !(p.author == u && p.id == pid)
  {
    if u !in s.users then None else Find(s.posts, ByAuthorWithId(u, pid))
  }

  // ---------------------------------------------------------------------------
  // Mutating views

  /** `new_post`: the saved post's author is always the requester. */
  function NewPost(s: Store, requester: Option<UserName>, form: PostForm): (r: Response)
    ensures requester.None? ==> r == Response(s, LoginRedirect)
    ensures requester.Some? && !Accepts(s, form) ==> r == Response(s, Rendered)
    ensures requester.Some? && Accepts(s, form) ==>
      && r.outcome == RedirectTo(IndexRoute)
      && |r.store.posts| == |s.posts| + 1
      && r.store.posts[..|s.posts|] == s.posts
      && (var p := r.store.posts[|s.posts|];
          && p.author == requester.value
          && p.text == form.text && p.group == form.group && p.image == form.image
          && p.id == s.nextPostId && p.pubSeq == s.clock)
      && r.store.(posts := s.posts, nextPostId := s.nextPostId, clock := s.clock) == s
      && r.store.nextPostId > s.nextPostId && r.store.clock > s.clock
  {
    match requester
    case None => Response(s, LoginRedirect)
    case Some(u) =>
      if !Accepts(s, form) then Response(s, Rendered)
      else
        var p := Post(s.nextPostId, form.text, s.clock, u, form.group, form.image);
        Response(s.(posts := s.posts + [p], nextPostId := s.nextPostId + 1, clock := s.clock + 1),
                 RedirectTo(IndexRoute))
  }

  /** What `PostForm(instance=p).save()` writes: text, group and image. */
  function Edited(p: Post, form: PostForm): (r: Post)
    ensures r.id == p.id && r.pubSeq == p.pubSeq && r.author == p.author
    ensures r.text == form.text && r.group == form.group && r.image == form.image
  {
    p.(text := form.text, group := form.group, image := form.image)
  }

  /** `post_edit`: only the author may change the post; anyone else is sent to the post unchanged. */
  function PostEdit(s: Store, requester: Option<UserName>, username: UserName, postId: nat, form: PostForm): (r: Response)
    ensures requester.None? ==> r == Response(s, LoginRedirect)
    ensures requester.Some? && FindPost(s, username, postId).None? ==> r == Response(s, NotFound)
    ensures requester.Some? && requester.value != username && FindPost(s, username, postId).Some? ==>
      r == Response(s, RedirectTo(PostRoute(username, postId)))
    ensures requester == Some(username) && FindPost(s, username, postId).Some? && !Accepts(s, form) ==>
      r == Response(s, Rendered)
    ensures requester == Some(username) && FindPost(s, username, postId).Some? && Accepts(s, form) ==>
      && r.outcome == RedirectTo(PostRoute(username, postId))
      && |r.store.posts| == |s.posts|
      && (forall i :: 0 <= i < |s.posts| ==>
            && r.store.posts[i].id == s.posts[i].id
            && r.store.posts[i].author == s.posts[i].author
            && r.store.posts[i].pubSeq == s.posts[i].pubSeq
            && (s.posts[i].id != postId ==> r.store.posts[i] == s.posts[i])
            && (s.posts[i].id == postId ==>
                  r.store.posts[i].text == form.text
                  && r.store.posts[i].group == form.group
                  && r.store.posts[i].image == form.image))
      && r.store.(posts := s.posts) == s
  {
    match requester
    case None => Response(s, LoginRedirect)
    case Some(u) =>
      if FindPost(s, username, postId).None? then Response(s, NotFound)
      else if username != u then Response(s, RedirectTo(PostRoute(username, postId)))
      else if !Accepts(s, form) then Response(s, Rendered)
      else
        var posts := seq(|s.posts|, i requires 0 <= i < |s.posts| =>
                           if s.posts[i].id == postId then Edited(s.posts[i], form) else s.posts[i]);
        Response(s.(posts := posts), RedirectTo(PostRoute(username, postId)))
  }

  /** `add_comment`: the comment's author is the requester and its post the one the URL names. */
  function AddComment(s: Store, requester: Option<UserName>, username: UserName, postId: nat, form: CommentForm): (r: Response)
    ensures requester.None? ==> r == Response(s, LoginRedirect)
    ensures requester.Some? && FindPost(s, username, postId).None? ==> r == Response(s, NotFound)
    ensures requester.Some? && FindPost(s, username, postId).Some? && !form.valid ==>
      r == Response(s, RedirectTo(PostRoute(username, postId)))
    ensures requester.Some? && FindPost(s, username, postId).Some? && form.valid ==>
      && r.outcome == RedirectTo(PostRoute(username, postId))
      && |r.store.comments| == |s.comments| + 1
      && r.store.comments[..|s.comments|] == s.comments
      && (var c := r.store.comments[|s.comments|];
          && c.author == requester.value && c.post == postId && c.text == form.text
          && c.id == s.nextCommentId && c.created == s.clock)
      && r.store.(comments := s.comments, nextCommentId := s.nextCommentId, clock := s.clock) == s
      && r.store.nextCommentId > s.nextCommentId && r.store.clock > s.clock
  {
    match requester
    case None => Response(s, LoginRedirect)
    case Some(u) =>
      match FindPost(s, username, postId)
      case None => Response(s, NotFound)
      case Some(p) =>
        if !form.valid then Response(s, RedirectTo(PostRoute(username, postId)))
        else
          var c := Comment(s.nextCommentId, p.id, u, form.text, s.clock);
          Response(s.(comments := s.comments + [c], nextCommentId := s.nextCommentId + 1, clock := s.clock + 1),
                   RedirectTo(PostRoute(username, postId)))
  }

  /** `profile_follow`: get-or-create the edge, except that following oneself does nothing. */
  function ProfileFollow(s: Store, requester: Option<UserName>, username: UserName): (r: Response)
    ensures requester.None? ==> r == Response(s, LoginRedirect)
    ensures requester.Some? && username !in s.users ==> r == Response(s, NotFound)
    ensures requester.Some? && username in s.users ==> r.outcome == RedirectTo(ProfileRoute(username))
    ensures requester == Some(username) ==> r.store == s
    ensures requester.Some? && Follow(requester.value, username) in s.follows ==> r.store == s
    ensures requester.Some? && requester.value != username && username in s.users ==>
      && (forall f :: f in r.store.follows <==> f in s.follows || f == Follow(requester.value, username))
      && |r.store.follows| == |s.follows| + (if Follow(requester.value, username) in s.follows then 0 else 1)
      && r.store.(follows := s.follows) == s
  {
    match requester
    case None => Response(s, LoginRedirect)
    case Some(u) =>
      if username !in s.users then Response(s, NotFound)
      else if u == username then Response(s, RedirectTo(ProfileRoute(username)))
      else
        var edge := Follow(u, username);
        var s' := if edge in s.follows then s else InsertFollow(s, edge).value;
        Response(s', RedirectTo(ProfileRoute(username)))
  }

  /** `profile_unfollow`: delete whatever rows hold the edge; none is not an error. */
  function ProfileUnfollow(s: Store, requester: Option<UserName>, username: UserName): (r: Response)
    ensures requester.None? ==> r == Response(s, LoginRedirect)
    ensures requester.Some? && username !in s.users ==> r == Response(s, NotFound)
    ensures requester.Some? && username in s.users ==>
      && r.outcome == RedirectTo(ProfileRoute(username))
      && (forall f :: f in r.store.follows <==> f in s.follows && f != Follow(requester.value, username))
      && |r.store.follows| == |s.follows| - multiset(s.follows)[Follow(requester.value, username)]
      && multiset(r.store.follows) == multiset(s.follows)[Follow(requester.value, username) := 0]
      && r.store.(follows := s.follows) == s
      && (Follow(requester.value, username) !in s.follows ==> r.store == s)
  {
    match requester
    case None => Response(s, LoginRedirect)
    case Some(u) =>
      if username !in s.users then Response(s, NotFound)
      else Response(s.(follows := Remove(s.follows, Follow(u, username))), RedirectTo(ProfileRoute(username)))
  }

  // ---------------------------------------------------------------------------
  // Reading views

  /** `index`: every post. */
  function IndexFeed(s: Store): (r: seq<Post>)
    ensures multiset(r) == multiset(s.posts)
    ensures Chronological(s.posts) ==> NewestFirst(r)
  {
    Listing(s.posts)
  }

  datatype GroupPage = GroupPage(group: Group, posts: seq<Post>)

  function WithSlug(slug: string): Group -> bool {
    (g: Group) => g.slug == slug
  }

  /** `group_posts`: the group named by the slug, and its posts only. */
  function GroupPosts(s: Store, slug: string): (r: View<GroupPage>)
    ensures r.Missing? <==> forall g :: g in s.groups ==> g.slug != slug
    ensures !r.NeedLogin?
    ensures r.Show? ==>
      && r.value.group in s.groups && r.value.group.slug == slug
      && forall p :: p in r.value.posts <==> p in s.posts && p.group == Some(r.value.group.id)
  {
    match Find(s.groups, WithSlug(slug))
    case None => Missing
    case Some(g) => Show(GroupPage(g, Filter(Listing(s.posts), InGroup(g.id))))
  }

  /** `author.posts.all()`, newest first. */
  function AuthorPosts(s: Store, u: UserName): (r: seq<Post>)
    ensures forall p :: p in r <==> p in s.posts && p.author == u
  {
    Filter(Listing(s.posts), ByAuthor(u))
  }

  /**
    The profile's `following` flag. An anonymous viewer gets the initial
    `True`; a signed-in viewer gets whether the edge exists.
   */
  function Following(s: Store, viewer: Option<UserName>, author: UserName): (r: bool)
    ensures viewer.None? ==> r
    ensures viewer.Some? ==> (r <==> Follow(viewer.value, author) in s.follows)
  {
    match viewer
    case None => true
    case Some(v) => Follow(v, author) in s.follows
  }

  datatype ProfilePage = ProfilePage(author: UserName, posts: seq<Post>, count: nat, following: bool)

  /** `profile`: the author's posts, their number, and the following flag. */
  function Profile(s: Store, viewer: Option<UserName>, username: UserName): (r: View<ProfilePage>)
    ensures r.Missing? <==> username !in s.users
    ensures !r.NeedLogin?
    ensures r.Show? ==>
      && r.value.author == username
      && (forall p :: p in r.value.posts <==> p in s.posts && p.author == username)
      && r.value.posts == AuthorPosts(s, username)
      && r.value.count == |r.value.posts|
      && r.value.following == Following(s, viewer, username)
  {
    if username !in s.users then Missing
    else
      var posts := AuthorPosts(s, username);
      Show(ProfilePage(username, posts, |posts|, Following(s, viewer, username)))
  }

  datatype PostPage = PostPage(post: Post, count: nat, comments: seq<Comment>)

  /** `post_view`: one post, its author's post count, and its comments in saving order. */
  function PostDetail(s: Store, username: UserName, postId: nat): (r: View<PostPage>)
    ensures r.Missing? <==> FindPost(s, username, postId).None?
    ensures !r.NeedLogin?
    ensures r.Show? ==>
      && r.value.post in s.posts && r.value.post.author == username && r.value.post.id == postId
      && r.value.count == |AuthorPosts(s, username)|
      && forall c :: c in r.value.comments <==> c in s.comments && c.post == postId
  {
    match FindPost(s, username, postId)
    case None => Missing
    case Some(p) => Show(PostPage(p, |AuthorPosts(s, username)|, Filter(s.comments, OnPost(p.id))))
  }

  /** `follow_index`: the posts of every author the viewer follows. */
  function FollowIndex(s: Store, viewer: Option<UserName>): (r: View<seq<Post>>)
    ensures r.NeedLogin? <==> viewer.None?
    ensures !r.Missing?
    ensures r.Show? ==> forall p :: p in r.value <==> p in s.posts && Follow(viewer.value, p.author) in s.follows
  {
    match viewer
    case None => NeedLogin
    case Some(v) => Show(Filter(Listing(s.posts), FollowedBy(s.follows, v)))
  }
}
