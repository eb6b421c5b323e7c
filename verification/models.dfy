/**
  The records of the `posts` application (groups, posts, comments, follow
  edges) held in one immutable store, and the rules the model declarations
  put on them: unique slugs, one follow row per pair, newest-first ordering,
  the `__str__` renderings, and what deleting a row does to the rows that
  refer to it.
 */
module Models {
  import opened Seqs

  /** Users are identified by their (unique) username. */
  type UserName = string

  /** The stored name of an uploaded image; its content is never inspected. */
  type ImageRef = string

  /** How many characters of a post's text its `__str__` shows. */
  const TitleLength := 15

  datatype Group = Group(id: nat, title: string, slug: string, description: string)

  /** `pubSeq` stands for `pub_date`: a stamp taken from the store's clock when the row is saved. */
  datatype Post = Post(
    id: nat,
    text: string,
    pubSeq: nat,
    author: UserName,
    group: Option<nat>,
    image: Option<ImageRef>)

  datatype Comment = Comment(id: nat, post: nat, author: UserName, text: string, created: nat)

  /** The edge "user follows author". */
  datatype Follow = Follow(user: UserName, author: UserName)

  /**
    The database. Tables are kept in insertion order; `next*` are the next
    auto-increment keys and `clock` the next creation stamp.
   */
  datatype Store = Store(
    users: set<UserName>,
    groups: seq<Group>,
    posts: seq<Post>,
    comments: seq<Comment>,
    follows: seq<Follow>,
    nextGroupId: nat,
    nextPostId: nat,
    nextCommentId: nat,
    clock: nat)

  // ---------------------------------------------------------------------------
  // String renderings

  /** `Post.__str__`: the first fifteen characters of the text. */
  function PostStr(p: Post): (r: string)
    ensures r <= p.text
    ensures |r| <= TitleLength
    ensures |p.text| <= TitleLength ==> r == p.text
    ensures |p.text| >= TitleLength ==> |r| == TitleLength
  {
    if |p.text| <= TitleLength then p.text else p.text[..TitleLength]
  }

  /** `Group.__str__`: the title, never shortened. */
  function GroupStr(g: Group): (r: string)
    ensures r == g.title
  {
    g.title
  }

  // ---------------------------------------------------------------------------
  // Orderings

  /** `a` was saved before `b`: smaller primary key and earlier stamp. */
  predicate Older(a: Post, b: Post) {
    a.id < b.id && a.pubSeq < b.pubSeq
  }

  /** `a` was published after `b`. */
  predicate Newer(a: Post, b: Post) {
    a.pubSeq > b.pubSeq
  }

  /** `a` was saved before `b`: smaller primary key and earlier stamp. */
  predicate OlderComment(a: Comment, b: Comment) {
    a.id < b.id && a.created < b.created
  }

  /** Two group rows satisfy the primary-key and `slug` uniqueness constraints. */
  predicate Unclashing(a: Group, b: Group) {
    a.id != b.id && a.slug != b.slug
  }

  /** A table of posts in the order they were saved. */
  ghost predicate Chronological(posts: seq<Post>) {
    Pairwise(posts, Older)
  }

  /** A listing in the order `Meta.ordering = ('-pub_date',)` asks for. */
  ghost predicate NewestFirst(posts: seq<Post>) {
    Pairwise(posts, Newer)
  }

  lemma ReverseChronological(posts: seq<Post>)
    ensures Chronological(posts) ==> NewestFirst(Reverse(posts))
  {
    if Chronological(posts) {
      var r := Reverse(posts);
      var n := |posts|;
      forall i, j | 0 <= i < j < n ensures Newer(r[i], r[j]) {
        assert Older(posts[n - 1 - j], posts[n - 1 - i]);
      }
    }
  }

  /**
    Every posts queryset, ordered by descending `pub_date`. The table is kept
    in saving order, so the ordered listing is the table read backwards.
   */
  function Listing(posts: seq<Post>): (r: seq<Post>)
    ensures multiset(r) == multiset(posts)
    ensures forall p :: p in r <==> p in posts
    ensures Chronological(posts) ==> NewestFirst(r)
  {
    ReverseChronological(posts);
    Reverse(posts)
  }

  // ---------------------------------------------------------------------------
  // Queryset filters, as named predicates so that every use denotes the same filter

  function InGroup(gid: nat): Post -> bool {
    (p: Post) => p.group == Some(gid)
  }

  function ByAuthor(u: UserName): Post -> bool {
    (p: Post) => p.author == u
  }

  /** `author.posts.all()` narrowed to primary key `pid`. */
  function ByAuthorWithId(u: UserName, pid: nat): Post -> bool {
    (p: Post) => p.author == u && p.id == pid
  }

  /** Posts whose author `viewer` follows (`author__following__user=viewer`). */
  function FollowedBy(follows: seq<Follow>, viewer: UserName): Post -> bool {
    (p: Post) => Follow(viewer, p.author) in follows
  }

  function OnPost(pid: nat): Comment -> bool {
    (c: Comment) => c.post == pid
  }

  // ---------------------------------------------------------------------------
  // Invariants

  function GroupIds(s: Store): set<nat> {
    set g | g in s.groups :: g.id
  }

  function PostIds(s: Store): set<nat> {
    set p | p in s.posts :: p.id
  }

  /** `slug = SlugField(unique=True)`, unique keys below the next key. */
  ghost predicate GroupsOk(s: Store) {
    && Pairwise(s.groups, Unclashing)
    && forall g :: g in s.groups ==> g.id < s.nextGroupId
  }

  /** Posts saved in order, each author an existing user, each group an existing group. */
  ghost predicate PostsOk(s: Store) {
    && Chronological(s.posts)
    && forall p :: p in s.posts ==>
         && p.id < s.nextPostId
         && p.pubSeq < s.clock
         && p.author in s.users
         && (p.group.Some? ==> p.group.value in GroupIds(s))
  }

  /** Comments saved in order, each on an existing post by an existing user. */
  ghost predicate CommentsOk(s: Store) {
    && Pairwise(s.comments, OlderComment)
    && forall c :: c in s.comments ==>
         && c.id < s.nextCommentId
         && c.created < s.clock
         && c.author in s.users
         && c.post in PostIds(s)
  }

  /** `UniqueConstraint(fields=('user', 'author'))`, both ends existing users. */
  ghost predicate FollowsOk(s: Store) {
    && Distinct(s.follows)
    && forall f :: f in s.follows ==> f.user in s.users && f.author in s.users
  }

  ghost predicate Valid(s: Store) {
    GroupsOk(s) && PostsOk(s) && CommentsOk(s) && FollowsOk(s)
  }

  /** No user follows themselves. The views never create such an edge; the tables allow it. */
  ghost predicate NoSelfFollow(s: Store) {
    forall f :: f in s.follows ==> f.user != f.author
  }

  /** A database holding only the given users; keys start at 1. */
  function Fresh(users: set<UserName>): (r: Store)
    ensures Valid(r) && NoSelfFollow(r)
    ensures r.users == users && r.posts == [] && r.follows == []
    ensures r.groups == [] && r.comments == []
  {
    Store(users, [], [], [], [], 1, 1, 1, 0)
  }

  // ---------------------------------------------------------------------------
  // Inserts that a uniqueness constraint can refuse

  /** `Group.objects.create`: refused when the slug is already taken. */
  function CreateGroup(s: Store, title: string, slug: string, description: string): (r: Option<Store>)
    ensures r.None? <==> exists g :: g in s.groups && g.slug == slug
    ensures r.Some? ==>
      && (forall g :: g in r.value.groups <==> g in s.groups || g == Group(s.nextGroupId, title, slug, description))
      && r.value.(groups := s.groups, nextGroupId := s.nextGroupId) == s
      && multiset(r.value.groups) == multiset(s.groups) + multiset{Group(s.nextGroupId, title, slug, description)}
      && r.value.nextGroupId > s.nextGroupId
  {
    if exists g :: g in s.groups && g.slug == slug then None
    else Some(s.(groups := s.groups + [Group(s.nextGroupId, title, slug, description)],
                 nextGroupId := s.nextGroupId + 1))
  }

  /** `Follow.objects.create`: refused when the pair already has a row. */
  function InsertFollow(s: Store, f: Follow): (r: Option<Store>)
    ensures r.None? <==> f in s.follows
    ensures r.Some? ==>
      && |r.value.follows| == |s.follows| + 1
      && (forall e :: e in r.value.follows <==> e in s.follows || e == f)
      && r.value.(follows := s.follows) == s
  {
    if f in s.follows then None else Some(s.(follows := s.follows + [f]))
  }

  // ---------------------------------------------------------------------------
  // Deletes and their on_delete effects

  function GroupIdIsNot(gid: nat): Group -> bool {
    (g: Group) => g.id != gid
  }

  /** `on_delete=SET_NULL` for one post. */
  function Unlink(p: Post, gid: nat): (r: Post)
    ensures r.group != Some(gid)
    ensures p.group == Some(gid) ==> r.group.None?
    ensures r.(group := p.group) == p
    ensures p.group != Some(gid) ==> r == p
  {
    if p.group == Some(gid) then p.(group := None) else p
  }

  /** Deleting a group nulls `group` on its posts and keeps the posts. */
  function DeleteGroup(s: Store, gid: nat): (r: Store)
    ensures forall g :: g in r.groups <==> g in s.groups && g.id != gid
    ensures |r.posts| == |s.posts|
    ensures forall i :: 0 <= i < |s.posts| ==>
      && r.posts[i].(group := None) == s.posts[i].(group := None)
      && r.posts[i].group == (if s.posts[i].group == Some(gid) then None else s.posts[i].group)
    ensures forall p :: p in r.posts ==> p.group != Some(gid)
    ensures r.(groups := s.groups, posts := s.posts) == s
  {
    var posts := seq(|s.posts|, i requires 0 <= i < |s.posts| => Unlink(s.posts[i], gid));
    s.(groups := Filter(s.groups, GroupIdIsNot(gid)), posts := posts)
  }

  function PostIdIsNot(pid: nat): Post -> bool {
    (p: Post) => p.id != pid
  }

  function CommentNotOn(pid: nat): Comment -> bool {
    (c: Comment) => c.post != pid
  }

  /** Deleting a post deletes its comments (`on_delete=CASCADE`). */
  function DeletePost(s: Store, pid: nat): (r: Store)
    ensures forall p :: p in r.posts <==> p in s.posts && p.id != pid
    ensures forall c :: c in r.comments <==> c in s.comments && c.post != pid
    ensures r.(posts := s.posts, comments := s.comments) == s
  {
    s.(posts := Filter(s.posts, PostIdIsNot(pid)), comments := Filter(s.comments, CommentNotOn(pid)))
  }

  /** Primary keys of the posts `u` wrote. */
  function PostIdsBy(s: Store, u: UserName): set<nat> {
    set p | p in s.posts && p.author == u :: p.id
  }

  function NotBy(u: UserName): Post -> bool {
    (p: Post) => p.author != u
  }

  /** A comment survives deleting `u` unless `u` wrote it or wrote the post it is on. */
  function CommentSurvives(u: UserName, gone: set<nat>): Comment -> bool {
    (c: Comment) => c.author != u && c.post !in gone
  }

  function Uninvolved(u: UserName): Follow -> bool {
    (f: Follow) => f.user != u && f.author != u
  }

  /**
    Deleting a user deletes their posts, the comments on those posts, their
    own comments, and every follow edge at either end of which they stand.
   */
  function DeleteUser(s: Store, u: UserName): (r: Store)
    ensures r.users == s.users - {u}
    ensures forall p :: p in r.posts <==> p in s.posts && p.author != u
    ensures forall c :: c in r.comments <==>
      c in s.comments && c.author != u && c.post !in PostIdsBy(s, u)
    ensures forall f :: f in r.follows <==> f in s.follows && f.user != u && f.author != u
    ensures r.(users := s.users, posts := s.posts, comments := s.comments, follows := s.follows) == s
  {
    s.(users := s.users - {u},
       posts := Filter(s.posts, NotBy(u)),
       comments := Filter(s.comments, CommentSurvives(u, PostIdsBy(s, u))),
       follows := Filter(s.follows, Uninvolved(u)))
  }
}
