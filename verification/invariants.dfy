/**
  Every write the application performs keeps the database consistent: the
  uniqueness constraints (slug, follow pair), the saving order behind
  `-pub_date`, and every foreign key resolving to an existing row.
 */
module Invariants {
  import opened Seqs
  import opened Models
  import opened Views

  /** A signed-in requester is a user of the database. */
  ghost predicate SignedIn(s: Store, requester: Option<UserName>) {
    requester.Some? ==> requester.value in s.users
  }

  lemma NewPostKeepsValid(s: Store, requester: Option<UserName>, form: PostForm)
    requires Valid(s) && SignedIn(s, requester)
    ensures Valid(NewPost(s, requester, form).store)
  {
    var t := NewPost(s, requester, form).store;
    if t != s {
      var p := t.posts[|s.posts|];
      assert t.posts == s.posts + [p];
      AppendPairwise(s.posts, p, Older);
      assert forall q :: q in s.posts ==> q in t.posts;
      assert PostIds(s) <= PostIds(t);
    }
  }

  /**
    Rewriting the posts table in place keeps the store consistent as long as
    every row keeps its key, stamp and author and names an existing group.
   */
  lemma RewrittenPostsKeepValid(s: Store, t: Store)
    requires Valid(s)
    requires t.(posts := s.posts) == s
    requires |t.posts| == |s.posts|
    requires forall i :: 0 <= i < |s.posts| ==>
      && t.posts[i].id == s.posts[i].id
      && t.posts[i].pubSeq == s.posts[i].pubSeq
      && t.posts[i].author == s.posts[i].author
      && (t.posts[i].group.Some? ==> t.posts[i].group.value in GroupIds(s))
    ensures Valid(t)
  {
    forall i, j | 0 <= i < j < |t.posts| ensures Older(t.posts[i], t.posts[j]) {
      assert Older(s.posts[i], s.posts[j]);
    }
    forall q | q in t.posts
      ensures q.id < t.nextPostId && q.pubSeq < t.clock && q.author in t.users
    {
      var i :| 0 <= i < |t.posts| && t.posts[i] == q;
      assert s.posts[i] in s.posts;
    }
    assert PostIds(t) == PostIds(s) by {
      forall x | x in PostIds(s) ensures x in PostIds(t) {
        var q :| q in s.posts && q.id == x;
        var i :| 0 <= i < |s.posts| && s.posts[i] == q;
        assert t.posts[i].id == x;
      }
      forall x | x in PostIds(t) ensures x in PostIds(s) {
        var q :| q in t.posts && q.id == x;
        var i :| 0 <= i < |t.posts| && t.posts[i] == q;
        assert s.posts[i].id == x;
      }
    }
  }

  lemma PostEditKeepsValid(s: Store, requester: Option<UserName>, username: UserName, postId: nat, form: PostForm)
    requires Valid(s)
    ensures Valid(PostEdit(s, requester, username, postId, form).store)
  {
    var t := PostEdit(s, requester, username, postId, form).store;
    if requester == Some(username) && FindPost(s, username, postId).Some? && Accepts(s, form) {
      forall i | 0 <= i < |s.posts|
        ensures t.posts[i].group.Some? ==> t.posts[i].group.value in GroupIds(s)
      {
        assert s.posts[i] in s.posts;
      }
      RewrittenPostsKeepValid(s, t);
    }
  }

  lemma AddCommentKeepsValid(s: Store, requester: Option<UserName>, username: UserName, postId: nat, form: CommentForm)
    requires Valid(s) && SignedIn(s, requester)
    ensures Valid(AddComment(s, requester, username, postId, form).store)
  {
    var t := AddComment(s, requester, username, postId, form).store;
    if t != s {
      var c := t.comments[|s.comments|];
      assert t.comments == s.comments + [c];
      AppendPairwise(s.comments, c, OlderComment);
      var p := FindPost(s, username, postId).value;
      assert p in s.posts && p.id == c.post;
    }
  }

  lemma ProfileFollowKeepsValid(s: Store, requester: Option<UserName>, username: UserName)
    requires Valid(s) && SignedIn(s, requester)
    ensures Valid(ProfileFollow(s, requester, username).store)
  {
    var t := ProfileFollow(s, requester, username).store;
    if t != s {
      var e := Follow(requester.value, username);
      assert e !in s.follows;
      assert t.follows == s.follows + [e];
      AppendDistinct(s.follows, e);
    }
  }

  /** A follow row naming two stored users keeps the store consistent. */
  lemma InsertFollowKeepsValid(s: Store, f: Follow)
    requires Valid(s) && f.user in s.users && f.author in s.users
    ensures InsertFollow(s, f).Some? ==> Valid(InsertFollow(s, f).value)
  {
    if f !in s.follows {
      AppendDistinct(s.follows, f);
    }
  }

  lemma ProfileUnfollowKeepsValid(s: Store, requester: Option<UserName>, username: UserName)
    requires Valid(s)
    ensures Valid(ProfileUnfollow(s, requester, username).store)
  {
    if requester.Some? && username in s.users {
      RemoveDistinct(s.follows, Follow(requester.value, username));
    }
  }

  lemma CreateGroupKeepsValid(s: Store, title: string, slug: string, description: string)
    requires Valid(s)
    ensures CreateGroup(s, title, slug, description).Some? ==> Valid(CreateGroup(s, title, slug, description).value)
  {
    var r := CreateGroup(s, title, slug, description);
    if r.Some? {
      var t := r.value;
      var g := Group(s.nextGroupId, title, slug, description);
      assert t.groups == s.groups + [g];
      AppendPairwise(s.groups, g, Unclashing);
      assert GroupIds(s) <= GroupIds(t);
    }
  }

  lemma DeleteGroupKeepsValid(s: Store, gid: nat)
    requires Valid(s)
    ensures Valid(DeleteGroup(s, gid))
  {
    var t := DeleteGroup(s, gid);
    FilterPairwise(s.groups, GroupIdIsNot(gid), Unclashing);
    forall i, j | 0 <= i < j < |t.posts| ensures Older(t.posts[i], t.posts[j]) {
      assert Older(s.posts[i], s.posts[j]);
    }
    forall q | q in t.posts
      ensures q.id < t.nextPostId && q.pubSeq < t.clock && q.author in t.users
      ensures q.group.Some? ==> q.group.value in GroupIds(t)
    {
      var i :| 0 <= i < |t.posts| && t.posts[i] == q;
      var p := s.posts[i];
      assert p in s.posts;
      if q.group.Some? {
        var h :| h in s.groups && h.id == q.group.value;
        assert h in t.groups;
      }
    }
    assert PostIds(t) == PostIds(s) by {
      forall x | x in PostIds(s) ensures x in PostIds(t) {
        var q :| q in s.posts && q.id == x;
        var i :| 0 <= i < |s.posts| && s.posts[i] == q;
        assert t.posts[i].id == x;
      }
      forall x | x in PostIds(t) ensures x in PostIds(s) {
        var q :| q in t.posts && q.id == x;
        var i :| 0 <= i < |t.posts| && t.posts[i] == q;
        assert s.posts[i].id == x;
      }
    }
  }

  lemma DeletePostKeepsValid(s: Store, pid: nat)
    requires Valid(s)
    ensures Valid(DeletePost(s, pid))
  {
    var t := DeletePost(s, pid);
    FilterPairwise(s.posts, PostIdIsNot(pid), Older);
    FilterPairwise(s.comments, CommentNotOn(pid), OlderComment);
    forall c | c in t.comments ensures c.post in PostIds(t) {
      var p :| p in s.posts && p.id == c.post;
      assert p in t.posts;
    }
  }

  lemma DeleteUserKeepsValid(s: Store, u: UserName)
    requires Valid(s)
    ensures Valid(DeleteUser(s, u))
  {
    var t := DeleteUser(s, u);
    FilterPairwise(s.posts, NotBy(u), Older);
    FilterPairwise(s.comments, CommentSurvives(u, PostIdsBy(s, u)), OlderComment);
    FilterDistinct(s.follows, Uninvolved(u));
    forall c | c in t.comments ensures c.post in PostIds(t) {
      var p :| p in s.posts && p.id == c.post;
      assert p.author != u;
      assert p in t.posts;
    }
  }

  // ---------------------------------------------------------------------------
  // The views never create a self-follow edge

  lemma ProfileFollowNoSelfFollow(s: Store, requester: Option<UserName>, username: UserName)
    requires NoSelfFollow(s)
    ensures NoSelfFollow(ProfileFollow(s, requester, username).store)
  {
  }

  lemma ProfileUnfollowNoSelfFollow(s: Store, requester: Option<UserName>, username: UserName)
    requires NoSelfFollow(s)
    ensures NoSelfFollow(ProfileUnfollow(s, requester, username).store)
  {
  }

  lemma DeleteUserNoSelfFollow(s: Store, u: UserName)
    requires NoSelfFollow(s)
    ensures NoSelfFollow(DeleteUser(s, u))
  {
  }
}
