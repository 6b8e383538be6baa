/**
 * Properties that relate several operations: the listings against the
 * detail page, comment counts against the writes that change them,
 * pagination against the listing it cuts up, and the cascades of deleting
 * a category or a user.
 */
module Properties {
  import opened Tables
  import opened Models
  import opened Views

  // ---------------------------------------------------------------------
  // Detail visibility.

  /** The author sees their own post whatever its flag, date or category. */
  lemma AuthorAlwaysSeesOwnPost(
    posts: seq<Post>, categories: seq<Category>, comments: seq<Comment>, p: Post, now: int)
    requires DistinctBy(posts, PostKey) && p in posts
    ensures PostDetail(posts, categories, comments, Some(p.author), p.id, now) == Shown(p, PostComments(comments, p.id))
    ensures PostDetailAsWritten(posts, categories, comments, Some(p.author), p.id, now) == Shown(p, PostComments(comments, p.id))
  {
  }

  /** A post dated in the future is hidden from everyone but its author until its date comes. */
  lemma ScheduledPostHiddenUntilDue(
    posts: seq<Post>, categories: seq<Category>, comments: seq<Comment>,
    p: Post, requester: Requester, now: int)
    requires DistinctBy(posts, PostKey) && p in posts
    requires requester != Some(p.author) && now < p.pubDate
    ensures PostDetail(posts, categories, comments, requester, p.id, now) == DetailNotFound
    ensures PostDetailAsWritten(posts, categories, comments, requester, p.id, now) == DetailNotFound
    ensures PostDetail(posts, categories, comments, requester, p.id, p.pubDate).Shown? <==>
      p.isPublished && CategoryPublished(p.category, categories)
  {
  }

  lemma InMultiset<T>(s: seq<T>, x: T)
    requires multiset(s)[x] > 0
    ensures x in s
  {
    assert x in multiset(s);
  }

  /** Every post on the index opens for every requester. */
  lemma {:induction false} IndexPostIsViewable(
    posts: seq<Post>, categories: seq<Category>, comments: seq<Comment>,
    now: int, k: nat, requester: Requester)
    requires DistinctBy(posts, PostKey)
    requires k < |Index(posts, categories, comments, now)|
    ensures var p := Index(posts, categories, comments, now)[k].post;
      PostDetail(posts, categories, comments, requester, p.id, now) == Shown(p, PostComments(comments, p.id))
  {
    var r := Index(posts, categories, comments, now);
    var p := r[k].post;
    assert PostsOf(r)[k] == p;
    assert multiset(PostsOf(r))[p] > 0;
    InMultiset(posts, p);
  }

  /** Every post on a category page opens for every requester. */
  lemma {:induction false} CategoryPostIsViewable(
    categories: seq<Category>, posts: seq<Post>, comments: seq<Comment>,
    slug: string, now: int, k: nat, requester: Requester)
    requires DistinctBy(posts, PostKey)
    requires DistinctBy(categories, CategoryKey) && DistinctBy(categories, SlugKey)
    requires CategoryPosts(categories, posts, comments, slug, now).Some?
    requires k < |CategoryPosts(categories, posts, comments, slug, now).value.posts|
    ensures var p := CategoryPosts(categories, posts, comments, slug, now).value.posts[k].post;
      PostDetail(posts, categories, comments, requester, p.id, now) == Shown(p, PostComments(comments, p.id))
  {
    var page := CategoryPosts(categories, posts, comments, slug, now).value;
    var p := page.posts[k].post;
    assert PostsOf(page.posts)[k] == p;
    assert multiset(PostsOf(page.posts))[p] > 0;
    InMultiset(posts, p);
    var i :| 0 <= i < |categories| && categories[i] == page.category;
    FindUnique(categories, CategoryKey, i);
  }

  /**
   * The index compares dates strictly and the category page does not: a
   * published post in a published category, dated exactly `now`, is on its
   * category page and not on the index.
   */
  lemma {:induction false} PostDatedNowOnlyOnCategoryPage(
    categories: seq<Category>, posts: seq<Post>, comments: seq<Comment>,
    c: Category, p: Post, now: int)
    requires DistinctBy(categories, CategoryKey) && DistinctBy(categories, SlugKey)
    requires c in categories && c.isPublished
    requires p in posts && p.isPublished && p.pubDate == now && p.category == Some(c.id)
    ensures p !in PostsOf(Index(posts, categories, comments, now))
    ensures CategoryPosts(categories, posts, comments, c.slug, now).Some?
    ensures p in PostsOf(CategoryPosts(categories, posts, comments, c.slug, now).value.posts)
  {
    var page := CategoryPosts(categories, posts, comments, c.slug, now);
    var i :| 0 <= i < |categories| && categories[i] == c;
    FindUnique(categories, SlugKey, i);
    assert multiset(posts)[p] > 0;
    assert multiset(PostsOf(page.value.posts))[p] > 0;
    InMultiset(PostsOf(page.value.posts), p);
    assert multiset(PostsOf(Index(posts, categories, comments, now)))[p] == 0;
  }

  /** The profile page lists every post by that user, drafts and future posts included. */
  lemma {:induction false} ProfileListsEveryPostOfItsUser(
    users: seq<User>, posts: seq<Post>, comments: seq<Comment>, u: User, p: Post)
    requires DistinctBy(users, UserKey) && DistinctBy(users, UsernameKey)
    requires u in users && p in posts && p.author == u.id
    ensures Profile(users, posts, comments, u.username).Some?
    ensures p in PostsOf(Profile(users, posts, comments, u.username).value.posts)
  {
    var page := Profile(users, posts, comments, u.username);
    var i :| 0 <= i < |users| && users[i] == u;
    FindUnique(users, UsernameKey, i);
    assert page.value.profile == u by {
      var j :| 0 <= j < |users| && users[j] == page.value.profile;
    }
    assert multiset(posts)[p] > 0;
    InMultiset(PostsOf(page.value.posts), p);
  }

  // ---------------------------------------------------------------------
  // The failure on a post without a category.

  /**
   * A published, past-dated post with no category, asked for by anyone but
   * its author: the view as written fails, the intended view says not-found.
   */
  lemma UncategorisedPostFailsDetail(
    posts: seq<Post>, categories: seq<Category>, comments: seq<Comment>,
    p: Post, requester: Requester, now: int)
    requires DistinctBy(posts, PostKey) && p in posts
    requires requester != Some(p.author) && p.isPublished && p.pubDate <= now && p.category == None
    ensures PostDetailAsWritten(posts, categories, comments, requester, p.id, now) == ServerError
    ensures PostDetail(posts, categories, comments, requester, p.id, now) == DetailNotFound
  {
  }

  /** A concrete case: one published post without a category, opened by an anonymous visitor. */
  lemma UncategorisedPostWitness()
    ensures var posts := [Post(1, 7, "Hello", "text", 0, true, None, None)];
      && PostDetailAsWritten(posts, [], [], None, 1, 0) == ServerError
      && PostDetail(posts, [], [], None, 1, 0) == DetailNotFound
  {
    var posts := [Post(1, 7, "Hello", "text", 0, true, None, None)];
    assert posts[0] in posts;
  }

  /**
   * The failure is reachable from a consistent store: deleting a category
   * nulls its posts' references, and a published past post that was in it
   * then fails for every requester but its author.
   */
  lemma {:induction false} CategoryDeletionExposesFailure(
    categories: seq<Category>, posts: seq<Post>, comments: seq<Comment>,
    cid: CategoryId, i: nat, requester: Requester, now: int)
    requires DistinctBy(posts, PostKey) && i < |posts|
    requires posts[i].category == Some(cid) && posts[i].isPublished && posts[i].pubDate <= now
    requires requester != Some(posts[i].author)
    ensures DistinctBy(ClearCategory(posts, cid), PostKey)
    ensures PostDetailAsWritten(ClearCategory(posts, cid), Filter(categories, NotCategory(cid)), comments,
                                requester, posts[i].id, now) == ServerError
  {
    var after := ClearCategory(posts, cid);
    assert forall k :: 0 <= k < |after| ==> after[k].id == posts[k].id;
    assert after[i] in after;
  }

  /** Everywhere else the two views agree. */
  lemma DetailAgreesExceptOnFailure(
    posts: seq<Post>, categories: seq<Category>, comments: seq<Comment>,
    requester: Requester, pk: PostId, now: int)
    requires DistinctBy(posts, PostKey)
    ensures var r := PostDetailAsWritten(posts, categories, comments, requester, pk, now);
      r != ServerError ==> r == PostDetail(posts, categories, comments, requester, pk, now)
  {
    match Find(posts, PostKey, pk)
    case None =>
    case Some(i) =>
      assert posts[i] in posts;
  }

  // ---------------------------------------------------------------------
  // Comment counts.

  /** Adding a comment raises the count of its post by one and of no other post. */
  lemma {:induction false} CommentCountAfterAdd(comments: seq<Comment>, c: Comment, pid: PostId)
    ensures CommentCount(comments + [c], pid) == CommentCount(comments, pid) + (if c.post == pid then 1 else 0)
  {
    FilterAppend(comments, [c], OnPost(pid));
    assert Filter([c], OnPost(pid)) == Filter([], OnPost(pid)) + (if c.post == pid then [c] else []) by {
      assert [c][1..] == [];
    }
  }

  /** The positions of the comments on post `pid`. */
  ghost function CommentsOn(comments: seq<Comment>, pid: PostId): set<int>
  {
    set i | 0 <= i < |comments| && comments[i].post == pid
  }

  /** `num_comments` is the number of comments whose post is `pid`. */
  lemma {:induction false} CommentCountIsNumberOfComments(comments: seq<Comment>, pid: PostId)
    ensures CommentCount(comments, pid) == |CommentsOn(comments, pid)|
  {
    if comments == [] {
      assert CommentsOn(comments, pid) == {};
    } else {
      var s := comments[..|comments| - 1];
      var c := comments[|comments| - 1];
      assert comments == s + [c];
      CommentCountIsNumberOfComments(s, pid);
      CommentCountAfterAdd(s, c, pid);
      if c.post == pid {
        assert CommentsOn(comments, pid) == CommentsOn(s, pid) + {|s|};
        assert |s| !in CommentsOn(s, pid);
      } else {
        assert CommentsOn(comments, pid) == CommentsOn(s, pid);
      }
    }
  }

  /** Deleting a post takes its count to nothing and leaves every other post's count alone. */
  lemma {:induction false} CommentCountAfterPostDeletion(comments: seq<Comment>, pid: PostId, q: PostId)
    ensures CommentCount(Filter(comments, NotOnPost(pid)), q) == if q == pid then 0 else CommentCount(comments, q)
  {
    var kept := Filter(comments, NotOnPost(pid));
    if q != pid {
      var a := Filter(kept, OnPost(q));
      var b := Filter(comments, OnPost(q));
      assert forall x :: multiset(a)[x] == multiset(b)[x];
      assert multiset(a) == multiset(b);
      assert |a| == |multiset(a)| == |multiset(b)| == |b|;
    }
  }

  // ---------------------------------------------------------------------
  // Pagination.

  /** Row `i` of a listing is row `i % PAGE_SIZE` of page `i / PAGE_SIZE`. */
  lemma PageHoldsRow<T>(items: seq<T>, i: nat)
    requires i < |items|
    ensures i % PAGE_SIZE < |Page(items, i / PAGE_SIZE)|
    ensures Page(items, i / PAGE_SIZE)[i % PAGE_SIZE] == items[i]
  {
    assert PAGE_SIZE * (i / PAGE_SIZE) + i % PAGE_SIZE == i;
  }

  // ---------------------------------------------------------------------
  // Cascades.

  /**
   * Deleting a user keeps exactly the comments that neither they wrote nor
   * sit on a post they wrote.
   */
  lemma UserDeletionKeepsExactly(posts: seq<Post>, comments: seq<Comment>, uid: UserId, c: Comment)
    ensures c in Filter(comments, SurvivesUser(uid, PostsBy(posts, uid))) <==>
      c in comments && c.author != uid && forall p :: p in posts && p.id == c.post ==> p.author != uid
  {
  }

  /** Deleting a category keeps every post, and a post loses only a reference to that category. */
  lemma CategoryDeletionKeepsPosts(posts: seq<Post>, cid: CategoryId, p: Post)
    requires p in posts
    ensures p.category != Some(cid) ==> p in ClearCategory(posts, cid)
    ensures p.category == Some(cid) ==> p.(category := None) in ClearCategory(posts, cid)
  {
    var i :| 0 <= i < |posts| && posts[i] == p;
    assert ClearCategory(posts, cid)[i] in ClearCategory(posts, cid);
  }
}
