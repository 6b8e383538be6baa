/**
 * Models: the blog's records (categories, locations, posts, comments and
 * the users who write them), their display strings and field defaults, and
 * the record store with the on_delete rules of the foreign keys.
 *
 * Times are integers on one clock; ids are naturals assigned by the store.
 */
module Models {
  import opened Tables

  type UserId = nat
  type CategoryId = nat
  type LocationId = nat
  type PostId = nat
  type CommentId = nat

  /** Display strings of categories and posts are cut to this many characters. */
  const LIMIT: nat := 30

  /** The longest title a post or category may have. */
  const TITLE_MAX: nat := 256

  datatype User = User(id: UserId, username: string, isStaff: bool)

  datatype Category = Category(id: CategoryId, title: string, slug: string, isPublished: bool)

  datatype Location = Location(id: LocationId, name: string, isPublished: bool)

  /** `category` and `location` are nullable foreign keys; `author` is required. */
  datatype Post = Post(
    id: PostId,
    author: UserId,
    title: string,
    text: string,
    pubDate: int,
    isPublished: bool,
    location: Option<LocationId>,
    category: Option<CategoryId>)

  datatype Comment = Comment(id: CommentId, post: PostId, author: UserId, text: string, pubDate: int)

  // Columns used as keys.
  function UserKey(u: User): UserId { u.id }
  function UsernameKey(u: User): string { u.username }
  function CategoryKey(c: Category): CategoryId { c.id }
  function SlugKey(c: Category): string { c.slug }
  function LocationKey(l: Location): LocationId { l.id }
  function PostKey(p: Post): PostId { p.id }
  function CommentKey(c: Comment): CommentId { c.id }

  /** Python's `s[:LIMIT]`: the first LIMIT characters, or all of a shorter string. */
  function Truncated(s: string): (r: string)
    ensures r <= s
    ensures |r| <= LIMIT
    ensures |s| <= LIMIT ==> r == s
    ensures |s| > LIMIT ==> |r| == LIMIT
  {
    if |s| <= LIMIT then s else s[..LIMIT]
  }

  function CategoryStr(c: Category): (r: string)
    ensures r <= c.title && |r| <= LIMIT
    ensures |c.title| <= LIMIT ==> r == c.title
    ensures |c.title| > LIMIT ==> |r| == LIMIT
  {
    Truncated(c.title)
  }

  /** Unlike the other two, a location prints its full name. */
  function LocationStr(l: Location): (r: string)
    ensures r == l.name
  {
    l.name
  }

  function PostStr(p: Post): (r: string)
    ensures r <= p.title && |r| <= LIMIT
    ensures |p.title| <= LIMIT ==> r == p.title
    ensures |p.title| > LIMIT ==> |r| == LIMIT
  {
    Truncated(p.title)
  }

  /** Meta.ordering of posts, newest first, as an ascending sort key. */
  function NewestFirst(p: Post): int { -p.pubDate }

  /** Meta.ordering of comments, oldest first. */
  function OldestFirst(c: Comment): int { c.pubDate }

  /**
   * A post built from the model's field defaults alone, before any form
   * data is applied and before the store assigns its id: published, dated
   * `now`, with no category and no location.
   */
  function PostDefaults(author: UserId, now: int): (p: Post)
    ensures p.author == author
    ensures p.isPublished && p.pubDate == now
    ensures p.category == None && p.location == None
  {
    Post(0, author, "", "", now, true, None, None)
  }

  // Row predicates for the deletions below.
  function NotUser(uid: UserId): User -> bool { (u: User) => u.id != uid }
  function NotCategory(cid: CategoryId): Category -> bool { (c: Category) => c.id != cid }
  function NotLocation(lid: LocationId): Location -> bool { (l: Location) => l.id != lid }
  function NotPost(pid: PostId): Post -> bool { (p: Post) => p.id != pid }
  function NotComment(cid: CommentId): Comment -> bool { (c: Comment) => c.id != cid }
  function NotOnPost(pid: PostId): Comment -> bool { (c: Comment) => c.post != pid }
  function NotByUser(uid: UserId): Post -> bool { (p: Post) => p.author != uid }

  /** The ids of the posts `uid` wrote. */
  function PostsBy(posts: seq<Post>, uid: UserId): (ids: set<PostId>)
    ensures forall p :: p in posts && p.author == uid ==> p.id in ids
    ensures forall id :: id in ids ==> exists p :: p in posts && p.author == uid && p.id == id
  {
    set p | p in posts && p.author == uid :: p.id
  }

  /** A comment survives deleting user `uid` unless `uid` wrote it or wrote its post. */
  function SurvivesUser(uid: UserId, doomed: set<PostId>): Comment -> bool
  {
    (c: Comment) => c.author != uid && c.post !in doomed
  }

  /** SET_NULL on `Post.category`: only references to `cid` change, and they become null. */
  function ClearCategory(posts: seq<Post>, cid: CategoryId): (r: seq<Post>)
    ensures |r| == |posts|
    ensures forall i :: 0 <= i < |r| ==> r[i] == posts[i].(category := r[i].category)
    ensures forall i :: 0 <= i < |r| ==>
      r[i].category == (if posts[i].category == Some(cid) then None else posts[i].category)
    ensures forall i :: 0 <= i < |r| && posts[i].category != Some(cid) ==> r[i] == posts[i]
  {
    seq(|posts|, i requires 0 <= i < |posts| =>
      if posts[i].category == Some(cid) then posts[i].(category := None) else posts[i])
  }

  /** SET_NULL on `Post.location`: only references to `lid` change, and they become null. */
  function ClearLocation(posts: seq<Post>, lid: LocationId): (r: seq<Post>)
    ensures |r| == |posts|
    ensures forall i :: 0 <= i < |r| ==> r[i] == posts[i].(location := r[i].location)
    ensures forall i :: 0 <= i < |r| ==>
      r[i].location == (if posts[i].location == Some(lid) then None else posts[i].location)
    ensures forall i :: 0 <= i < |r| && posts[i].location != Some(lid) ==> r[i] == posts[i]
  {
    seq(|posts|, i requires 0 <= i < |posts| =>
      if posts[i].location == Some(lid) then posts[i].(location := None) else posts[i])
  }

  /** Every foreign key of the post names an existing row. */
  ghost predicate PostRefsResolve(p: Post, users: seq<User>, categories: seq<Category>, locations: seq<Location>)
  {
    && p.author in KeySet(users, UserKey)
    && (p.category.Some? ==> p.category.value in KeySet(categories, CategoryKey))
    && (p.location.Some? ==> p.location.value in KeySet(locations, LocationKey))
  }

  ghost predicate CommentRefsResolve(c: Comment, users: seq<User>, posts: seq<Post>)
  {
    c.post in KeySet(posts, PostKey) && c.author in KeySet(users, UserKey)
  }

  /** The database's own constraints: primary keys, unique columns and foreign keys. */
  ghost predicate Consistent(
    users: seq<User>, categories: seq<Category>, locations: seq<Location>,
    posts: seq<Post>, comments: seq<Comment>)
  {
    && DistinctBy(users, UserKey) && DistinctBy(users, UsernameKey)
    && DistinctBy(categories, CategoryKey) && DistinctBy(categories, SlugKey)
    && DistinctBy(locations, LocationKey)
    && DistinctBy(posts, PostKey)
    && DistinctBy(comments, CommentKey)
    && (forall p :: p in posts ==> PostRefsResolve(p, users, categories, locations))
    && (forall c :: c in comments ==> CommentRefsResolve(c, users, posts))
  }

  /** The database: one table per model, updated in place by save() and delete(). */
  class Store {
    var users: seq<User>
    var categories: seq<Category>
    var locations: seq<Location>
    var posts: seq<Post>
    var comments: seq<Comment>
    /** The auto-increment counters of the post and comment tables. */
    var nextPostId: PostId
    var nextCommentId: CommentId

    ghost predicate Valid()
      reads this
    {
      && Consistent(users, categories, locations, posts, comments)
      && (forall p :: p in posts ==> p.id < nextPostId)
      && (forall c :: c in comments ==> c.id < nextCommentId)
    }

    /** `post.save()` on a new post: the row gets the next id and is appended. */
    method InsertPost(p: Post) returns (id: PostId)
      requires Valid()
      requires PostRefsResolve(p, users, categories, locations)
      modifies this
      ensures Valid()
      ensures id == old(nextPostId) && id !in KeySet(old(posts), PostKey)
      ensures posts == old(posts) + [p.(id := id)]
      ensures nextPostId == old(nextPostId) + 1
      ensures users == old(users) && categories == old(categories) && locations == old(locations)
      ensures comments == old(comments) && nextCommentId == old(nextCommentId)
    {
      id := nextPostId;
      var row := p.(id := id);
      assert forall q :: q in posts ==> q.id != id;
      posts := posts + [row];
      nextPostId := nextPostId + 1;
      forall c | c in comments ensures CommentRefsResolve(c, users, posts) {
        assert c.post in KeySet(old(posts), PostKey);
        var q :| q in old(posts) && q.id == c.post;
        assert q in posts;
      }
    }

    /** `post.save()` on an existing row: the row at position `i` is replaced. */
    method UpdatePost(i: nat, p: Post)
      requires Valid()
      requires i < |posts| && p.id == posts[i].id
      requires PostRefsResolve(p, users, categories, locations)
      modifies this
      ensures Valid()
      ensures posts == old(posts)[i := p]
      ensures users == old(users) && categories == old(categories) && locations == old(locations)
      ensures comments == old(comments)
      ensures nextPostId == old(nextPostId) && nextCommentId == old(nextCommentId)
    {
      ghost var before := posts;
      posts := posts[i := p];
      assert forall k :: 0 <= k < |posts| ==> posts[k].id == before[k].id;
      assert KeySet(posts, PostKey) == KeySet(before, PostKey) by {
        forall k | k in KeySet(before, PostKey) ensures k in KeySet(posts, PostKey) {
          var q :| q in before && q.id == k;
          var j :| 0 <= j < |before| && before[j] == q;
          assert posts[j] in posts;
        }
        forall k | k in KeySet(posts, PostKey) ensures k in KeySet(before, PostKey) {
          var q :| q in posts && q.id == k;
          var j :| 0 <= j < |posts| && posts[j] == q;
          assert before[j] in before;
        }
      }
      forall q | q in posts ensures q.id < nextPostId && PostRefsResolve(q, users, categories, locations) {
        var j :| 0 <= j < |posts| && posts[j] == q;
        if j != i {
          assert before[j] in before;
        }
      }
    }

    /**
     * `post.delete()`: the row goes, and with it (CASCADE on `Comment.post`)
     * exactly the comments on that post.
     */
    method DeletePost(id: PostId)
      requires Valid()
      modifies this
      ensures Valid()
      ensures posts == Filter(old(posts), NotPost(id))
      ensures comments == Filter(old(comments), NotOnPost(id))
      ensures users == old(users) && categories == old(categories) && locations == old(locations)
      ensures nextPostId == old(nextPostId) && nextCommentId == old(nextCommentId)
    {
      ghost var before := posts;
      posts := Filter(posts, NotPost(id));
      comments := Filter(comments, NotOnPost(id));
      FilterKeepsDistinct(before, NotPost(id), PostKey);
      FilterKeepsDistinct(old(comments), NotOnPost(id), CommentKey);
      forall c | c in comments ensures CommentRefsResolve(c, users, posts) {
        var q :| q in before && q.id == c.post;
        assert q in posts;
      }
    }

    /** `comment.save()` on a new comment: next id, and `pub_date` set to `now` (auto_now_add). */
    method InsertComment(c: Comment, now: int) returns (id: CommentId)
      requires Valid()
      requires CommentRefsResolve(c, users, posts)
      modifies this
      ensures Valid()
      ensures id == old(nextCommentId) && id !in KeySet(old(comments), CommentKey)
      ensures comments == old(comments) + [c.(id := id, pubDate := now)]
      ensures nextCommentId == old(nextCommentId) + 1
      ensures users == old(users) && categories == old(categories) && locations == old(locations)
      ensures posts == old(posts) && nextPostId == old(nextPostId)
    {
      id := nextCommentId;
      assert forall d :: d in comments ==> d.id != id;
      comments := comments + [c.(id := id, pubDate := now)];
      nextCommentId := nextCommentId + 1;
    }

    /** `comment.save()` on an existing row; auto_now_add leaves `pub_date` to the caller's row. */
    method UpdateComment(i: nat, c: Comment)
      requires Valid()
      requires i < |comments| && c.id == comments[i].id
      requires CommentRefsResolve(c, users, posts)
      modifies this
      ensures Valid()
      ensures comments == old(comments)[i := c]
      ensures users == old(users) && categories == old(categories) && locations == old(locations)
      ensures posts == old(posts)
      ensures nextPostId == old(nextPostId) && nextCommentId == old(nextCommentId)
    {
      ghost var before := comments;
      comments := comments[i := c];
      forall d | d in comments ensures d.id < nextCommentId && CommentRefsResolve(d, users, posts) {
        var j :| 0 <= j < |comments| && comments[j] == d;
        if j != i {
          assert before[j] in before;
        }
      }
    }

    /** `comment.delete()`: exactly that row goes. */
    method DeleteComment(id: CommentId)
      requires Valid()
      modifies this
      ensures Valid()
      ensures comments == Filter(old(comments), NotComment(id))
      ensures users == old(users) && categories == old(categories) && locations == old(locations)
      ensures posts == old(posts)
      ensures nextPostId == old(nextPostId) && nextCommentId == old(nextCommentId)
    {
      FilterKeepsDistinct(comments, NotComment(id), CommentKey);
      comments := Filter(comments, NotComment(id));
    }

    /** Deleting a category: SET_NULL keeps every post and nulls the references to it. */
    method DeleteCategory(id: CategoryId)
      requires Valid()
      modifies this
      ensures Valid()
      ensures categories == Filter(old(categories), NotCategory(id))
      ensures posts == ClearCategory(old(posts), id)
      ensures users == old(users) && locations == old(locations) && comments == old(comments)
      ensures nextPostId == old(nextPostId) && nextCommentId == old(nextCommentId)
    {
      ghost var before := posts;
      ghost var cats := categories;
      FilterKeepsDistinct(categories, NotCategory(id), CategoryKey);
      FilterKeepsDistinct(categories, NotCategory(id), SlugKey);
      categories := Filter(categories, NotCategory(id));
      posts := ClearCategory(posts, id);
      assert forall k :: 0 <= k < |posts| ==> posts[k].id == before[k].id;
      forall q | q in posts ensures q.id < nextPostId && PostRefsResolve(q, users, categories, locations) {
        var j :| 0 <= j < |posts| && posts[j] == q;
        assert before[j] in before;
        if q.category.Some? {
          var x :| x in cats && x.id == q.category.value;
          assert x in categories;
        }
      }
      forall c | c in comments ensures CommentRefsResolve(c, users, posts) {
        var q :| q in before && q.id == c.post;
        var j :| 0 <= j < |before| && before[j] == q;
        assert posts[j] in posts;
      }
    }

    /** Deleting a location: SET_NULL keeps every post and nulls the references to it. */
    method DeleteLocation(id: LocationId)
      requires Valid()
      modifies this
      ensures Valid()
      ensures locations == Filter(old(locations), NotLocation(id))
      ensures posts == ClearLocation(old(posts), id)
      ensures users == old(users) && categories == old(categories) && comments == old(comments)
      ensures nextPostId == old(nextPostId) && nextCommentId == old(nextCommentId)
    {
      ghost var before := posts;
      ghost var locs := locations;
      FilterKeepsDistinct(locations, NotLocation(id), LocationKey);
      locations := Filter(locations, NotLocation(id));
      posts := ClearLocation(posts, id);
      assert forall k :: 0 <= k < |posts| ==> posts[k].id == before[k].id;
      forall q | q in posts ensures q.id < nextPostId && PostRefsResolve(q, users, categories, locations) {
        var j :| 0 <= j < |posts| && posts[j] == q;
        assert before[j] in before;
        if q.location.Some? {
          var x :| x in locs && x.id == q.location.value;
          assert x in locations;
        }
      }
      forall c | c in comments ensures CommentRefsResolve(c, users, posts) {
        var q :| q in before && q.id == c.post;
        var j :| 0 <= j < |before| && before[j] == q;
        assert posts[j] in posts;
      }
    }

    /**
     * Deleting a user: CASCADE on `Post.author` and `Comment.author` removes
     * their posts and their comments, and CASCADE on `Comment.post` then
     * removes every comment on those posts.
     */
    method DeleteUser(id: UserId)
      requires Valid()
      modifies this
      ensures Valid()
      ensures users == Filter(old(users), NotUser(id))
      ensures posts == Filter(old(posts), NotByUser(id))
      ensures comments == Filter(old(comments), SurvivesUser(id, PostsBy(old(posts), id)))
      ensures categories == old(categories) && locations == old(locations)
      ensures nextPostId == old(nextPostId) && nextCommentId == old(nextCommentId)
    {
      ghost var people := users;
      ghost var before := posts;
      var doomed := PostsBy(posts, id);
      FilterKeepsDistinct(users, NotUser(id), UserKey);
      FilterKeepsDistinct(users, NotUser(id), UsernameKey);
      FilterKeepsDistinct(posts, NotByUser(id), PostKey);
      FilterKeepsDistinct(comments, SurvivesUser(id, doomed), CommentKey);
      users := Filter(users, NotUser(id));
      posts := Filter(posts, NotByUser(id));
      comments := Filter(comments, SurvivesUser(id, doomed));
      forall q | q in posts ensures PostRefsResolve(q, users, categories, locations) {
        var u :| u in people && u.id == q.author;
        assert u in users;
      }
      forall c | c in comments ensures CommentRefsResolve(c, users, posts) {
        var u :| u in people && u.id == c.author;
        assert u in users;
        var q :| q in before && q.id == c.post;
        assert q in posts;
      }
    }
  }
}
