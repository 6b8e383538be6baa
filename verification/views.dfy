/**
 * Views: who sees what and who may change what.
 *
 * The detail page and the three listings are functions of the tables and
 * of the clock `now`; the handlers that write (create, edit and delete a
 * post, add, edit and delete a comment) are methods on the store. A request
 * comes from a `Requester`: the id of the signed-in user, or None for an
 * anonymous visitor.
 */
module Views {
  import opened Tables
  import opened Models

  type Requester = Option<UserId>

  /** Rows per listing page. */
  const PAGE_SIZE: nat := 10

  // ---------------------------------------------------------------------
  // Forms: the fields a submission may set.

  /** PostForm's fields; `author` and `is_published` are not among them. */
  datatype PostForm = PostForm(
    title: string,
    text: string,
    pubDate: int,
    location: Option<LocationId>,
    category: Option<CategoryId>)

  /** CommentForm's one field. */
  datatype CommentForm = CommentForm(text: string)

  /**
   * A post form validates when its title and text are given, the title fits
   * its column, the category is given (the column is nullable but not
   * blank) and names an existing category, and the location, which may be
   * left empty, names an existing location.
   */
  predicate PostFormValid(form: PostForm, categories: seq<Category>, locations: seq<Location>)
  {
    && 0 < |form.title| <= TITLE_MAX
    && form.text != ""
    && form.category.Some? && Find(categories, CategoryKey, form.category.value).Some?
    && (form.location.Some? ==> Find(locations, LocationKey, form.location.value).Some?)
  }

  predicate CommentFormValid(form: CommentForm)
  {
    form.text != ""
  }

  /** `form.save(commit=False)`: the form's fields overwrite the post's, nothing else changes. */
  function ApplyPostForm(p: Post, form: PostForm): (r: Post)
    ensures r.id == p.id && r.author == p.author && r.isPublished == p.isPublished
    ensures r.title == form.title && r.text == form.text && r.pubDate == form.pubDate
    ensures r.location == form.location && r.category == form.category
  {
    p.(title := form.title, text := form.text, pubDate := form.pubDate,
       location := form.location, category := form.category)
  }

  lemma ValidFormResolves(p: Post, form: PostForm, users: seq<User>, categories: seq<Category>, locations: seq<Location>)
    requires PostFormValid(form, categories, locations)
    requires p.author in KeySet(users, UserKey)
    ensures PostRefsResolve(ApplyPostForm(p, form), users, categories, locations)
  {
  }

  // ---------------------------------------------------------------------
  // Visibility of a single post.

  /** `post.category.is_published`, false when there is no category to ask. */
  predicate CategoryPublished(category: Option<CategoryId>, categories: seq<Category>)
  {
    match category
    case None => false
    case Some(cid) =>
      match Find(categories, CategoryKey, cid)
      case None => false
      case Some(j) => categories[j].isPublished
    }

  /** Whether `post.category` can be dereferenced at all. */
  predicate CategoryResolves(category: Option<CategoryId>, categories: seq<Category>)
  {
    category.Some? && Find(categories, CategoryKey, category.value).Some?
  }

  /** Published, not dated in the future, and in a published category. */
  predicate PubliclyVisible(p: Post, categories: seq<Category>, now: int)
  {
    p.isPublished && p.pubDate <= now && CategoryPublished(p.category, categories)
  }

  /** The author sees the post whatever its state; anyone else only when it is public. */
  predicate MayView(requester: Requester, p: Post, categories: seq<Category>, now: int)
  {
    requester == Some(p.author) || PubliclyVisible(p, categories, now)
  }

  function OnPost(pid: PostId): Comment -> bool { (c: Comment) => c.post == pid }

  /** The annotation `Count('comments')`: how many comments point at the post. */
  function CommentCount(comments: seq<Comment>, pid: PostId): (n: nat)
    ensures n <= |comments|
    ensures n == 0 <==> forall c :: c in comments ==> c.post != pid
  {
    var on := Filter(comments, OnPost(pid));
    assert on != [] ==> on[0] in on;
    |on|
  }

  /** The comments shown under a post: exactly those on it, oldest first. */
  function PostComments(comments: seq<Comment>, pid: PostId): (r: seq<Comment>)
    ensures forall i, j :: 0 <= i < j < |r| ==> r[i].pubDate <= r[j].pubDate
    ensures forall c :: multiset(r)[c] == if c.post == pid then multiset(comments)[c] else 0
    ensures |r| == CommentCount(comments, pid)
  {
    var r := SortBy(Filter(comments, OnPost(pid)), OldestFirst);
    assert forall i, j :: 0 <= i < j < |r| ==> OldestFirst(r[i]) <= OldestFirst(r[j]);
    r
  }

  datatype Detail =
    | Shown(post: Post, comments: seq<Comment>)
    | DetailNotFound
    | ServerError

  /**
   * The detail page as the view computes it. The author test comes first;
   * otherwise `is_published`, then the date, then `post.category.is_published`
   * are evaluated in turn, and the last one fails when the post has no
   * category.
   */
  function PostDetailAsWritten(
    posts: seq<Post>, categories: seq<Category>, comments: seq<Comment>,
    requester: Requester, pk: PostId, now: int): (r: Detail)
    requires DistinctBy(posts, PostKey)
    ensures (forall p :: p in posts ==> p.id != pk) ==> r == DetailNotFound
    ensures forall p :: p in posts && p.id == pk ==>
      && (r.Shown? <==> MayView(requester, p, categories, now))
      && (r.Shown? ==> r.post == p && r.comments == PostComments(comments, pk))
      && (r == ServerError <==>
            requester != Some(p.author) && p.isPublished && p.pubDate <= now
            && !CategoryResolves(p.category, categories))
  {
    match Find(posts, PostKey, pk)
    case None => DetailNotFound
    case Some(i) =>
      var p := posts[i];
      assert forall q :: q in posts && q.id == pk ==> q == p by {
        forall q | q in posts && q.id == pk ensures q == p {
          var k :| 0 <= k < |posts| && posts[k] == q;
        }
      }
      if requester == Some(p.author) then Shown(p, PostComments(comments, pk))
      else if !p.isPublished || p.pubDate > now then DetailNotFound
      else
        match p.category
        case None => ServerError
        case Some(cid) =>
          match Find(categories, CategoryKey, cid)
          case None => ServerError
          case Some(j) =>
            if categories[j].isPublished then Shown(p, PostComments(comments, pk)) else DetailNotFound
  }

  /**
   * The detail page as intended: the post for whoever may view it, and
   * not-found for everyone else, never a failure and never a permission
   * error that would reveal the post exists.
   */
  function PostDetail(
    posts: seq<Post>, categories: seq<Category>, comments: seq<Comment>,
    requester: Requester, pk: PostId, now: int): (r: Detail)
    requires DistinctBy(posts, PostKey)
    ensures r != ServerError
    ensures (forall p :: p in posts ==> p.id != pk) ==> r == DetailNotFound
    ensures forall p :: p in posts && p.id == pk ==>
      && (r.Shown? <==> MayView(requester, p, categories, now))
      && (r.Shown? ==> r.post == p && r.comments == PostComments(comments, pk))
  {
    match Find(posts, PostKey, pk)
    case None => DetailNotFound
    case Some(i) =>
      var p := posts[i];
      assert forall q :: q in posts && q.id == pk ==> q == p by {
        forall q | q in posts && q.id == pk ensures q == p {
          var k :| 0 <= k < |posts| && posts[k] == q;
        }
      }
      if MayView(requester, p, categories, now) then Shown(p, PostComments(comments, pk))
      else DetailNotFound
  }

  // ---------------------------------------------------------------------
  // Listings: filter, newest first, annotated with the comment count.

  datatype Listed = Listed(post: Post, numComments: nat)

  function PostsOf(r: seq<Listed>): (ps: seq<Post>)
    ensures |ps| == |r| && forall i :: 0 <= i < |r| ==> ps[i] == r[i].post
  {
    seq(|r|, i requires 0 <= i < |r| => r[i].post)
  }

  function Annotate(ps: seq<Post>, comments: seq<Comment>): (r: seq<Listed>)
    ensures PostsOf(r) == ps
    ensures forall i :: 0 <= i < |r| ==> r[i].numComments == CommentCount(comments, ps[i].id)
  {
    var r := seq(|ps|, i requires 0 <= i < |ps| => Listed(ps[i], CommentCount(comments, ps[i].id)));
    assert PostsOf(r) == ps;
    r
  }

  /** `filter(keep).order_by('-pub_date').annotate(num_comments=Count('comments'))`. */
  function Listing(posts: seq<Post>, keep: Post -> bool, comments: seq<Comment>): (r: seq<Listed>)
    ensures forall p :: multiset(PostsOf(r))[p] == if keep(p) then multiset(posts)[p] else 0
    ensures forall i, j :: 0 <= i < j < |r| ==> r[i].post.pubDate >= r[j].post.pubDate
    ensures forall i :: 0 <= i < |r| ==> r[i].numComments == CommentCount(comments, r[i].post.id)
  {
    var sorted := SortBy(Filter(posts, keep), NewestFirst);
    assert forall i, j :: 0 <= i < j < |sorted| ==> NewestFirst(sorted[i]) <= NewestFirst(sorted[j]);
    Annotate(sorted, comments)
  }

  /** The index's filter; the date test is strict. */
  predicate OnIndex(p: Post, categories: seq<Category>, now: int)
  {
    p.isPublished && p.pubDate < now && CategoryPublished(p.category, categories)
  }

  /** The index page's rows. */
  function Index(posts: seq<Post>, categories: seq<Category>, comments: seq<Comment>, now: int): (r: seq<Listed>)
    ensures forall p :: multiset(PostsOf(r))[p] == if OnIndex(p, categories, now) then multiset(posts)[p] else 0
    ensures forall i, j :: 0 <= i < j < |r| ==> r[i].post.pubDate >= r[j].post.pubDate
    ensures forall i :: 0 <= i < |r| ==> r[i].numComments == CommentCount(comments, r[i].post.id)
  {
    Listing(posts, (p: Post) => OnIndex(p, categories, now), comments)
  }

  /** The category page's filter, joined through the category's slug; the date test is not strict. */
  predicate InCategory(p: Post, categories: seq<Category>, slug: string, now: int)
  {
    && p.isPublished && p.pubDate <= now
    && match p.category
       case None => false
       case Some(cid) =>
         match Find(categories, CategoryKey, cid)
         case None => false
         case Some(j) => categories[j].slug == slug
  }

  datatype CategoryPage = CategoryPage(category: Category, posts: seq<Listed>)

  /**
   * The category page: not-found unless the slug names a published category,
   * else that category's published, no-longer-future posts, newest first.
   */
  function CategoryPosts(
    categories: seq<Category>, posts: seq<Post>, comments: seq<Comment>,
    slug: string, now: int): (r: Option<CategoryPage>)
    requires DistinctBy(categories, CategoryKey) && DistinctBy(categories, SlugKey)
    ensures r.None? <==> forall c :: c in categories && c.slug == slug ==> !c.isPublished
    ensures r.Some? ==> r.value.category in categories
    ensures r.Some? ==> r.value.category.slug == slug && r.value.category.isPublished
    ensures r.Some? ==>
      forall p :: multiset(PostsOf(r.value.posts))[p] ==
        if p.category == Some(r.value.category.id) && p.isPublished && p.pubDate <= now
        then multiset(posts)[p] else 0
    ensures r.Some? ==>
      forall i, j :: 0 <= i < j < |r.value.posts| ==>
        r.value.posts[i].post.pubDate >= r.value.posts[j].post.pubDate
    ensures r.Some? ==>
      forall i :: 0 <= i < |r.value.posts| ==>
        r.value.posts[i].numComments == CommentCount(comments, r.value.posts[i].post.id)
  {
    match Find(categories, SlugKey, slug)
    case None => None
    case Some(i) =>
      FindUnique(categories, SlugKey, i);
      if !categories[i].isPublished then
        None
      else
        var c := categories[i];
        forall p ensures InCategory(p, categories, slug, now) <==>
          (p.category == Some(c.id) && p.isPublished && p.pubDate <= now)
        {
          if p.category == Some(c.id) {
            FindUnique(categories, CategoryKey, i);
          }
          if p.category.Some? && Find(categories, CategoryKey, p.category.value).Some? {
            var j := Find(categories, CategoryKey, p.category.value).value;
            FindUnique(categories, SlugKey, j);
          }
        }
        Some(CategoryPage(c, Listing(posts, (p: Post) => InCategory(p, categories, slug, now), comments)))
  }

  /** The profile page's filter, joined through the author's username. */
  predicate ByUsername(p: Post, users: seq<User>, username: string)
  {
    match Find(users, UserKey, p.author)
    case None => false
    case Some(j) => users[j].username == username
  }

  datatype ProfilePage = ProfilePage(profile: User, posts: seq<Listed>)

  /**
   * The profile page: not-found unless the username exists, else every post
   * that user wrote, drafts and future posts included, newest first. Who is
   * asking plays no part.
   */
  function Profile(users: seq<User>, posts: seq<Post>, comments: seq<Comment>, username: string): (r: Option<ProfilePage>)
    requires DistinctBy(users, UserKey) && DistinctBy(users, UsernameKey)
    ensures r.None? <==> forall u :: u in users ==> u.username != username
    ensures r.Some? ==> r.value.profile in users && r.value.profile.username == username
    ensures r.Some? ==>
      forall p :: multiset(PostsOf(r.value.posts))[p] ==
        if p.author == r.value.profile.id then multiset(posts)[p] else 0
    ensures r.Some? ==>
      forall i, j :: 0 <= i < j < |r.value.posts| ==>
        r.value.posts[i].post.pubDate >= r.value.posts[j].post.pubDate
    ensures r.Some? ==>
      forall i :: 0 <= i < |r.value.posts| ==>
        r.value.posts[i].numComments == CommentCount(comments, r.value.posts[i].post.id)
  {
    match Find(users, UsernameKey, username)
    case None => None
    case Some(i) =>
      FindUnique(users, UsernameKey, i);
      var u := users[i];
      forall p ensures ByUsername(p, users, username) <==> p.author == u.id {
        if p.author == u.id {
          FindUnique(users, UserKey, i);
        }
        if Find(users, UserKey, p.author).Some? {
          var j := Find(users, UserKey, p.author).value;
          FindUnique(users, UsernameKey, j);
        }
      }
      Some(ProfilePage(u, Listing(posts, (p: Post) => ByUsername(p, users, username), comments)))
  }

  function Min(a: int, b: int): int { if a <= b then a else b }

  /** Page `index` (counting from 0) of a listing: a run of at most PAGE_SIZE consecutive rows. */
  function Page<T>(items: seq<T>, index: nat): (r: seq<T>)
    ensures |r| == if PAGE_SIZE * index >= |items| then 0 else Min(PAGE_SIZE, |items| - PAGE_SIZE * index)
    ensures forall j :: 0 <= j < |r| ==> PAGE_SIZE * index + j < |items| && r[j] == items[PAGE_SIZE * index + j]
  {
    var lo := Min(PAGE_SIZE * index, |items|);
    items[lo..Min(lo + PAGE_SIZE, |items|)]
  }

  // ---------------------------------------------------------------------
  // Handlers that write.

  datatype Response =
    | RedirectToLogin
    | RedirectToProfile(username: string)
    | RedirectToPostDetail(postId: PostId)
    | RedirectToIndex
    | FormRedisplayed
    | NotFound

  /** A signed-in requester is a row of the user table. */
  ghost predicate KnownRequester(db: Store, requester: Requester)
    reads db
  {
    requester.Some? ==> requester.value in KeySet(db.users, UserKey)
  }

  /** `request.user.username`. */
  function UsernameOf(users: seq<User>, uid: UserId): string
  {
    match Find(users, UserKey, uid)
    case None => ""
    case Some(i) => users[i].username
  }

  /**
   * Creating a post: anonymous visitors are sent to log in; an invalid form
   * is shown again; otherwise the post is stored with the requester as its
   * author and the model's default `is_published`, and the requester is
   * sent to their profile.
   */
  method CreatePostView(db: Store, requester: Requester, form: PostForm, now: int) returns (resp: Response)
    requires db.Valid() && KnownRequester(db, requester)
    modifies db
    ensures db.Valid()
    ensures requester.None? ==> resp == RedirectToLogin
    ensures requester.Some? && !PostFormValid(form, db.categories, db.locations) ==> resp == FormRedisplayed
    ensures requester.Some? && PostFormValid(form, db.categories, db.locations) ==>
      && resp == RedirectToProfile(UsernameOf(db.users, requester.value))
      && db.posts == old(db.posts) + [ApplyPostForm(PostDefaults(requester.value, now), form).(id := old(db.nextPostId))]
      && db.nextPostId == old(db.nextPostId) + 1
    ensures !(requester.Some? && PostFormValid(form, db.categories, db.locations)) ==>
      db.posts == old(db.posts) && db.nextPostId == old(db.nextPostId)
    ensures db.users == old(db.users) && db.categories == old(db.categories) && db.locations == old(db.locations)
    ensures db.comments == old(db.comments) && db.nextCommentId == old(db.nextCommentId)
  {
    if requester.None? {
      return RedirectToLogin;
    }
    if !PostFormValid(form, db.categories, db.locations) {
      return FormRedisplayed;
    }
    var post := ApplyPostForm(PostDefaults(requester.value, now), form);
    ValidFormResolves(PostDefaults(requester.value, now), form, db.users, db.categories, db.locations);
    var _ := db.InsertPost(post);
    resp := RedirectToProfile(UsernameOf(db.users, requester.value));
  }

  /**
   * Editing a post. The post is looked up before the login check, so a
   * missing post is not-found for everyone; anyone but the author, an
   * anonymous visitor included, is sent back to the post unchanged. For the
   * author, a valid form overwrites the form's fields only.
   */
  method EditPostView(db: Store, requester: Requester, postId: PostId, form: PostForm) returns (resp: Response)
    requires db.Valid()
    modifies db
    ensures db.Valid()
    ensures match Find(old(db.posts), PostKey, postId)
      case None => resp == NotFound && db.posts == old(db.posts)
      case Some(i) =>
        if requester != Some(old(db.posts)[i].author) then
          resp == RedirectToPostDetail(postId) && db.posts == old(db.posts)
        else if !PostFormValid(form, db.categories, db.locations) then
          resp == FormRedisplayed && db.posts == old(db.posts)
        else
          resp == RedirectToPostDetail(postId)
          && db.posts == old(db.posts)[i := ApplyPostForm(old(db.posts)[i], form)]
    ensures db.users == old(db.users) && db.categories == old(db.categories) && db.locations == old(db.locations)
    ensures db.comments == old(db.comments)
    ensures db.nextPostId == old(db.nextPostId) && db.nextCommentId == old(db.nextCommentId)
  {
    var found := Find(db.posts, PostKey, postId);
    if found.None? {
      return NotFound;
    }
    var i := found.value;
    var post := db.posts[i];
    if requester != Some(post.author) {
      return RedirectToPostDetail(postId);
    }
    if !PostFormValid(form, db.categories, db.locations) {
      return FormRedisplayed;
    }
    assert post in db.posts;
    ValidFormResolves(post, form, db.users, db.categories, db.locations);
    db.UpdatePost(i, ApplyPostForm(post, form));
    resp := RedirectToPostDetail(postId);
  }

  /**
   * Deleting a post (a POST is routed to `delete()`): anonymous visitors
   * are sent to log in; a missing post is not-found; anyone but the author
   * is sent to the index with nothing deleted; the author's post goes, with
   * its comments, and the author is sent to their profile.
   */
  method PostDeleteView(db: Store, requester: Requester, postId: PostId) returns (resp: Response)
    requires db.Valid()
    modifies db
    ensures db.Valid()
    ensures requester.None? ==> resp == RedirectToLogin && db.posts == old(db.posts) && db.comments == old(db.comments)
    ensures requester.Some? ==>
      match Find(old(db.posts), PostKey, postId)
      case None => resp == NotFound && db.posts == old(db.posts) && db.comments == old(db.comments)
      case Some(i) =>
        if old(db.posts)[i].author != requester.value then
          resp == RedirectToIndex && db.posts == old(db.posts) && db.comments == old(db.comments)
        else
          && resp == RedirectToProfile(UsernameOf(db.users, requester.value))
          && db.posts == Filter(old(db.posts), NotPost(postId))
          && db.comments == Filter(old(db.comments), NotOnPost(postId))
    ensures db.users == old(db.users) && db.categories == old(db.categories) && db.locations == old(db.locations)
    ensures db.nextPostId == old(db.nextPostId) && db.nextCommentId == old(db.nextCommentId)
  {
    if requester.None? {
      return RedirectToLogin;
    }
    var found := Find(db.posts, PostKey, postId);
    if found.None? {
      return NotFound;
    }
    var author := db.posts[found.value].author;
    if author != requester.value {
      return RedirectToIndex;
    }
    var username := UsernameOf(db.users, author);
    db.DeletePost(postId);
    resp := RedirectToProfile(username);
  }

  /**
   * Adding a comment: anonymous visitors are sent to log in and a missing
   * post is not-found. Whether the requester may view the post is not
   * asked. A valid form stores the comment on the URL's post, written by
   * the requester and dated `now`; valid or not, the requester is sent back
   * to the post.
   */
  method AddCommentView(db: Store, requester: Requester, postId: PostId, form: CommentForm, now: int) returns (resp: Response)
    requires db.Valid() && KnownRequester(db, requester)
    modifies db
    ensures db.Valid()
    ensures requester.None? ==> resp == RedirectToLogin && db.comments == old(db.comments)
    ensures requester.Some? && postId !in KeySet(old(db.posts), PostKey) ==>
      resp == NotFound && db.comments == old(db.comments)
    ensures requester.Some? && postId in KeySet(old(db.posts), PostKey) ==>
      && resp == RedirectToPostDetail(postId)
      && db.comments == (if CommentFormValid(form)
                         then old(db.comments) + [Comment(old(db.nextCommentId), postId, requester.value, form.text, now)]
                         else old(db.comments))
    ensures db.users == old(db.users) && db.categories == old(db.categories) && db.locations == old(db.locations)
    ensures db.posts == old(db.posts) && db.nextPostId == old(db.nextPostId)
    ensures db.nextCommentId == old(db.nextCommentId) + (if db.comments == old(db.comments) then 0 else 1)
  {
    if requester.None? {
      return RedirectToLogin;
    }
    if Find(db.posts, PostKey, postId).None? {
      return NotFound;
    }
    if CommentFormValid(form) {
      var comment := Comment(0, postId, requester.value, form.text, now);
      var _ := db.InsertComment(comment, now);
    }
    resp := RedirectToPostDetail(postId);
  }

  /**
   * `get_object_or_404(Comment, pk=commentId, author=request.user)`: the
   * comment is found only for its author. Staff status is not consulted,
   * so a staff member who did not write the comment does not find it.
   */
  function OwnComment(comments: seq<Comment>, requester: Requester, commentId: CommentId): (r: Option<nat>)
    requires DistinctBy(comments, CommentKey)
    ensures r.Some? ==> r.value < |comments| && comments[r.value].id == commentId
    ensures r.Some? ==> requester == Some(comments[r.value].author)
    ensures r.None? ==> forall c :: c in comments && c.id == commentId ==> requester != Some(c.author)
  {
    match requester
    case None => None
    case Some(uid) =>
      match Find(comments, CommentKey, commentId)
      case None => None
      case Some(i) =>
        FindUnique(comments, CommentKey, i);
        if comments[i].author == uid then Some(i) else None
  }

  /**
   * Editing a comment: anonymous visitors are sent to log in; a comment
   * the requester did not write is not-found; a valid form replaces the
   * text only, so the date set when the comment was created stays. The
   * post id in the URL is not consulted: the redirect goes to the
   * comment's own post.
   */
  method EditCommentView(db: Store, requester: Requester, urlPostId: PostId, commentId: CommentId, form: CommentForm)
    returns (resp: Response)
    requires db.Valid()
    modifies db
    ensures db.Valid()
    ensures requester.None? ==> resp == RedirectToLogin && db.comments == old(db.comments)
    ensures requester.Some? ==>
      match OwnComment(old(db.comments), requester, commentId)
      case None => resp == NotFound && db.comments == old(db.comments)
      case Some(i) =>
        if CommentFormValid(form) then
          && resp == RedirectToPostDetail(old(db.comments)[i].post)
          && db.comments == old(db.comments)[i := old(db.comments)[i].(text := form.text)]
        else
          resp == FormRedisplayed && db.comments == old(db.comments)
    ensures db.users == old(db.users) && db.categories == old(db.categories) && db.locations == old(db.locations)
    ensures db.posts == old(db.posts)
    ensures db.nextPostId == old(db.nextPostId) && db.nextCommentId == old(db.nextCommentId)
  {
    if requester.None? {
      return RedirectToLogin;
    }
    var found := OwnComment(db.comments, requester, commentId);
    if found.None? {
      return NotFound;
    }
    var i := found.value;
    if !CommentFormValid(form) {
      return FormRedisplayed;
    }
    var comment := db.comments[i];
    assert comment in db.comments;
    db.UpdateComment(i, comment.(text := form.text));
    resp := RedirectToPostDetail(comment.post);
  }

  /**
   * Deleting a comment (a POST is routed to `delete()`): anonymous visitors
   * are sent to log in; a comment the requester did not write is not-found;
   * otherwise exactly that comment goes and the requester is sent to its post.
   */
  method CommentDeleteView(db: Store, requester: Requester, urlPostId: PostId, commentId: CommentId)
    returns (resp: Response)
    requires db.Valid()
    modifies db
    ensures db.Valid()
    ensures requester.None? ==> resp == RedirectToLogin && db.comments == old(db.comments)
    ensures requester.Some? ==>
      match OwnComment(old(db.comments), requester, commentId)
      case None => resp == NotFound && db.comments == old(db.comments)
      case Some(i) =>
        && resp == RedirectToPostDetail(old(db.comments)[i].post)
        && db.comments == Filter(old(db.comments), NotComment(commentId))
    ensures db.users == old(db.users) && db.categories == old(db.categories) && db.locations == old(db.locations)
    ensures db.posts == old(db.posts)
    ensures db.nextPostId == old(db.nextPostId) && db.nextCommentId == old(db.nextCommentId)
  {
    if requester.None? {
      return RedirectToLogin;
    }
    var found := OwnComment(db.comments, requester, commentId);
    if found.None? {
      return NotFound;
    }
    var post := db.comments[found.value].post;
    db.DeleteComment(commentId);
    resp := RedirectToPostDetail(post);
  }
}
