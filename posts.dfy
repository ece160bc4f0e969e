/**
 * The post handlers of server/controllers/posts.js over an in-memory
 * store: a map from id to document, the counter that hands out fresh ids
 * and the clock that `timestamps: true` reads.
 *
 * The requesting user is the `actor` parameter: the routes that create,
 * update, delete and like put the `protect` middleware first, so by the
 * time those handlers run `req.user._id` is always there.
 */
module PostController {
  import opened PostSchema
  import opened Likes
  import opened Listing

  /** What a handler sends back, with the HTTP status given by `Status`. */
  datatype Response =
    | Created(post: Post)     // 201, the saved document
    | Ok(post: Post)          // 200, a document
    | Removed                 // 200, { message: 'Post removed' }
    | LikeCount(likes: nat)   // 200, { likes: n }
    | NotFound                // 404, { message: 'Post not found' }
    | NotAuthorized           // 401, { message: 'Not authorized' }
    | ServerError             // 500, { message: 'Server error' }

  function Status(r: Response): nat
  {
    match r
    case Created(_) => 201
    case Ok(_) => 200
    case Removed => 200
    case LikeCount(_) => 200
    case NotFound => 404
    case NotAuthorized => 401
    case ServerError => 500
  }

  class PostStore {
    var posts: map<PostId, Post>
    var nextId: PostId
    var clock: nat

    /**
     * Every stored document sits under its own id, below the next fresh
     * id, passes the schema's validators, has no user twice in `likes`,
     * and was stamped by the clock no later than its last update; no two
     * stored documents were created at the same clock reading.
     */
    ghost predicate Valid()
      reads this
    {
      && (forall id :: id in posts ==>
            && posts[id].id == id
            && id < nextId
            && ValidPost(posts[id])
            && NoDuplicates(posts[id].likes)
            && posts[id].createdAt <= posts[id].updatedAt <= clock)
      && (forall a, b :: a in posts && b in posts && a != b ==>
            posts[a].createdAt != posts[b].createdAt)
    }

    constructor ()
      ensures Valid()
      ensures posts == map[] && nextId == 0 && clock == 0
    {
      posts, nextId, clock := map[], 0, 0;
    }

    /** createPost: the author is the requesting user; a rejected document is not stored. */
    method CreatePost(actor: UserId, title: Option<string>, content: Option<string>)
      returns (resp: Response)
      requires Valid()
      modifies this
      ensures Valid()
      ensures resp.Created? <==> Truthy(title) && Truthy(content) && |title.value| <= MaxTitleLength
      ensures !resp.Created? ==> resp == ServerError && unchanged(this)
      ensures resp.Created? ==>
        && resp.post.id == old(nextId) && resp.post.id !in old(posts)
        && resp.post.author == actor && resp.post.likes == []
        && resp.post.title == title.value && resp.post.content == content.value
        && resp.post.createdAt == resp.post.updatedAt == clock == old(clock) + 1
        && posts == old(posts)[resp.post.id := resp.post]
        && nextId == old(nextId) + 1
        && GetPostById(resp.post.id) == Ok(resp.post)
    {
      var now := clock + 1;
      var doc := NewPost(nextId, title, content, actor, now);
      if doc.None? {
        return ServerError;
      }
      posts := posts[nextId := doc.value];
      nextId, clock := nextId + 1, now;
      resp := Created(doc.value);
    }

    /** getPosts: every stored post, newest first. */
    function GetPosts(): (r: seq<Post>)
      reads this
      requires Valid()
      ensures |r| == |posts|
      ensures forall i :: 0 <= i < |r| ==> r[i].id in posts && posts[r[i].id] == r[i]
      ensures forall id :: id in posts ==> posts[id] in r
      ensures forall i, j :: 0 <= i < j < |r| ==> r[i].id != r[j].id
      ensures forall i, j :: 0 <= i < j < |r| ==> r[i].createdAt > r[j].createdAt
    {
      PostsNewestFirst(posts)
    }

    /** getPostById: the post stored under `id`, or 404 when there is none. */
    function GetPostById(id: PostId): (r: Response)
      reads this
      requires Valid()
      ensures r.Ok? || r.NotFound?
      ensures r.NotFound? <==> id !in posts
      ensures r.Ok? ==> id in posts && r.post == posts[id]
      ensures r.Ok? ==> r.post.id == id && ValidPost(r.post) && NoDuplicates(r.post.likes)
    {
      if id in posts then Ok(posts[id]) else NotFound
    }

    /**
     * `post.save()` for a document fetched from the store and changed in
     * memory: the schema's validators run first; `updatedAt` is refreshed
     * only when something changed.
     */
    method Save(post: Post) returns (ok: bool, saved: Post)
      requires Valid() && post.id in posts && NoDuplicates(post.likes)
      requires post.createdAt == posts[post.id].createdAt
      requires post.updatedAt == posts[post.id].updatedAt
      modifies this
      ensures Valid()
      ensures ok <==> ValidPost(post)
      ensures !ok || post == old(posts[post.id]) ==> unchanged(this)
      ensures ok && post == old(posts[post.id]) ==> saved == post
      ensures ok && post != old(posts[post.id]) ==>
        && saved == post.(updatedAt := clock)
        && clock == old(clock) + 1
        && posts == old(posts)[post.id := saved]
        && nextId == old(nextId)
    {
      if !ValidPost(post) {
        return false, post;
      }
      if post == posts[post.id] {
        return true, post;
      }
      clock := clock + 1;
      saved := post.(updatedAt := clock);
      posts := posts[post.id := saved];
      ok := true;
    }

    /**
     * updatePost: 404 before 401 before anything is written; then a falsy
     * title or content keeps the stored value, and a title over the limit
     * fails validation with the store unchanged.
     */
    method UpdatePost(actor: UserId, id: PostId, title: Option<string>, content: Option<string>)
      returns (resp: Response)
      requires Valid()
      modifies this
      ensures Valid()
      ensures id !in old(posts) ==> resp == NotFound && unchanged(this)
      ensures id in old(posts) && old(posts[id]).author != actor ==>
        resp == NotAuthorized && unchanged(this)
      ensures id in old(posts) && old(posts[id]).author == actor ==>
        var p := old(posts[id]);
        var q := Patch(p, title, content);
        if |q.title| > MaxTitleLength then
          resp == ServerError && unchanged(this)
        else if q == p then
          resp == Ok(p) && unchanged(this)
        else
          && resp == Ok(q.(updatedAt := clock))
          && clock == old(clock) + 1
          && posts == old(posts)[id := resp.post]
          && nextId == old(nextId)
    {
      if id !in posts {
        return NotFound;
      }
      var post := posts[id];
      if post.author != actor {
        return NotAuthorized;
      }
      post := post.(title := Or(title, post.title));
      post := post.(content := Or(content, post.content));
      var ok, saved := Save(post);
      resp := if ok then Ok(saved) else ServerError;
    }

    /**
     * deletePost: 404 before 401; the author's request removes exactly that
     * post, and its id stays below the next fresh id, so no later create
     * reuses it.
     */
    method DeletePost(actor: UserId, id: PostId) returns (resp: Response)
      requires Valid()
      modifies this
      ensures Valid()
      ensures id !in old(posts) ==> resp == NotFound && unchanged(this)
      ensures id in old(posts) && old(posts[id]).author != actor ==>
        resp == NotAuthorized && unchanged(this)
      ensures id in old(posts) && old(posts[id]).author == actor ==>
        && resp == Removed
        && posts == old(posts) - {id}
        && nextId == old(nextId) && clock == old(clock)
        && id < nextId
        && GetPostById(id) == NotFound
    {
      if id !in posts {
        return NotFound;
      }
      var post := posts[id];
      if post.author != actor {
        return NotAuthorized;
      }
      posts := posts - {id};
      resp := Removed;
    }

    /**
     * likePost: any signed-in user toggles their like; the response is the
     * new number of likes.
     */
    method LikePost(actor: UserId, id: PostId) returns (resp: Response)
      requires Valid()
      modifies this
      ensures Valid()
      ensures id !in old(posts) ==> resp == NotFound && unchanged(this)
      ensures id in old(posts) ==>
        var p := old(posts[id]);
        var likes := Toggle(p.likes, actor);
        && resp == LikeCount(|likes|)
        && clock == old(clock) + 1
        && posts == old(posts)[id := p.(likes := likes, updatedAt := clock)]
        && nextId == old(nextId)
    {
      if id !in posts {
        return NotFound;
      }
      var post := posts[id];
      if actor in post.likes {
        RemoveAllKeepsNoDuplicates(post.likes, actor);
        post := post.(likes := RemoveAll(post.likes, actor));
      } else {
        post := post.(likes := post.likes + [actor]);
      }
      // title and content are untouched, so the validators pass, and the
      // toggled list always differs, so the save stamps the document
      var _, _ := Save(post);
      resp := LikeCount(|post.likes|);
    }
  }

  /**
   * A walk-through: A creates a post, B may not edit it, A may; B likes and
   * unlikes it; A deletes it and it is gone.
   */
  method Walkthrough()
  {
    var store := new PostStore();
    var a, b := 1, 2;
    var r := store.CreatePost(a, Some("Hi"), Some("World"));
    assert r.Created? && Status(r) == 201;
    var p1 := r.post.id;
    r := store.UpdatePost(b, p1, Some("X"), None);
    assert r == NotAuthorized && Status(r) == 401;
    r := store.UpdatePost(a, p1, Some("X"), None);
    assert r.Ok? && r.post.title == "X" && r.post.content == "World";
    r := store.LikePost(b, p1);
    assert r == LikeCount(1);
    r := store.LikePost(b, p1);
    assert r == LikeCount(0);
    r := store.DeletePost(a, p1);
    assert r == Removed;
    r := store.GetPostById(p1);
    assert r == NotFound && Status(r) == 404;
  }
}
