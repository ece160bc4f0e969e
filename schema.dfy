/**
 * The Post document and the constraints its Mongoose schema places on it
 * (server/models/Post.js).
 *
 * Encoding convention: each `char` of a string stands for one UTF-16 code
 * unit, so `|s|` is JavaScript's `s.length`, the length that the
 * `maxlength` validator counts. A character outside the Basic Multilingual
 * Plane is two chars (its surrogate pair) under this convention; a Dafny
 * literal that contains one directly does not have its JavaScript length.
 */
module PostSchema {

  /** An ObjectId of the User collection: only its identity matters here. */
  type UserId = nat

  /** The `_id` of a Post document. */
  type PostId = nat

  /** A field of a JSON request body: `None` is `undefined` or `null`. */
  datatype Option<+T> = None | Some(value: T)

  /** The title's `maxlength`. */
  const MaxTitleLength: nat := 100

  /**
   * A stored Post document. `author` is an ObjectId and never absent,
   * which is how the schema's `required: true` on it is modelled;
   * `createdAt` and `updatedAt` are the readings of the store's clock
   * that `timestamps: true` adds.
   */
  datatype Post = Post(
    id: PostId,
    title: string,
    content: string,
    author: UserId,
    likes: seq<UserId>,
    createdAt: nat,
    updatedAt: nat)

  /**
   * A string body field that JavaScript treats as truthy: present and not
   * the empty string. Mongoose's `required` validator for a String path
   * accepts exactly these values too.
   */
  predicate Truthy(v: Option<string>)
  {
    v.Some? && |v.value| > 0
  }

  /** The schema's validators: title required and at most 100 long, content required. */
  predicate ValidPost(p: Post)
  {
    0 < |p.title| <= MaxTitleLength && 0 < |p.content|
  }

  /** JavaScript's `v || fallback` for a string field. */
  function Or(v: Option<string>, fallback: string): string
  {
    if Truthy(v) then v.value else fallback
  }

  /**
   * `new Post({title, content, author})` followed by the validation that
   * `save` runs: the document stamped at time `now`, or `None` when the
   * schema rejects it.
   */
  function NewPost(id: PostId, title: Option<string>, content: Option<string>,
                   author: UserId, now: nat): (r: Option<Post>)
    ensures r.Some? <==> Truthy(title) && Truthy(content) && |title.value| <= MaxTitleLength
    ensures r.Some? ==> ValidPost(r.value)
    ensures r.Some? ==> r.value.id == id && r.value.author == author && r.value.likes == []
    ensures r.Some? ==> r.value.title == title.value && r.value.content == content.value
    ensures r.Some? ==> r.value.createdAt == r.value.updatedAt == now
  {
    if title.None? || content.None? then None
    else
      var p := Post(id, title.value, content.value, author, [], now, now);
      if ValidPost(p) then Some(p) else None
  }

  /**
   * The partial update `post.title = title || post.title` and
   * `post.content = content || post.content`: a falsy field keeps the old
   * value, and the save succeeds exactly when the resulting title fits.
   */
  function Patch(p: Post, title: Option<string>, content: Option<string>): (q: Post)
    ensures q.id == p.id && q.author == p.author && q.likes == p.likes
    ensures q.createdAt == p.createdAt && q.updatedAt == p.updatedAt
    ensures q.title == (if Truthy(title) then title.value else p.title)
    ensures q.content == (if Truthy(content) then content.value else p.content)
    ensures ValidPost(p) ==> (ValidPost(q) <==> |q.title| <= MaxTitleLength)
    ensures !Truthy(title) && !Truthy(content) ==> q == p
  {
    p.(title := Or(title, p.title), content := Or(content, p.content))
  }
}
