# Blog post handlers, modelled in Dafny

This project models the post resource of a small MERN blog backend: the six
Express handlers of `server/controllers/posts.js` (create, list, get by id,
update, delete, like toggle) and the Mongoose schema of `server/models/Post.js`
that every saved post must pass.

The MongoDB collection becomes a class, `PostController.PostStore`. It has
three fields:

- `posts`: a `map<PostId, Post>` holding the stored documents.
- `nextId`: a counter that hands out fresh ids.
- `clock`: a counter that stands for the clock read by `timestamps: true`.

The requesting user (`req.user._id`, attached by the `protect` middleware on
the create, update, delete and like routes) is a `UserId` parameter, so it is
always present. Request body fields are `Option<string>`, where `None` stands
for `undefined` or `null`.

- `schema.dfy`, module `PostSchema`: the `Post` document, the schema's
  validators as `ValidPost`, and JavaScript truthiness of a string field as
  `Truthy`. For strings, Mongoose's `required` accepts exactly the truthy
  values. The module also holds the validated construction `NewPost` and the
  partial update `Patch`.
- `likes.dfy`, module `Likes`: the filter and push of `likePost`, and the
  toggle they form.
- `listing.dfy`, module `Listing`: the newest-first order of `getPosts`, as
  an insertion sort of the keys by `createdAt`.
- `posts.dfy`, module `PostController`: the `Response` datatype (with
  `Status` giving its HTTP code) and the store class. The class invariant
  `Valid()` says that every stored post:
  - is keyed by its own id, and that id is below `nextId`;
  - passes the schema's validators;
  - has no user twice in `likes`;
  - has timestamps no later than the clock;
  - has a `createdAt` that no other stored post shares.

  Every handler keeps this invariant. `Walkthrough` replays a session
  (create, a forbidden edit, an edit, like, unlike, delete, 404) using only
  the handlers' contracts, and checks the HTTP status of each answer.

In three places the model follows the code where a reader might expect otherwise:

- A create whose title or content is missing or too long answers 500
  "Server error", not a 4xx validation error. The handler's `catch` turns
  every save failure into a 500.
- `likes` is a list, not a set. The schema does not enforce uniqueness. The
  absence of duplicates is an invariant that the toggle maintains.
- A `save` refreshes `updatedAt` only when the document changed. Mongoose's
  timestamps skip unmodified documents. So an update with both fields falsy
  leaves the post entirely unchanged.

## Model

| member | source | states |
|---|---|---|
| PostSchema.NewPost | server/models/Post.js:3-22 | the new document is accepted exactly when title and content are present and non-empty and the title is at most 100 long; then it is valid, carries the given id, author, title and content, has no likes, and is stamped createdAt == updatedAt == now |
| PostSchema.Patch | server/controllers/posts.js:72-73 | a truthy title/content replaces the old value, a falsy one keeps it; id, author, likes and timestamps are untouched; a valid post stays valid exactly when the resulting title fits in 100; two falsy fields leave the post unchanged |
| Likes.RemoveAll | server/controllers/posts.js:118-120 | after the filter the user no longer occurs, every other id keeps its multiplicity, the length drops by the user's count, and a list without the user is returned as is |
| Likes.RemoveAllAppend | server/controllers/posts.js:118-120 | the filter keeps order: it distributes over concatenation |
| Likes.RemoveAllKeepsNoDuplicates | server/controllers/posts.js:118-120 | filtering a user out of a duplicate-free list leaves it duplicate-free |
| Likes.Toggle | server/controllers/posts.js:116-124 | the user is in the new list exactly when they were not in the old one; other users' counts are unchanged; a like adds the user once (length + 1), an unlike removes all their occurrences; no duplicates are introduced |
| Likes.ToggleTwice | server/controllers/posts.js:115-127 | toggling twice by one user restores the set of users; it restores the list itself when the user had not liked; it restores the like count when the user occurred at most once, and the multiset when there were no duplicates |
| Likes.NoDuplicatesCount | server/models/Post.js:18-21 | in a duplicate-free likes list every user occurs at most once |
| Listing.Insert | server/controllers/posts.js:30-32 | inserting one id into a newest-first list gives a newest-first list with exactly that id added |
| Listing.SortNewestFirst | server/controllers/posts.js:30-32 | the result is a permutation of the given keys ordered by createdAt, descending |
| Listing.PostsNewestFirst | server/controllers/posts.js:30-32 | `find().sort({createdAt: -1})` returns every stored post exactly once, each as stored, newest first |
| PostController.PostStore.GetPosts | server/controllers/posts.js:28-37 | getPosts answers with every stored post once, each with its stored contents, ordered by createdAt strictly descending |
| PostController.PostStore.GetPostById | server/controllers/posts.js:42-55 | 404 exactly when no post has the id; otherwise exactly the document stored under that id, which is schema-valid and duplicate-free |
| PostController.PostStore.CreatePost | server/controllers/posts.js:8-23 | 201 exactly when the schema accepts the post; the stored post has a fresh id, the requester as author, the request's title and content, no likes, and new timestamps; otherwise 500 and nothing changes; the created post is then found by id |
| PostController.PostStore.Save | server/controllers/posts.js:75 | save fails exactly when the validators reject the document, changing nothing; an unchanged document is left as is; a changed one is written back under its id with updatedAt from a clock tick |
| PostController.PostStore.UpdatePost | server/controllers/posts.js:60-83 | 404 for a missing id even for a non-author; 401 for a non-author; both leave the store unchanged; otherwise the patched post is saved: 500 with no change if the title exceeds 100, else 200 with the post whose truthy fields replaced the old ones; no other post changes |
| PostController.PostStore.DeletePost | server/controllers/posts.js:88-106 | 404 before 401, both with no change; the author's delete removes exactly that post, keeps the others, and later lookups of the id give 404; the id stays below the fresh-id counter, so it is never reused |
| PostController.PostStore.LikePost | server/controllers/posts.js:111-134 | 404 with no change for a missing id; otherwise any user toggles their like, the post's likes become Toggle(old likes, user), updatedAt is refreshed, no other post changes, and the answer is the new like count |

## Left out

- The `populate('author', 'username')` and `populate('likes', 'username')` joins are left out. They read the User collection, which is not part of this model. Responses carry raw user ids.
- Database and network failures are left out. Any of them is a 500 in the source. Only the failure of schema validation is modelled.
- A malformed `:id` is left out. Mongoose's cast error would be a 500 in the source. Ids here are always well formed.
- The `protect` middleware and token verification are left out. They are a foreign call. Its 401 for a missing token happens before any handler runs.
- Concurrent requests racing on the same post are left out. Each handler is one atomic step on the store.
- Wall-clock time is left out. `createdAt` and `updatedAt` are readings of a counter that ticks on every create and on every save that changes a document. Deletes and saves of an unchanged document do not tick it.
- Body values that are not strings are left out. Mongoose would cast a number to a string. By convention each `char` of a string stands for one UTF-16 code unit, so `|s|` is JavaScript's `length`.
- Title length for characters outside the Basic Multilingual Plane: the model measures `|title|` in `char`s, so it matches JavaScript's `length` only when such a character is written as its two surrogate code units. A Dafny literal holding one directly counts it once, where JavaScript counts two.
- PostController.PostStore.GetPosts: the order among posts with equal `createdAt` is not stated, because MongoDB leaves it unspecified. With the counter clock, two stored posts never share a `createdAt` (part of the store invariant `Valid()`), so `GetPosts` states a strictly descending order.
- PostController.PostStore.DeletePost: the model assumes a Mongoose version that still has `Document.prototype.remove`. It was removed in Mongoose 7, where the call would fail with a 500. The package manifest is not part of this model.
- PostController.PostStore.LikePost: the model has no 500 path. Under the store invariant, the save cannot fail validation, because the toggle leaves title and content as stored.
- `server/app.js` and the Express routing in `server/routes/posts.js` are not modelled. They are bootstrap and wiring. The fact that a signed-in user is needed shows up only as the `actor` parameter.
