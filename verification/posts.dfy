/**
 * The post routes once the datastore has returned the document: liking,
 * unliking, commenting, deleting a comment, and the owner check before a post
 * is removed. A post that `findById` did not find arrives as `None`.
 */
module PostRoutes {
  import opened Common
  import opened JsArray

  type PostId = string
  type CommentId = string

  datatype Like = Like(user: UserId)

  datatype Comment = Comment(
    id: CommentId,
    text: Option<string>,
    name: Option<string>,
    avatar: Option<string>,
    user: UserId)

  datatype Post = Post(
    id: PostId,
    user: UserId,
    text: Option<string>,
    name: Option<string>,
    avatar: Option<string>,
    likes: seq<Like>,
    comments: seq<Comment>)

  /** The error responses of the post routes. */
  datatype PostError =
    | LookupFailed            // 404 with the caught error: the post was null or the store failed
    | PostNotFound            // 404 { postnotfound }
    | Invalid(errors: Errors) // 400 with the post validator's errors
    | AlreadyLiked            // 400 { alreadyliked }
    | NotLiked                // 400 { notliked }
    | CommentNotExists        // 404 { commentnotexists }
    | NotAuthorized           // 401 { notauthorized }

  /** The HTTP status each error is sent with. */
  function Status(e: PostError): int
  {
    match e
    case LookupFailed => 404
    case PostNotFound => 404
    case Invalid(_) => 400
    case AlreadyLiked => 400
    case NotLiked => 400
    case CommentNotExists => 404
    case NotAuthorized => 401
  }

  /** The user of each like, in order: the list the unlike route searches. */
  function Users(likes: seq<Like>): seq<UserId>
  {
    Map(likes, (l: Like) => l.user)
  }

  /** The identity of each comment, in order: the list the delete-comment route searches. */
  function CommentIds(comments: seq<Comment>): seq<CommentId>
  {
    Map(comments, (c: Comment) => c.id)
  }

  ghost predicate HasLiked(likes: seq<Like>, user: UserId)
  {
    exists i :: 0 <= i < |likes| && likes[i].user == user
  }

  /** The application-level invariant: at most one like per user. */
  ghost predicate UniqueLikes(likes: seq<Like>)
  {
    forall i, j :: 0 <= i < j < |likes| ==> likes[i].user != likes[j].user
  }

  ghost predicate HasComment(comments: seq<Comment>, id: CommentId)
  {
    exists i :: 0 <= i < |comments| && comments[i].id == id
  }

  /** POST /like/:like_id: rejects a second like by the caller, otherwise puts the caller's like first. */
  function LikePost(post: Option<Post>, caller: UserId): (r: Result<Post, PostError>)
    ensures post.None? ==> r == Err(LookupFailed)
    ensures post.Some? && HasLiked(post.value.likes, caller) ==> r == Err(AlreadyLiked)
    ensures r.Ok? <==> post.Some? && !HasLiked(post.value.likes, caller)
    ensures r.Err? ==> Status(r.error) in {400, 404}
    ensures r.Ok? ==>
              && |r.value.likes| == |post.value.likes| + 1
              && r.value.likes[0] == Like(caller)
              && r.value.likes[1..] == post.value.likes
              && r.value.(likes := post.value.likes) == post.value
  {
    match post
    case None => Err(LookupFailed)
    case Some(p) =>
      if CountOf(Users(p.likes), caller) > 0 then Err(AlreadyLiked)
      else Ok(p.(likes := [Like(caller)] + p.likes))
  }

  /** POST /unlike/:like_id: rejects a caller with no like, otherwise removes the caller's first like. */
  function UnlikePost(post: Option<Post>, caller: UserId): (r: Result<Post, PostError>)
    ensures post.None? ==> r == Err(LookupFailed)
    ensures post.Some? && !HasLiked(post.value.likes, caller) ==> r == Err(NotLiked)
    ensures r.Ok? <==> post.Some? && HasLiked(post.value.likes, caller)
    ensures r.Ok? ==>
              && |r.value.likes| == |post.value.likes| - 1
              && (exists i :: FirstAt(Users(post.value.likes), caller, i) && r.value.likes == RemoveAt(post.value.likes, i))
              && r.value.(likes := post.value.likes) == post.value
  {
    match post
    case None => Err(LookupFailed)
    case Some(p) =>
      if CountOf(Users(p.likes), caller) == 0 then Err(NotLiked)
      else
        var removeIndex := IndexOf(Users(p.likes), caller);
        assert FirstAt(Users(p.likes), caller, removeIndex);
        SpliceAtIndex(p.likes, removeIndex);
        Ok(p.(likes := SpliceOne(p.likes, removeIndex)))
  }

  /** A successful like keeps at most one like per user, and the caller has then liked the post. */
  lemma LikeKeepsUnique(post: Post, caller: UserId)
    requires UniqueLikes(post.likes)
    requires LikePost(Some(post), caller).Ok?
    ensures UniqueLikes(LikePost(Some(post), caller).value.likes)
    ensures HasLiked(LikePost(Some(post), caller).value.likes, caller)
  {
  }

  /** With unique likes, a successful unlike keeps them unique and leaves no like by the caller. */
  lemma UnlikeKeepsUnique(post: Post, caller: UserId)
    requires UniqueLikes(post.likes)
    requires UnlikePost(Some(post), caller).Ok?
    ensures UniqueLikes(UnlikePost(Some(post), caller).value.likes)
    ensures !HasLiked(UnlikePost(Some(post), caller).value.likes, caller)
  {
  }

  /** Liking and then unliking by the same user gives back the original likes. */
  lemma LikeUnlikeRoundTrip(post: Post, caller: UserId)
    requires LikePost(Some(post), caller).Ok?
    ensures UnlikePost(Some(LikePost(Some(post), caller).value), caller) == Ok(post)
  {
    var liked := LikePost(Some(post), caller).value;
    assert FirstAt(Users(liked.likes), caller, 0);
    var r := UnlikePost(Some(liked), caller);
    var i :| FirstAt(Users(liked.likes), caller, i) && r.value.likes == RemoveAt(liked.likes, i);
    assert i == 0;
    assert r.value.likes == post.likes;
  }

  /** With unique likes, unliking and then liking again gives back the same likes, up to order. */
  lemma UnlikeLikeSameLikes(post: Post, caller: UserId, unliked: Post)
    requires UniqueLikes(post.likes)
    requires UnlikePost(Some(post), caller) == Ok(unliked)
    ensures LikePost(Some(unliked), caller).Ok?
    ensures multiset(LikePost(Some(unliked), caller).value.likes) == multiset(post.likes)
  {
    UnlikeKeepsUnique(post, caller);
    var i :| FirstAt(Users(post.likes), caller, i) && unliked.likes == RemoveAt(post.likes, i);
    RemoveAtMultiset(post.likes, i);
    assert LikePost(Some(unliked), caller).value.likes == [Like(caller)] + unliked.likes;
  }

  /** POST /comment/:post_id: after the post validator passes, puts the caller's comment first. */
  function AddComment(check: Validation, post: Option<Post>, body: Bag, caller: UserId, freshId: CommentId)
    : (r: Result<Post, PostError>)
    ensures !check.isValid ==> r == Err(Invalid(check.errors))
    ensures check.isValid && post.None? ==> r == Err(PostNotFound)
    ensures r.Ok? <==> check.isValid && post.Some?
    ensures r.Ok? ==>
              && |r.value.comments| == |post.value.comments| + 1
              && r.value.comments[0] == Comment(freshId, Get(body, "text"), Get(body, "name"), Get(body, "avatar"), caller)
              && r.value.comments[1..] == post.value.comments
              && r.value.(comments := post.value.comments) == post.value
  {
    if !check.isValid then Err(Invalid(check.errors))
    else match post
      case None => Err(PostNotFound)
      case Some(p) =>
        var newComment := Comment(freshId, Get(body, "text"), Get(body, "name"), Get(body, "avatar"), caller);
        Ok(p.(comments := [newComment] + p.comments))
  }

  /** DELETE /comment/:post_id/:comment_id: 404 for an unknown id, otherwise removes the first match. */
  function DeleteComment(post: Option<Post>, commentId: CommentId): (r: Result<Post, PostError>)
    ensures post.None? ==> r == Err(PostNotFound)
    ensures post.Some? && !HasComment(post.value.comments, commentId) ==> r == Err(CommentNotExists)
    ensures r.Err? ==> Status(r.error) == 404
    ensures r.Ok? <==> post.Some? && HasComment(post.value.comments, commentId)
    ensures r.Ok? ==>
              && |r.value.comments| == |post.value.comments| - 1
              && (exists i :: FirstAt(CommentIds(post.value.comments), commentId, i)
                             && r.value.comments == RemoveAt(post.value.comments, i))
              && r.value.(comments := post.value.comments) == post.value
  {
    match post
    case None => Err(PostNotFound)
    case Some(p) =>
      if CountOf(CommentIds(p.comments), commentId) == 0 then Err(CommentNotExists)
      else
        var removeIndex := IndexOf(CommentIds(p.comments), commentId);
        assert FirstAt(CommentIds(p.comments), commentId, removeIndex);
        SpliceAtIndex(p.comments, removeIndex);
        Ok(p.(comments := SpliceOne(p.comments, removeIndex)))
  }

  /** Adding a comment with a new identity and then deleting that identity gives back the post. */
  lemma AddDeleteCommentRoundTrip(check: Validation, post: Post, body: Bag, caller: UserId, freshId: CommentId)
    requires check.isValid
    requires !HasComment(post.comments, freshId)
    ensures DeleteComment(Some(AddComment(check, Some(post), body, caller, freshId).value), freshId) == Ok(post)
  {
    var added := AddComment(check, Some(post), body, caller, freshId).value;
    assert FirstAt(CommentIds(added.comments), freshId, 0);
    var r := DeleteComment(Some(added), freshId);
    var i :| FirstAt(CommentIds(added.comments), freshId, i) && r.value.comments == RemoveAt(added.comments, i);
    assert i == 0;
    assert r.value.comments == post.comments;
  }

  /** DELETE /:post_id: only the post's author may remove it; the result names the post to remove. */
  function DeletePost(post: Option<Post>, caller: UserId): (r: Result<PostId, PostError>)
    ensures post.None? ==> r == Err(LookupFailed)
    ensures post.Some? && post.value.user != caller ==> r == Err(NotAuthorized) && Status(r.error) == 401
    ensures r.Ok? <==> post.Some? && post.value.user == caller
    ensures r.Ok? ==> r.value == post.value.id
  {
    match post
    case None => Err(LookupFailed)
    case Some(p) =>
      if p.user != caller then Err(NotAuthorized) else Ok(p.id)
  }

  /** POST /: after the post validator passes, a new post by the caller with no likes or comments. */
  function CreatePost(check: Validation, body: Bag, caller: UserId, freshId: PostId): (r: Result<Post, PostError>)
    ensures !check.isValid ==> r == Err(Invalid(check.errors)) && Status(r.error) == 400
    ensures r.Ok? <==> check.isValid
    ensures r.Ok? ==>
              && r.value.id == freshId
              && r.value.user == caller
              && r.value.text == Get(body, "text")
              && r.value.name == Get(body, "name")
              && r.value.avatar == Get(body, "avatar")
              && |r.value.likes| == 0
              && |r.value.comments| == 0
  {
    if !check.isValid then Err(Invalid(check.errors))
    else Ok(Post(freshId, caller, Get(body, "text"), Get(body, "name"), Get(body, "avatar"), [], []))
  }

  /** A created post has no likes, so at most one per user, and only its creator may delete it. */
  lemma CreateDeletePost(check: Validation, body: Bag, creator: UserId, freshId: PostId, caller: UserId)
    requires check.isValid
    ensures UniqueLikes(CreatePost(check, body, creator, freshId).value.likes)
    ensures DeletePost(Some(CreatePost(check, body, creator, freshId).value), caller)
              == if caller == creator then Ok(freshId) else Err(NotAuthorized)
  {
  }
}
