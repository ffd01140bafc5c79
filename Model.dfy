/**
 * The records the feed and detail screens work on: a feed note, a comment (with the
 * reply fields the detail screen constructs), the outcome of a fetch, and the like
 * toggle that the home list, the detail page and the comment list all apply.
 */
module Model {
  import opened Collections

  /** Outcome of a repository call: the fetched list, or a failure (its cause is not used). */
  datatype FetchResult<+T> = Success(value: T) | Failure

  /** A feed entry. `images` is null when the backend sends no gallery. */
  datatype Note = Note(
    id: int,
    title: string,
    userName: string,
    avatar: string,
    cover: string,
    coverWidth: int,
    coverHeight: int,
    likes: int,
    isVideo: bool,
    isLiked: bool,
    images: Option<seq<string>>)

  /**
   * A comment as the detail screen builds it: besides the server fields it carries the
   * user it replies to, the id of its parent comment (null for a top-level comment) and
   * a list of nested replies.
   */
  datatype Comment = Comment(
    id: int,
    userName: string,
    avatar: string,
    content: string,
    timestamp: string,
    location: string,
    likes: int,
    isLiked: bool,
    replyToUsername: Option<string>,
    parentCommentId: Option<int>,
    replies: seq<Comment>)

  function NoteId(n: Note): int { n.id }

  function CommentId(c: Comment): int { c.id }

  /**
   * `copy(isLiked = !isLiked, likes = if (isLiked) likes - 1 else likes + 1)`:
   * becoming liked adds one like, becoming unliked removes one, nothing else changes.
   */
  function ToggledNote(n: Note): (r: Note)
    ensures r.isLiked == !n.isLiked
    ensures r.likes == if r.isLiked then n.likes + 1 else n.likes - 1
    ensures r.(isLiked := n.isLiked, likes := n.likes) == n
  {
    n.(isLiked := !n.isLiked, likes := if n.isLiked then n.likes - 1 else n.likes + 1)
  }

  /** The same rule applied to a comment by the comment list's like button. */
  function ToggledComment(c: Comment): (r: Comment)
    ensures r.isLiked == !c.isLiked
    ensures r.likes == if r.isLiked then c.likes + 1 else c.likes - 1
    ensures r.(isLiked := c.isLiked, likes := c.likes) == c
  {
    c.(isLiked := !c.isLiked, likes := if c.isLiked then c.likes - 1 else c.likes + 1)
  }

  /** Liking twice is the identity. */
  lemma ToggledNoteTwice(n: Note)
    ensures ToggledNote(ToggledNote(n)) == n
  {
  }

  lemma ToggledCommentTwice(c: Comment)
    ensures ToggledComment(ToggledComment(c)) == c
  {
  }
}
