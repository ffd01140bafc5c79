/**
 * The note detail screen (`NoteDetailActivity`): the note's like toggle, the gallery list,
 * and the comment bookkeeping: comments written locally, comments from the server, their
 * merge, and the display order in which each top-level comment is followed by its replies.
 */
module Detail {
  import opened Collections
  import opened Model

  // ---------------------------------------------------------------------------------------
  // Blank text

  /**
   * Kotlin's `Char.isWhitespace`: the ASCII controls TAB to CR and FS to US, and the Unicode
   * space, line and paragraph separators (including the no-break spaces).
   */
  predicate IsWhitespace(c: char)
  {
    || ('\U{0009}' <= c <= '\U{000D}')
    || ('\U{001C}' <= c <= '\U{0020}')
    || c == '\U{00A0}' || c == '\U{1680}'
    || ('\U{2000}' <= c <= '\U{200A}')
    || c == '\U{2028}' || c == '\U{2029}' || c == '\U{202F}' || c == '\U{205F}' || c == '\U{3000}'
  }

  /** `isBlank()`: empty or whitespace only. */
  predicate IsBlank(s: string)
  {
    forall i :: 0 <= i < |s| ==> IsWhitespace(s[i])
  }

  /** Kotlin's trim scans a start index forward from i past whitespace. */
  function TrimStartIndex(s: string, i: nat): (a: nat)
    requires i <= |s|
    ensures i <= a <= |s|
    ensures forall k :: i <= k < a ==> IsWhitespace(s[k])
    ensures a < |s| ==> !IsWhitespace(s[a])
    decreases |s| - i
  {
    if i == |s| || !IsWhitespace(s[i]) then i else TrimStartIndex(s, i + 1)
  }

  /** ... then an end index backward from j past whitespace, never below the start index a. */
  function TrimEndIndex(s: string, a: nat, j: nat): (b: nat)
    requires a <= j <= |s|
    ensures a <= b <= j
    ensures forall k :: b <= k < j ==> IsWhitespace(s[k])
    ensures a < b ==> !IsWhitespace(s[b - 1])
  {
    if j == a || !IsWhitespace(s[j - 1]) then j else TrimEndIndex(s, a, j - 1)
  }

  /**
   * `trim()`: the piece of s between the first and the last non-whitespace char. Only
   * whitespace is dropped at either end, and nothing is left exactly when s is blank.
   */
  function Trim(s: string): (r: string)
    ensures r == [] <==> IsBlank(s)
    ensures exists a, b ::
      && 0 <= a <= b <= |s| && r == s[a..b]
      && (forall k :: 0 <= k < a ==> IsWhitespace(s[k]))
      && (forall k :: b <= k < |s| ==> IsWhitespace(s[k]))
    ensures r != [] ==> !IsWhitespace(r[0]) && !IsWhitespace(r[|r| - 1])
  {
    var a := TrimStartIndex(s, 0);
    var b := TrimEndIndex(s, a, |s|);
    assert a < |s| ==> a < b;
    s[a..b]
  }

  // ---------------------------------------------------------------------------------------
  // Gallery

  /** `filter { it.isNotBlank() }`, in order. */
  function NonBlank(xs: seq<string>): (r: seq<string>)
    ensures |r| <= |xs|
    ensures forall i :: 0 <= i < |r| ==> !IsBlank(r[i])
  {
    if xs == [] then []
    else NonBlank(xs[..|xs| - 1]) + (if IsBlank(xs[|xs| - 1]) then [] else [xs[|xs| - 1]])
  }

  /** An image is kept exactly when it is in the list and not blank. */
  lemma {:induction false} NonBlankMembership(xs: seq<string>, x: string)
    ensures x in NonBlank(xs) <==> x in xs && !IsBlank(x)
  {
    if xs != [] {
      NonBlankMembership(xs[..|xs| - 1], x);
      assert xs == xs[..|xs| - 1] + [xs[|xs| - 1]];
    }
  }

  /**
   * The pages of the image pager: the cover first, then the note's non-blank images in
   * their order; a note without images shows the cover alone.
   */
  function GalleryImages(note: Note): (r: seq<string>)
    ensures |r| >= 1 && r[0] == note.cover
    ensures note.images.None? ==> r == [note.cover]
    ensures forall i :: 1 <= i < |r| ==> !IsBlank(r[i])
    ensures forall x :: x in r[1..] <==> note.images.Some? && x in note.images.value && !IsBlank(x)
    ensures note.images.Some? ==> r == [note.cover] + NonBlank(note.images.value)
  {
    match note.images
    case None => [note.cover]
    case Some(xs) =>
      var rest := NonBlank(xs);
      assert forall x :: x in rest <==> x in xs && !IsBlank(x) by {
        forall x ensures x in rest <==> x in xs && !IsBlank(x) {
          NonBlankMembership(xs, x);
        }
      }
      [note.cover] + rest
  }

  /** The image filter keeps order: it distributes over concatenation. */
  lemma {:induction false} NonBlankConcat(a: seq<string>, b: seq<string>)
    ensures NonBlank(a + b) == NonBlank(a) + NonBlank(b)
  {
    if b == [] {
      assert a + b == a;
    } else {
      assert (a + b)[..|a + b| - 1] == a + b[..|b| - 1];
      NonBlankConcat(a, b[..|b| - 1]);
    }
  }

  /** A list of non-blank images is shown whole. */
  lemma {:induction false} NonBlankKeepsAll(xs: seq<string>)
    requires forall i :: 0 <= i < |xs| ==> !IsBlank(xs[i])
    ensures NonBlank(xs) == xs
  {
    if xs != [] {
      NonBlankKeepsAll(xs[..|xs| - 1]);
    }
  }

  // ---------------------------------------------------------------------------------------
  // Merging local and server comments

  /** The local comments whose id the server does not know, in local order. */
  function Unknown(local: seq<Comment>, serverIds: set<int>): (r: seq<Comment>)
    ensures |r| <= |local|
  {
    if local == [] then []
    else
      var c := local[|local| - 1];
      Unknown(local[..|local| - 1], serverIds) + (if c.id in serverIds then [] else [c])
  }

  /** Unknown keeps exactly the local comments whose id is not among the server's. */
  lemma {:induction false} UnknownMembership(local: seq<Comment>, serverIds: set<int>, c: Comment)
    ensures c in Unknown(local, serverIds) <==> c in local && c.id !in serverIds
  {
    if local != [] {
      var front := local[..|local| - 1];
      UnknownMembership(front, serverIds, c);
      assert local == front + [local[|local| - 1]];
    }
  }

  /** Extending the scanned prefix of the local list by one comment. */
  lemma UnknownStep(local: seq<Comment>, i: int, serverIds: set<int>)
    requires 0 <= i < |local|
    ensures Unknown(local[..i + 1], serverIds) ==
      Unknown(local[..i], serverIds) + (if local[i].id in serverIds then [] else [local[i]])
  {
    assert local[..i + 1][..i] == local[..i];
  }

  /**
   * The merged list of buildAllComments: the unknown local comments, reversed, in front of
   * the server list. The server comments form the suffix in their own order; a local comment
   * whose id the server knows is dropped, so the server copy wins.
   */
  function MergedComments(local: seq<Comment>, server: seq<Comment>): (r: seq<Comment>)
    ensures var u := Unknown(local, KeySet(server, CommentId));
      && |r| == |u| + |server|
      && r[|u|..] == server
  {
    Reversed(Unknown(local, KeySet(server, CommentId))) + server
  }

  /** The unknown local comments come first, in reverse local order. */
  lemma MergedCommentsOrder(local: seq<Comment>, server: seq<Comment>)
    ensures var u := Unknown(local, KeySet(server, CommentId));
      forall i :: 0 <= i < |u| ==> MergedComments(local, server)[i] == u[|u| - 1 - i]
  {
    ReversedAt(Unknown(local, KeySet(server, CommentId)));
  }

  /** A comment is in the merged list iff the server sent it or it is a local comment the server does not know. */
  lemma MergedCommentsMembership(local: seq<Comment>, server: seq<Comment>, c: Comment)
    ensures c in MergedComments(local, server) <==>
      c in server || (c in local && c.id !in KeySet(server, CommentId))
  {
    var u := Unknown(local, KeySet(server, CommentId));
    UnknownMembership(local, KeySet(server, CommentId), c);
    ReversedMultiset(u);
  }

  /** One step of buildAllComments' scan: the next local comment goes in front, unless the server knows its id. */
  lemma MergedCommentsStep(local: seq<Comment>, server: seq<Comment>, i: int)
    requires 0 <= i < |local|
    ensures local[i].id in KeySet(server, CommentId) ==>
      MergedComments(local[..i + 1], server) == MergedComments(local[..i], server)
    ensures local[i].id !in KeySet(server, CommentId) ==>
      MergedComments(local[..i + 1], server) == [local[i]] + MergedComments(local[..i], server)
  {
    var ids := KeySet(server, CommentId);
    UnknownStep(local, i, ids);
    ReversedStep(Unknown(local[..i], ids), Unknown(local[..i + 1], ids), local[i], local[i].id in ids, server);
  }

  lemma ReversedStep(u: seq<Comment>, u': seq<Comment>, x: Comment, skip: bool, server: seq<Comment>)
    requires u' == u + (if skip then [] else [x])
    ensures skip ==> Reversed(u') + server == Reversed(u) + server
    ensures !skip ==> Reversed(u') + server == [x] + (Reversed(u) + server)
  {
    if skip {
      assert u' == u;
    } else {
      ReversedSnoc(u, x);
      assert ([x] + Reversed(u)) + server == [x] + (Reversed(u) + server);
    }
  }

  /** Unknown read from the front: a comment put in front of the local list comes first. */
  lemma {:induction false} UnknownCons(c: Comment, local: seq<Comment>, serverIds: set<int>)
    ensures Unknown([c] + local, serverIds) == (if c.id in serverIds then [] else [c]) + Unknown(local, serverIds)
  {
    if local != [] {
      var front := local[..|local| - 1];
      assert ([c] + local)[..|local|] == [c] + front;
      UnknownCons(c, front, serverIds);
    }
  }

  /**
   * Where sendComment's new comment lands: a comment put in front of the local list with an
   * id the server does not know ends the local block, right before the server comments.
   */
  lemma SentCommentPosition(c: Comment, local: seq<Comment>, server: seq<Comment>)
    requires c.id !in KeySet(server, CommentId)
    ensures MergedComments([c] + local, server) ==
      MergedComments(local, server)[..|Unknown(local, KeySet(server, CommentId))|] + [c] + server
  {
    var ids := KeySet(server, CommentId);
    UnknownCons(c, local, ids);
    var u := Unknown(local, ids);
    assert Unknown([c] + local, ids) == [c] + u;
    ReversedCons(c, u);
    assert (Reversed(u) + server)[..|u|] == Reversed(u);
  }

  // ---------------------------------------------------------------------------------------
  // Display order

  /** `filter { it.parentCommentId == null }`, in order. */
  function TopLevel(s: seq<Comment>): (r: seq<Comment>)
    ensures |r| <= |s|
    ensures forall i :: 0 <= i < |r| ==> r[i].parentCommentId.None?
  {
    if s == [] then []
    else
      var c := s[|s| - 1];
      TopLevel(s[..|s| - 1]) + (if c.parentCommentId.None? then [c] else [])
  }

  /** The direct replies to comment k, in order. */
  function RepliesTo(s: seq<Comment>, k: int): (r: seq<Comment>)
    ensures |r| <= |s|
    ensures forall i :: 0 <= i < |r| ==> r[i].parentCommentId == Some(k)
  {
    if s == [] then []
    else
      var c := s[|s| - 1];
      RepliesTo(s[..|s| - 1], k) + (if c.parentCommentId == Some(k) then [c] else [])
  }

  /** A comment is top-level in s exactly when it is in s and has no parent. */
  lemma {:induction false} TopLevelMembership(s: seq<Comment>, c: Comment)
    ensures c in TopLevel(s) <==> c in s && c.parentCommentId.None?
  {
    if s != [] {
      TopLevelMembership(s[..|s| - 1], c);
      assert s == s[..|s| - 1] + [s[|s| - 1]];
    }
  }

  /** A comment is a reply to k in s exactly when it is in s and names k as its parent. */
  lemma {:induction false} RepliesToMembership(s: seq<Comment>, k: int, c: Comment)
    ensures c in RepliesTo(s, k) <==> c in s && c.parentCommentId == Some(k)
  {
    if s != [] {
      RepliesToMembership(s[..|s| - 1], k, c);
      assert s == s[..|s| - 1] + [s[|s| - 1]];
    }
  }

  /** The replies whose parent id is in K, in order. */
  function RepliesToAny(s: seq<Comment>, K: set<int>): seq<Comment>
  {
    if s == [] then []
    else
      var c := s[|s| - 1];
      RepliesToAny(s[..|s| - 1], K) + (if c.parentCommentId.Some? && c.parentCommentId.value in K then [c] else [])
  }

  /**
   * `filter { it.parentCommentId != null }.groupBy { it.parentCommentId }`: for every parent id
   * that some reply names, the replies naming it, in order; no other key is present.
   */
  function GroupRepliesByParent(s: seq<Comment>): (m: map<int, seq<Comment>>)
    ensures forall k :: k in m ==> m[k] == RepliesTo(s, k) && m[k] != []
    ensures forall k :: k !in m ==> RepliesTo(s, k) == []
  {
    if s == [] then map[]
    else
      var m := GroupRepliesByParent(s[..|s| - 1]);
      var c := s[|s| - 1];
      match c.parentCommentId
      case None => m
      case Some(p) => m[p := (if p in m then m[p] else []) + [c]]
  }

  /** Each parent in turn, followed by its replies. */
  function Blocks(parents: seq<Comment>, all: seq<Comment>): seq<Comment>
  {
    if parents == [] then []
    else
      var p := parents[|parents| - 1];
      Blocks(parents[..|parents| - 1], all) + [p] + RepliesTo(all, p.id)
  }

  /** The list buildDisplayComments produces from a merged list. */
  function DisplayOrder(all: seq<Comment>): seq<Comment>
  {
    Blocks(TopLevel(all), all)
  }

  lemma {:induction false} TopLevelConcat(a: seq<Comment>, b: seq<Comment>)
    ensures TopLevel(a + b) == TopLevel(a) + TopLevel(b)
  {
    if b == [] {
      assert a + b == a;
    } else {
      assert (a + b)[..|a + b| - 1] == a + b[..|b| - 1];
      TopLevelConcat(a, b[..|b| - 1]);
    }
  }

  lemma {:induction false} RepliesToConcat(a: seq<Comment>, b: seq<Comment>, k: int)
    ensures RepliesTo(a + b, k) == RepliesTo(a, k) + RepliesTo(b, k)
  {
    if b == [] {
      assert a + b == a;
    } else {
      assert (a + b)[..|a + b| - 1] == a + b[..|b| - 1];
      RepliesToConcat(a, b[..|b| - 1], k);
    }
  }

  /** Replies to j, filtered again by parent k: all of them when j == k, none otherwise. */
  lemma {:induction false} RepliesToTwice(s: seq<Comment>, j: int, k: int)
    ensures RepliesTo(RepliesTo(s, j), k) == if j == k then RepliesTo(s, j) else []
  {
    if s != [] {
      var front := s[..|s| - 1];
      var c := s[|s| - 1];
      RepliesToTwice(front, j, k);
      RepliesToConcat(RepliesTo(front, j), if c.parentCommentId == Some(j) then [c] else [], k);
      assert RepliesTo([c], k) == RepliesTo([], k) + (if c.parentCommentId == Some(k) then [c] else []) by {
        assert [c][..0] == [];
      }
    }
  }

  lemma {:induction false} TopLevelOfReplies(s: seq<Comment>, k: int)
    ensures TopLevel(RepliesTo(s, k)) == []
  {
    if s != [] {
      var c := s[|s| - 1];
      TopLevelOfReplies(s[..|s| - 1], k);
      TopLevelConcat(RepliesTo(s[..|s| - 1], k), if c.parentCommentId == Some(k) then [c] else []);
      assert TopLevel([c]) == TopLevel([]) + (if c.parentCommentId.None? then [c] else []) by {
        assert [c][..0] == [];
      }
    }
  }

  /** The top-level comments of the display list are those of the merged list, in order. */
  lemma {:induction false} BlocksTopLevel(parents: seq<Comment>, all: seq<Comment>)
    requires forall i :: 0 <= i < |parents| ==> parents[i].parentCommentId.None?
    ensures TopLevel(Blocks(parents, all)) == parents
  {
    if parents != [] {
      var front := parents[..|parents| - 1];
      var p := parents[|parents| - 1];
      var b := Blocks(front, all);
      var replies := RepliesTo(all, p.id);
      assert Blocks(parents, all) == b + [p] + replies;
      BlocksTopLevel(front, all);
      TopLevelConcat(b + [p], replies);
      TopLevelConcat(b, [p]);
      TopLevelOfReplies(all, p.id);
      assert TopLevel([p]) == [p] by {
        assert [p][..0] == [];
      }
      calc {
        TopLevel(b + [p] + replies);
        TopLevel(b) + TopLevel([p]) + TopLevel(replies);
        front + [p];
        { SplitLast(parents); }
        parents;
      }
    }
  }

  /** Filtering the display list down to top-level comments gives the merged list's, in order. */
  lemma DisplayTopLevel(all: seq<Comment>)
    ensures TopLevel(DisplayOrder(all)) == TopLevel(all)
  {
    BlocksTopLevel(TopLevel(all), all);
  }

  lemma {:induction false} BlocksMembership(parents: seq<Comment>, all: seq<Comment>, c: Comment)
    ensures c in Blocks(parents, all) <==>
      c in parents || (c in all && c.parentCommentId.Some? && c.parentCommentId.value in KeySet(parents, CommentId))
  {
    if parents != [] {
      var front := parents[..|parents| - 1];
      var p := parents[|parents| - 1];
      BlocksMembership(front, all, c);
      RepliesToMembership(all, p.id, c);
      assert parents == front + [p];
      KeySetSnoc(parents, CommentId);
    }
  }

  /**
   * A comment is displayed exactly when it is in the merged list and is top-level or replies
   * to a top-level comment of it: replies to anything else (orphans) are dropped.
   */
  lemma DisplayMembership(all: seq<Comment>, c: Comment)
    ensures c in DisplayOrder(all) <==>
      c in all && (c.parentCommentId.None? || c.parentCommentId.value in KeySet(TopLevel(all), CommentId))
  {
    BlocksMembership(TopLevel(all), all, c);
    TopLevelMembership(all, c);
  }

  lemma DistinctKeysFront(s: seq<Comment>)
    requires s != [] && DistinctKeys(s, CommentId)
    ensures DistinctKeys(s[..|s| - 1], CommentId)
    ensures s[|s| - 1].id !in KeySet(s[..|s| - 1], CommentId)
  {
    var front := s[..|s| - 1];
    assert forall i :: 0 <= i < |front| ==> CommentId(front[i]) != CommentId(s[|s| - 1]);
  }

  lemma {:induction false} BlocksReplies(parents: seq<Comment>, all: seq<Comment>, k: int)
    requires forall i :: 0 <= i < |parents| ==> parents[i].parentCommentId.None?
    requires DistinctKeys(parents, CommentId)
    ensures RepliesTo(Blocks(parents, all), k) == if k in KeySet(parents, CommentId) then RepliesTo(all, k) else []
  {
    if parents != [] {
      var front := parents[..|parents| - 1];
      var p := parents[|parents| - 1];
      var b := Blocks(front, all);
      var replies := RepliesTo(all, p.id);
      assert Blocks(parents, all) == b + [p] + replies;
      DistinctKeysFront(parents);
      KeySetSnoc(parents, CommentId);
      BlocksReplies(front, all, k);
      RepliesToConcat(b + [p], replies, k);
      RepliesToConcat(b, [p], k);
      RepliesToTwice(all, p.id, k);
      assert RepliesTo([p], k) == [] by {
        assert [p][..0] == [];
      }
      assert RepliesTo(b + [p] + replies, k) == RepliesTo(b, k) + RepliesTo(replies, k) by {
        assert RepliesTo(b, k) + [] == RepliesTo(b, k);
      }
      if k == p.id {
        assert RepliesTo(b, k) == [];
        assert [] + RepliesTo(all, k) == RepliesTo(all, k);
      } else {
        assert RepliesTo(replies, k) == [];
        assert RepliesTo(b, k) + [] == RepliesTo(b, k);
      }
    }
  }

  /**
   * With distinct top-level ids, the replies to k in the display list are exactly the replies
   * to k of the merged list, in their relative order, when k is a top-level id; none otherwise.
   */
  lemma DisplayRepliesOrder(all: seq<Comment>, k: int)
    requires DistinctKeys(TopLevel(all), CommentId)
    ensures RepliesTo(DisplayOrder(all), k) ==
      if k in KeySet(TopLevel(all), CommentId) then RepliesTo(all, k) else []
  {
    BlocksReplies(TopLevel(all), all, k);
  }

  lemma {:induction false} RepliesToAnySplit(s: seq<Comment>, K: set<int>, k: int)
    requires k !in K
    ensures |RepliesToAny(s, K + {k})| == |RepliesToAny(s, K)| + |RepliesTo(s, k)|
  {
    if s != [] {
      RepliesToAnySplit(s[..|s| - 1], K, k);
    }
  }

  lemma {:induction false} TopLevelAndRepliesBound(s: seq<Comment>, K: set<int>)
    ensures |TopLevel(s)| + |RepliesToAny(s, K)| <= |s|
  {
    if s != [] {
      TopLevelAndRepliesBound(s[..|s| - 1], K);
    }
  }

  lemma {:induction false} BlocksLength(parents: seq<Comment>, all: seq<Comment>)
    requires DistinctKeys(parents, CommentId)
    ensures |Blocks(parents, all)| == |parents| + |RepliesToAny(all, KeySet(parents, CommentId))|
  {
    if parents == [] {
      assert KeySet(parents, CommentId) == {};
      RepliesToAnyEmpty(all);
    } else {
      var front := parents[..|parents| - 1];
      var p := parents[|parents| - 1];
      DistinctKeysFront(parents);
      BlocksLength(front, all);
      RepliesToAnySplit(all, KeySet(front, CommentId), p.id);
      KeySetSnoc(parents, CommentId);
    }
  }

  lemma {:induction false} RepliesToAnyEmpty(s: seq<Comment>)
    ensures RepliesToAny(s, {}) == []
  {
    if s != [] {
      RepliesToAnyEmpty(s[..|s| - 1]);
    }
  }

  /**
   * With distinct top-level ids, the display list holds each top-level comment once and each
   * reply to a top-level comment once, so it is never longer than the merged list; what is
   * missing is exactly the orphan replies.
   */
  lemma DisplayLength(all: seq<Comment>)
    requires DistinctKeys(TopLevel(all), CommentId)
    ensures |DisplayOrder(all)| == |TopLevel(all)| + |RepliesToAny(all, KeySet(TopLevel(all), CommentId))|
    ensures |DisplayOrder(all)| <= |all|
  {
    BlocksLength(TopLevel(all), all);
    TopLevelAndRepliesBound(all, KeySet(TopLevel(all), CommentId));
  }

  /**
   * Without distinct top-level ids the bound fails: two top-level comments sharing an id each
   * get the other's replies, so [p, q, c] is displayed as [p, c, q, c].
   */
  lemma DuplicateParentIdsRepeatReplies(p: Comment, q: Comment, c: Comment)
    requires p.parentCommentId.None? && q.parentCommentId.None? && p.id == q.id
    requires c.parentCommentId == Some(p.id)
    ensures DisplayOrder([p, q, c]) == [p, c, q, c]
    ensures |DisplayOrder([p, q, c])| > |[p, q, c]|
  {
    var all := [p, q, c];
    assert all[..2] == [p, q] && [p, q][..1] == [p] && [p][..0] == [];
    assert TopLevel([p]) == [p];
    assert TopLevel([p, q]) == [p, q];
    assert TopLevel(all) == [p, q];
    assert RepliesTo([p], p.id) == [];
    assert RepliesTo([p, q], p.id) == [];
    assert RepliesTo(all, p.id) == [c];
    assert Blocks([p], all) == [p, c];
  }

  // ---------------------------------------------------------------------------------------
  // The screen

  /** The fixed author data a locally written comment carries. */
  const LocalUserName: string := "\U{5F53}\U{524D}\U{7528}\U{6237}"
  const LocalAvatar: string := "https://api.dicebear.com/7.x/miniavs/png"
  const JustNow: string := "\U{521A}\U{521A}"
  const LocalLocation: string := "\U{5317}\U{4EAC}"

  /**
   * The comment sendComment creates: its id is the negated clock, negative for any positive
   * time; it replies to the reply target if there is one; it starts with no likes.
   */
  function NewLocalComment(content: string, now: int, replyTo: Option<Comment>): (r: Comment)
    ensures r.id == -now && (now > 0 ==> r.id < 0)
    ensures r.content == content
    ensures r.parentCommentId == (if replyTo.Some? then Some(replyTo.value.id) else None)
    ensures r.replyToUsername == (if replyTo.Some? then Some(replyTo.value.userName) else None)
    ensures r.likes == 0 && !r.isLiked && r.replies == []
  {
    Comment(
      id := -now, userName := LocalUserName, avatar := LocalAvatar, content := content,
      timestamp := JustNow, location := LocalLocation, likes := 0, isLiked := false,
      replyToUsername := if replyTo.Some? then Some(replyTo.value.userName) else None,
      parentCommentId := if replyTo.Some? then Some(replyTo.value.id) else None,
      replies := [])
  }

  class NoteDetailActivity {
    var currentNote: Note
    /** Comments written on this device, newest first. */
    var localComments: seq<Comment>
    /** The last list the server returned. */
    var serverComments: seq<Comment>
    /** The comment being replied to, if any. */
    var replyToComment: Option<Comment>
    /** The comment list's current contents. */
    var displayedComments: seq<Comment>
    /** The image pager's contents. */
    var galleryImages: seq<string>

    constructor (note: Note)
      ensures currentNote == note && galleryImages == GalleryImages(note)
      ensures localComments == [] && serverComments == [] && replyToComment == None
      ensures displayedComments == []
    {
      currentNote := note;
      galleryImages := GalleryImages(note);
      localComments := [];
      serverComments := [];
      replyToComment := None;
      displayedComments := [];
    }

    /** buildAllComments: the server list, with each unknown local comment pushed on the front in turn. */
    method BuildAllComments() returns (allComments: seq<Comment>)
      ensures allComments == MergedComments(localComments, serverComments)
    {
      var local, server := localComments, serverComments;
      allComments := server;
      var serverIds := KeySet(server, CommentId);
      for i := 0 to |local|
        invariant allComments == MergedComments(local[..i], server)
      {
        var localComment := local[i];
        MergedCommentsStep(local, server, i);
        if localComment.id !in serverIds {
          allComments := [localComment] + allComments;
        }
      }
      assert local[..|local|] == local;
    }

    /** buildDisplayComments: each top-level comment of the merged list followed by its group of replies. */
    method BuildDisplayComments() returns (result: seq<Comment>)
      ensures result == DisplayOrder(MergedComments(localComments, serverComments))
    {
      var all := BuildAllComments();
      var parents := TopLevel(all);
      var childrenByParent := GroupRepliesByParent(all);
      result := [];
      for i := 0 to |parents|
        invariant result == Blocks(parents[..i], all)
      {
        var parent := parents[i];
        assert parents[..i + 1][..i] == parents[..i];
        var children := if parent.id in childrenByParent then childrenByParent[parent.id] else [];
        result := result + [parent] + children;
      }
      assert parents[..|parents|] == parents;
    }

    /** The note's like toggle; the toggled note is what the screen hands back on exit. */
    method ToggleLike()
      modifies this`currentNote
      ensures currentNote == ToggledNote(old(currentNote))
    {
      currentNote := ToggledNote(currentNote);
    }

    /** Choosing to reply to a comment makes it the reply target. */
    method OnReplyClick(comment: Comment)
      modifies this`replyToComment
      ensures replyToComment == Some(comment)
    {
      replyToComment := Some(comment);
    }

    /**
     * The comment list's like callback: the first comment with the updated one's id is
     * replaced, both in the displayed list and among the local comments; a list without
     * that id is left as it was.
     */
    method OnLikeClick(updated: Comment)
      modifies this`displayedComments, this`localComments
      ensures displayedComments == ReplaceFirst(old(displayedComments), CommentId, updated)
      ensures localComments == ReplaceFirst(old(localComments), CommentId, updated)
    {
      var all := displayedComments;
      var idx := IndexOfFirst(all, CommentId, updated.id);
      if idx != -1 {
        all := all[idx := updated];
        displayedComments := all;
      }
      var localIdx := IndexOfFirst(localComments, CommentId, updated.id);
      if localIdx != -1 {
        localComments := localComments[localIdx := updated];
      }
    }

    /**
     * sendComment: blank input changes nothing; otherwise the new comment becomes the first
     * local comment, the reply target is cleared and the list is rebuilt.
     */
    method SendComment(text: string, now: int)
      modifies this`localComments, this`replyToComment, this`displayedComments
      ensures IsBlank(text) ==>
        && localComments == old(localComments)
        && replyToComment == old(replyToComment)
        && displayedComments == old(displayedComments)
      ensures !IsBlank(text) ==>
        && localComments == [NewLocalComment(Trim(text), now, old(replyToComment))] + old(localComments)
        && replyToComment == None
        && displayedComments == DisplayOrder(MergedComments(localComments, serverComments))
    {
      var content := Trim(text);
      if content == [] {
        return;
      }
      var newComment := NewLocalComment(content, now, replyToComment);
      localComments := [newComment] + localComments;
      replyToComment := None;
      displayedComments := BuildDisplayComments();
    }

    /**
     * loadComments: a successful fetch replaces the server list, a failed one keeps it; the
     * list shown is rebuilt from the merge either way.
     */
    method LoadComments(result: FetchResult<seq<Comment>>)
      modifies this`serverComments, this`displayedComments
      ensures serverComments == (if result.Success? then result.value else old(serverComments))
      ensures displayedComments == DisplayOrder(MergedComments(localComments, serverComments))
    {
      if result.Success? {
        serverComments := result.value;
      }
      displayedComments := BuildDisplayComments();
    }
  }

  /** Liking a displayed comment twice puts the displayed list back as it was. */
  method LikeCommentTwice(screen: NoteDetailActivity, i: nat)
    requires i < |screen.displayedComments|
    requires IndexOfFirst(screen.displayedComments, CommentId, screen.displayedComments[i].id) == i
    modifies screen
    ensures screen.displayedComments == old(screen.displayedComments)
  {
    var c := screen.displayedComments[i];
    screen.OnLikeClick(ToggledComment(c));
    ReplaceFirstThenLookup(old(screen.displayedComments), CommentId, ToggledComment(c));
    screen.OnLikeClick(ToggledComment(screen.displayedComments[i]));
    ToggledCommentTwice(c);
  }
}
