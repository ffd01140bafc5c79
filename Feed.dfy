/**
 * The feed's pagination controller (`MainViewModel`): it owns the canonical note list
 * `localNotes`, the list it publishes to the home screen (`notes`, null until first set),
 * the page counter and three flags. Each fetch outcome is an input; nothing here talks to
 * the network.
 */
module Feed {
  import opened Collections
  import opened Model

  /**
   * The `map` step of loadMore: a fetched note whose id the controller already holds
   * takes the held copy's `isLiked` and `likes`; any other fetched note is kept as is.
   */
  function CarryForward(fetched: seq<Note>, held: seq<Note>): (r: seq<Note>)
    ensures |r| == |fetched|
    ensures forall i :: 0 <= i < |r| ==> r[i].id == fetched[i].id
    ensures forall i :: 0 <= i < |r| && fetched[i].id !in KeySet(held, NoteId) ==> r[i] == fetched[i]
    ensures forall i :: 0 <= i < |r| && IndexOfFirst(held, NoteId, fetched[i].id) >= 0 ==>
      var existing := held[IndexOfFirst(held, NoteId, fetched[i].id)];
      r[i] == fetched[i].(isLiked := existing.isLiked, likes := existing.likes)
  {
    if fetched == [] then []
    else
      var n := fetched[0];
      var carried := match FirstOrNone(held, NoteId, n.id)
        case Some(existing) => n.(isLiked := existing.isLiked, likes := existing.likes)
        case None => n;
      [carried] + CarryForward(fetched[1..], held)
  }

  /** The `filter` step of loadMore: the notes whose id is not among `heldIds`, in order. */
  function Unseen(s: seq<Note>, heldIds: set<int>): (r: seq<Note>)
    ensures |r| <= |s|
    ensures forall n :: n in r <==> n in s && n.id !in heldIds
  {
    if s == [] then []
    else (if s[0].id in heldIds then [] else [s[0]]) + Unseen(s[1..], heldIds)
  }

  /**
   * What loadMore appends: the batch with like state carried forward, then filtered down to
   * ids not yet held. The carried copies are exactly the ones filtered out.
   */
  function MergeBatch(fetched: seq<Note>, held: seq<Note>): (r: seq<Note>)
    ensures r == Unseen(fetched, KeySet(held, NoteId))
  {
    CarriedLikesNeverAppended(fetched, held);
    Unseen(CarryForward(fetched, held), KeySet(held, NoteId))
  }

  /** The published list after toggleLike: the first note with that id is toggled. */
  function ToggleFirst(s: seq<Note>, id: int): seq<Note>
  {
    var i := IndexOfFirst(s, NoteId, id);
    if i == -1 then s else s[i := ToggledNote(s[i])]
  }

  /** The new copy toggleLike writes, if the id is published at all. */
  function ToggleTarget(published: Option<seq<Note>>, id: int): (r: Option<Note>)
    ensures r.Some? <==> published.Some? && IndexOfFirst(published.value, NoteId, id) >= 0
    ensures r.Some? ==>
      && r.value == ToggledNote(published.value[IndexOfFirst(published.value, NoteId, id)])
      && r.value.id == id
  {
    match published
    case None => None
    case Some(s) =>
      var i := IndexOfFirst(s, NoteId, id);
      if i == -1 then None else Some(ToggledNote(s[i]))
  }

  /** Unseen keeps the fetched order: it distributes over concatenation. */
  lemma {:induction false} UnseenConcat(a: seq<Note>, b: seq<Note>, heldIds: set<int>)
    ensures Unseen(a + b, heldIds) == Unseen(a, heldIds) + Unseen(b, heldIds)
  {
    if a == [] {
      assert a + b == b;
    } else {
      assert (a + b)[1..] == a[1..] + b;
      UnseenConcat(a[1..], b, heldIds);
    }
  }

  /** A batch none of whose ids is held is appended whole. */
  lemma {:induction false} UnseenAllNew(s: seq<Note>, heldIds: set<int>)
    requires forall i :: 0 <= i < |s| ==> s[i].id !in heldIds
    ensures Unseen(s, heldIds) == s
  {
    if s != [] {
      UnseenAllNew(s[1..], heldIds);
    }
  }

  /**
   * The like state carried forward never reaches localNotes: a carried copy has a held
   * id and is filtered out, so filtering the merged batch equals filtering the raw batch.
   */
  lemma {:induction false} CarriedLikesNeverAppended(fetched: seq<Note>, held: seq<Note>)
    ensures Unseen(CarryForward(fetched, held), KeySet(held, NoteId)) == Unseen(fetched, KeySet(held, NoteId))
  {
    if fetched != [] {
      CarriedLikesNeverAppended(fetched[1..], held);
    }
  }

  /** Filtering keeps distinct ids distinct. */
  lemma {:induction false} UnseenDistinct(s: seq<Note>, heldIds: set<int>)
    requires DistinctKeys(s, NoteId)
    ensures DistinctKeys(Unseen(s, heldIds), NoteId)
  {
    if s != [] {
      UnseenDistinct(s[1..], heldIds);
      var rest := Unseen(s[1..], heldIds);
      forall j | 0 <= j < |rest| ensures rest[j].id != s[0].id {
        assert rest[j] in s[1..];
      }
    }
  }

  /**
   * If the held list and the fetched batch each have distinct ids, so does the held list
   * with the unseen part of the batch appended.
   */
  lemma AppendUnseenDistinct(held: seq<Note>, fetched: seq<Note>)
    requires DistinctKeys(held, NoteId) && DistinctKeys(fetched, NoteId)
    ensures DistinctKeys(held + Unseen(fetched, KeySet(held, NoteId)), NoteId)
  {
    var add := Unseen(fetched, KeySet(held, NoteId));
    UnseenDistinct(fetched, KeySet(held, NoteId));
    forall i, j | 0 <= i < |held| <= j < |held| + |add|
      ensures (held + add)[i].id != (held + add)[j].id
    {
      assert add[j - |held|] in add;
      assert held[i].id in KeySet(held, NoteId);
    }
  }

  /** Duplicates inside one batch are not removed: a batch [n, n] of an unheld id is appended twice. */
  lemma BatchDuplicatesKept(held: seq<Note>, n: Note)
    requires n.id !in KeySet(held, NoteId)
    ensures held + Unseen([n, n], KeySet(held, NoteId)) == held + [n, n]
    ensures !DistinctKeys(held + Unseen([n, n], KeySet(held, NoteId)), NoteId)
  {
    UnseenAllNew([n, n], KeySet(held, NoteId));
    assert (held + [n, n])[|held|] == n == (held + [n, n])[|held| + 1];
  }

  /** Toggling the same id twice restores the published list. */
  lemma ToggleFirstTwice(s: seq<Note>, id: int)
    ensures ToggleFirst(ToggleFirst(s, id), id) == s
  {
    var i := IndexOfFirst(s, NoteId, id);
    if i != -1 {
      var t := s[i := ToggledNote(s[i])];
      IndexOfFirstSameKeys(s, t, NoteId, id);
      ToggledNoteTwice(s[i]);
      assert t[i := ToggledNote(t[i])] == s;
    }
  }

  /** toggleLike changes the first matching note only; lengths and ids stay as they were. */
  lemma ToggleFirstShape(s: seq<Note>, id: int)
    ensures |ToggleFirst(s, id)| == |s|
    ensures forall j :: 0 <= j < |s| ==> ToggleFirst(s, id)[j].id == s[j].id
    ensures IndexOfFirst(s, NoteId, id) == -1 ==> ToggleFirst(s, id) == s
    ensures IndexOfFirst(s, NoteId, id) >= 0 ==>
      var i := IndexOfFirst(s, NoteId, id);
      && ToggleFirst(s, id)[i] == ToggledNote(s[i])
      && forall j :: 0 <= j < |s| && j != i ==> ToggleFirst(s, id)[j] == s[j]
  {
  }

  class MainViewModel {
    /** Size of a full page: a shorter batch means there is nothing more to load. */
    const pageSize: int := 16

    var currentPage: int
    /** The canonical list, changed in place by clear/addAll and indexed assignment. */
    var localNotes: seq<Note>
    /** The published list (`_notes.value`); None until it is first set. */
    var notes: Option<seq<Note>>
    var isLoading: bool
    var isLoadingMore: bool
    var hasMoreData: bool

    /** The page counter never drops below 1, and nothing is held before anything was published. */
    ghost predicate Valid()
      reads this
    {
      currentPage >= 1 && (notes.None? ==> localNotes == [])
    }

    constructor ()
      ensures Valid()
      ensures currentPage == 1 && localNotes == [] && notes == None
      ensures !isLoading && !isLoadingMore && hasMoreData
    {
      currentPage := 1;
      localNotes := [];
      notes := None;
      isLoading := false;
      isLoadingMore := false;
      hasMoreData := true;
    }

    /**
     * Refresh: the page counter is reset before the fetch; a successful fetch replaces both
     * lists; a failed one leaves lists and hasMoreData alone. isLoading ends false either way.
     */
    method LoadFirstPage(fetched: FetchResult<seq<Note>>)
      requires Valid()
      modifies this`isLoading, this`currentPage, this`localNotes, this`notes, this`hasMoreData
      ensures Valid()
      ensures currentPage == 1 && !isLoading
      ensures fetched.Success? ==>
        && localNotes == fetched.value
        && notes == Some(localNotes)
        && hasMoreData == (|fetched.value| >= pageSize)
      ensures fetched.Failure? ==>
        localNotes == old(localNotes) && notes == old(notes) && hasMoreData == old(hasMoreData)
    {
      isLoading := true;
      currentPage := 1;
      if fetched.Success? {
        var apiNotes := fetched.value;
        localNotes := apiNotes;
        notes := Some(localNotes);
        hasMoreData := |apiNotes| >= pageSize;
      }
      isLoading := false;
    }

    /**
     * The re-entrancy guard of loadMore: it proceeds only when more data is expected and no
     * load is in flight, and then marks a load as in flight.
     */
    method BeginLoadMore() returns (started: bool)
      requires Valid()
      modifies this`isLoadingMore
      ensures Valid()
      ensures started <==> hasMoreData && !old(isLoadingMore)
      ensures isLoadingMore == (started || old(isLoadingMore))
    {
      if !hasMoreData || isLoadingMore {
        return false;
      }
      isLoadingMore := true;
      started := true;
    }

    /**
     * The rest of loadMore once the guard has passed: the page counter advances whatever the
     * outcome; on success the fetched notes with unseen ids are appended in fetched order and
     * republished only when there are some; isLoadingMore ends false.
     */
    method CompleteLoadMore(fetched: FetchResult<seq<Note>>)
      requires Valid() && isLoadingMore
      modifies this`currentPage, this`localNotes, this`notes, this`hasMoreData, this`isLoadingMore
      ensures Valid()
      ensures currentPage == old(currentPage) + 1
      ensures !isLoadingMore
      ensures fetched.Success? ==>
        var appended := Unseen(fetched.value, KeySet(old(localNotes), NoteId));
        && localNotes == old(localNotes) + appended
        && notes == (if appended == [] then old(notes) else Some(localNotes))
        && hasMoreData == (|fetched.value| >= pageSize)
      ensures fetched.Success? && DistinctKeys(old(localNotes), NoteId) && DistinctKeys(fetched.value, NoteId) ==>
        DistinctKeys(localNotes, NoteId)
      ensures fetched.Failure? ==>
        localNotes == old(localNotes) && notes == old(notes) && hasMoreData == old(hasMoreData)
    {
      currentPage := currentPage + 1;
      if fetched.Success? {
        var newApiNotes := fetched.value;
        var distinctNotes := MergeBatch(newApiNotes, localNotes);
        if DistinctKeys(localNotes, NoteId) && DistinctKeys(newApiNotes, NoteId) {
          AppendUnseenDistinct(localNotes, newApiNotes);
        }
        if distinctNotes != [] {
          localNotes := localNotes + distinctNotes;
          notes := Some(localNotes);
        }
        hasMoreData := |newApiNotes| >= pageSize;
      }
      isLoadingMore := false;
    }

    /** loadMore as one step: a complete no-op when the guard refuses. */
    method LoadMore(fetched: FetchResult<seq<Note>>) returns (started: bool)
      requires Valid()
      modifies this`currentPage, this`localNotes, this`notes, this`hasMoreData, this`isLoadingMore
      ensures Valid()
      ensures started <==> old(hasMoreData) && !old(isLoadingMore)
      ensures !started ==>
        && currentPage == old(currentPage) && localNotes == old(localNotes) && notes == old(notes)
        && hasMoreData == old(hasMoreData) && isLoadingMore == old(isLoadingMore)
      ensures started ==> currentPage == old(currentPage) + 1 && !isLoadingMore
      ensures started && fetched.Success? ==>
        var appended := Unseen(fetched.value, KeySet(old(localNotes), NoteId));
        && localNotes == old(localNotes) + appended
        && notes == (if appended == [] then old(notes) else Some(localNotes))
        && hasMoreData == (|fetched.value| >= pageSize)
      ensures started && fetched.Failure? ==>
        localNotes == old(localNotes) && notes == old(notes) && hasMoreData == old(hasMoreData)
    {
      started := BeginLoadMore();
      if started {
        CompleteLoadMore(fetched);
      }
    }

    /**
     * Optimistic like: the first published note with the target's id is toggled, and the
     * same new copy is written over the first held note with that id. Nothing changes when
     * the id is not published.
     */
    method ToggleLike(target: Note)
      requires Valid()
      modifies this`notes, this`localNotes
      ensures Valid()
      ensures notes == match old(notes)
        case None => None
        case Some(s) => Some(ToggleFirst(s, target.id))
      ensures localNotes == match ToggleTarget(old(notes), target.id)
        case None => old(localNotes)
        case Some(t) => ReplaceFirst(old(localNotes), NoteId, t)
    {
      var currentList := if notes.Some? then notes.value else [];
      var index := IndexOfFirst(currentList, NoteId, target.id);
      if index != -1 {
        var oldNote := currentList[index];
        var newNote := ToggledNote(oldNote);
        currentList := currentList[index := newNote];
        var localIndex := IndexOfFirst(localNotes, NoteId, target.id);
        if localIndex != -1 {
          localNotes := localNotes[localIndex := newNote];
        }
        notes := Some(currentList);
      }
    }

    /** Wholesale replace-by-id on the published list only; localNotes is left as it was. */
    method UpdateNote(updatedNote: Note)
      requires Valid()
      modifies this`notes
      ensures Valid()
      ensures notes == match old(notes)
        case None => None
        case Some(s) => Some(ReplaceEvery(s, NoteId, updatedNote))
      ensures localNotes == old(localNotes)
    {
      if notes.Some? {
        notes := Some(ReplaceEvery(notes.value, NoteId, updatedNote));
      }
    }
  }

  /**
   * Two toggles of the same note restore the published list. The held list's first match
   * ends up equal to the published copy, so it is restored only if the two lists agreed.
   */
  method ToggleLikeTwice(vm: MainViewModel, target: Note)
    requires vm.Valid()
    modifies vm
    ensures vm.Valid()
    ensures vm.notes == old(vm.notes)
    ensures match ToggleTarget(old(vm.notes), target.id)
      case None => vm.localNotes == old(vm.localNotes)
      case Some(t) => vm.localNotes == ReplaceFirst(old(vm.localNotes), NoteId, ToggledNote(t))
  {
    ghost var published := vm.notes;
    ghost var held := vm.localNotes;
    vm.ToggleLike(target);
    ghost var held1 := vm.localNotes;
    vm.ToggleLike(target);
    if published.Some? {
      ToggleFirstTwice(published.value, target.id);
      var i := IndexOfFirst(published.value, NoteId, target.id);
      if i != -1 {
        var t := ToggledNote(published.value[i]);
        var s1 := ToggleFirst(published.value, target.id);
        IndexOfFirstSameKeys(published.value, s1, NoteId, target.id);
        assert ToggleTarget(Some(s1), target.id) == Some(ToggledNote(t));
        assert held1 == ReplaceFirst(held, NoteId, t);
        IndexOfFirstSameKeys(held, held1, NoteId, target.id);
      }
    }
  }

  /**
   * updateNote does not reach localNotes, so a detail-page update is discarded by the next
   * loadMore that appends: it republishes localNotes, which still holds the old copy.
   */
  method UpdateLostOnAppend(first: seq<Note>, updated: Note, extra: Note) returns (vm: MainViewModel)
    requires |first| >= 16 && updated.id == first[0].id && extra.id !in KeySet(first, NoteId)
    ensures vm.notes == Some(first + [extra])
  {
    vm := new MainViewModel();
    vm.LoadFirstPage(Success(first));
    vm.UpdateNote(updated);
    assert vm.localNotes == first;
    var started := vm.LoadMore(Success([extra]));
    UnseenAllNew([extra], KeySet(first, NoteId));
  }
}
