/**
 * The home feed screen: a double tap on the first tab switches between the one-column and
 * the two-column layout, the second tab reloads the first page, scrolling past the end asks
 * for the next page, and a note handed back by the detail screen is written into the feed.
 */
module Home {
  import opened Collections
  import opened Model
  import opened Feed
  import opened Detail

  /**
   * The note a tap opens: the published copy with the tapped note's id if there is one
   * (it carries the latest like state), otherwise the tapped note itself.
   */
  function LatestNote(published: Option<seq<Note>>, clicked: Note): (r: Note)
    ensures r.id == clicked.id
    ensures published.Some? && IndexOfFirst(published.value, NoteId, clicked.id) >= 0 ==>
      r == published.value[IndexOfFirst(published.value, NoteId, clicked.id)]
    ensures published.None? || IndexOfFirst(published.value, NoteId, clicked.id) == -1 ==>
      r == clicked
  {
    match published
    case None => clicked
    case Some(s) =>
      match FirstOrNone(s, NoteId, clicked.id)
      case Some(n) => n
      case None => clicked
  }

  /** After a like in the feed, opening the same note shows it toggled. */
  lemma LatestAfterToggle(s: seq<Note>, clicked: Note)
    requires IndexOfFirst(s, NoteId, clicked.id) >= 0
    ensures LatestNote(Some(ToggleFirst(s, clicked.id)), clicked) ==
      ToggledNote(s[IndexOfFirst(s, NoteId, clicked.id)])
  {
    ToggleFirstShape(s, clicked.id);
    IndexOfFirstSameKeys(s, ToggleFirst(s, clicked.id), NoteId, clicked.id);
  }

  /** Two taps of the first tab closer than this many milliseconds form a double tap. */
  const DoubleTabTimeOut: int := 300

  /** True when a tap at `now` completes a double tap begun at `last`. */
  predicate IsDoubleTap(last: int, now: int)
  {
    now - last < DoubleTabTimeOut
  }

  class HomeFragment {
    const viewModel: MainViewModel
    var isSingleColumn: bool
    /** Time of the first tap of a possible double tap; 0 after a double tap completes. */
    var lastHomeTabClickTime: int

    ghost predicate Valid()
      reads this, viewModel
    {
      viewModel.Valid()
    }

    /** The saved layout choice is read when the view is created; no tap has happened yet. */
    constructor (vm: MainViewModel, savedSingleColumn: bool)
      requires vm.Valid()
      ensures viewModel == vm && Valid()
      ensures isSingleColumn == savedSingleColumn && lastHomeTabClickTime == 0
    {
      viewModel := vm;
      isSingleColumn := savedSingleColumn;
      lastHomeTabClickTime := 0;
    }

    /** setupLayoutManager: the layout flips between one and two columns. */
    method SetupLayoutManager()
      modifies this`isSingleColumn
      ensures isSingleColumn == !old(isSingleColumn)
    {
      isSingleColumn := !isSingleColumn;
    }

    /**
     * handleTabClick. Tab 0: a tap within the time-out of the previous one flips the layout
     * and clears the remembered time, any other tap remembers its time. Tab 1: the first page
     * is reloaded. Other tabs: nothing happens. Only tab 1 reaches the view model.
     */
    method HandleTabClick(position: int, now: int, fetched: FetchResult<seq<Note>>)
      requires Valid()
      modifies this`isSingleColumn, this`lastHomeTabClickTime, viewModel
      ensures Valid()
      ensures position == 0 && IsDoubleTap(old(lastHomeTabClickTime), now) ==>
        isSingleColumn == !old(isSingleColumn) && lastHomeTabClickTime == 0
      ensures position == 0 && !IsDoubleTap(old(lastHomeTabClickTime), now) ==>
        isSingleColumn == old(isSingleColumn) && lastHomeTabClickTime == now
      ensures position != 0 ==>
        isSingleColumn == old(isSingleColumn) && lastHomeTabClickTime == old(lastHomeTabClickTime)
      ensures position == 1 ==>
        && viewModel.currentPage == 1 && !viewModel.isLoading
        && viewModel.isLoadingMore == old(viewModel.isLoadingMore)
        && (fetched.Success? ==>
              && viewModel.localNotes == fetched.value
              && viewModel.notes == Some(fetched.value)
              && viewModel.hasMoreData == (|fetched.value| >= viewModel.pageSize))
        && (fetched.Failure? ==>
              && viewModel.localNotes == old(viewModel.localNotes)
              && viewModel.notes == old(viewModel.notes)
              && viewModel.hasMoreData == old(viewModel.hasMoreData))
      ensures position != 1 ==> unchanged(viewModel)
    {
      if position == 0 {
        if now - lastHomeTabClickTime < DoubleTabTimeOut {
          SetupLayoutManager();
          lastHomeTabClickTime := 0;
        } else {
          lastHomeTabClickTime := now;
        }
      } else if position == 1 {
        viewModel.LoadFirstPage(fetched);
      }
    }

    /**
     * The scroll listener: a downward scroll that cannot go further asks for the next page,
     * but only when more data is expected and no page is loading. The view model then applies
     * the same guard, so every request it receives goes ahead; without a request it is untouched.
     */
    method OnScrolled(dy: int, canScrollDown: bool, fetched: FetchResult<seq<Note>>) returns (requested: bool)
      requires Valid()
      modifies viewModel`currentPage, viewModel`localNotes, viewModel`notes, viewModel`hasMoreData,
        viewModel`isLoadingMore
      ensures Valid()
      ensures requested <==>
        !canScrollDown && dy > 0 && old(viewModel.hasMoreData) && !old(viewModel.isLoadingMore)
      ensures !requested ==> unchanged(viewModel)
      ensures requested ==>
        && viewModel.currentPage == old(viewModel.currentPage) + 1
        && !viewModel.isLoadingMore
        && viewModel.isLoading == old(viewModel.isLoading)
      ensures requested && fetched.Success? ==>
        var appended := Unseen(fetched.value, KeySet(old(viewModel.localNotes), NoteId));
        && viewModel.localNotes == old(viewModel.localNotes) + appended
        && viewModel.notes == (if appended == [] then old(viewModel.notes) else Some(viewModel.localNotes))
        && viewModel.hasMoreData == (|fetched.value| >= viewModel.pageSize)
      ensures requested && fetched.Failure? ==>
        && viewModel.localNotes == old(viewModel.localNotes)
        && viewModel.notes == old(viewModel.notes)
        && viewModel.hasMoreData == old(viewModel.hasMoreData)
    {
      requested := false;
      if !canScrollDown && dy > 0 {
        if viewModel.hasMoreData && !viewModel.isLoadingMore {
          var started := viewModel.LoadMore(fetched);
          requested := true;
        }
      }
    }

    /** onNoteClick: the note passed to the detail screen. */
    method OnNoteClick(note: Note) returns (latest: Note)
      ensures latest == LatestNote(viewModel.notes, note)
    {
      latest := note;
      if viewModel.notes.Some? {
        var found := FirstOrNone(viewModel.notes.value, NoteId, note.id);
        if found.Some? {
          latest := found.value;
        }
      }
    }

    /** The detail screen's result: a returned note is written into the published list. */
    method OnDetailResult(resultOk: bool, returned: Option<Note>)
      requires Valid()
      modifies viewModel`notes
      ensures Valid()
      ensures resultOk && returned.Some? ==> viewModel.notes == match old(viewModel.notes)
        case None => None
        case Some(s) => Some(ReplaceEvery(s, NoteId, returned.value))
      ensures !(resultOk && returned.Some?) ==> viewModel.notes == old(viewModel.notes)
    {
      if resultOk && returned.Some? {
        viewModel.UpdateNote(returned.value);
      }
    }
  }

  /** Two layout flips in a row restore the layout. */
  method FlipTwice(home: HomeFragment)
    modifies home
    ensures home.isSingleColumn == old(home.isSingleColumn)
  {
    home.SetupLayoutManager();
    home.SetupLayoutManager();
  }

  /**
   * Three quick taps on the first tab switch the layout once: the second tap completes a
   * double tap and clears the remembered time, so the third starts a new one.
   */
  method TripleTapFlipsOnce(home: HomeFragment, t1: int, t2: int, t3: int, fetched: FetchResult<seq<Note>>)
    requires home.Valid()
    requires !IsDoubleTap(home.lastHomeTabClickTime, t1) && IsDoubleTap(t1, t2) && t3 >= DoubleTabTimeOut
    modifies home, home.viewModel
    ensures home.isSingleColumn == !old(home.isSingleColumn)
    ensures home.lastHomeTabClickTime == t3
  {
    home.HandleTabClick(0, t1, fetched);
    home.HandleTabClick(0, t2, fetched);
    home.HandleTabClick(0, t3, fetched);
  }

  /**
   * Liking a note on the detail screen and coming back: the note opened is the published
   * copy, the screen toggles it, and every published note with its id becomes the toggled copy.
   */
  method LikeOnDetailScreen(home: HomeFragment, clicked: Note, s: seq<Note>)
    requires home.Valid() && home.viewModel.notes == Some(s)
    requires IndexOfFirst(s, NoteId, clicked.id) >= 0
    modifies home.viewModel
    ensures home.viewModel.notes ==
      Some(ReplaceEvery(s, NoteId, ToggledNote(s[IndexOfFirst(s, NoteId, clicked.id)])))
  {
    var latest := home.OnNoteClick(clicked);
    var screen := new NoteDetailActivity(latest);
    screen.ToggleLike();
    home.OnDetailResult(true, Some(screen.currentNote));
  }
}
