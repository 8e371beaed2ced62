/** The `BookmarkList` component's session state: the list it shows, the
    initial-load flag, the single id whose delete is in flight, and the
    realtime channel its mount effect opens and its cleanup removes. */
module BookmarkListComponent {
  import opened BookmarkTypes
  import opened ChangeFeed

  /** The realtime subscription: one channel, filtered on the owner's id. */
  datatype Channel = Channel(name: string, ownerFilter: string)

  /** What the ordered `select` on `bookmarks` yields. */
  datatype QueryResult = QueryResult(data: Option<seq<Bookmark>>, error: Option<string>)

  class BookmarkList {
    var bookmarks: seq<Bookmark>
    var loading: bool
    var deletingId: Option<string>
    var channel: Option<Channel>

    /** Mounting: the initial `useState` values and a null channel. */
    constructor ()
      ensures bookmarks == [] && loading && deletingId == None && channel == None
    {
      bookmarks, loading, deletingId, channel := [], true, None, None;
    }

    /** `fetchBookmarks`. Without a user the list is emptied and no query or
        channel is made. With one, the query's rows replace the list only
        when it reports no error and has data; the channel is opened either
        way. `loading` ends false on every path. Returns whether the query
        was issued. */
    method FetchBookmarks(user: Option<User>, query: QueryResult) returns (queried: bool)
      modifies this`bookmarks, this`loading, this`channel
      ensures !loading && deletingId == old(deletingId)
      ensures queried <==> user.Some?
      ensures user.None? ==> bookmarks == [] && channel == old(channel)
      ensures user.Some? && query.error.None? && query.data.Some? ==> bookmarks == query.data.value
      ensures user.Some? && (query.error.Some? || query.data.None?) ==> bookmarks == old(bookmarks)
      ensures user.Some? ==> channel == Some(Channel("bookmarks_channel", user.value.id))
    {
      if user.None? {
        bookmarks := [];
        loading := false;
        return false;
      }
      queried := true;
      if query.error.None? && query.data.Some? {
        bookmarks := query.data.value;
      }
      loading := false;
      channel := Some(Channel("bookmarks_channel", user.value.id));
    }

    /** The realtime callback: the list becomes the event folded into it. */
    method ApplyEvent(e: ChangeEvent)
      modifies this`bookmarks
      ensures bookmarks == Reconcile(old(bookmarks), e)
    {
      bookmarks := Reconcile(bookmarks, e);
    }

    /** `deletingId === bookmark.id`: the bookmark's button shows the spinner
        and is disabled. At most one id is flagged at a time, and none while no
        delete is in flight. */
    function IsDeleting(id: string): (r: bool)
      reads this
      ensures deletingId.None? ==> !r
      ensures r ==> deletingId.Some? && deletingId.value == id
      ensures deletingId.Some? && deletingId.value == id ==> r
    {
      deletingId == Some(id)
    }

    /** `handleDelete` up to its await: flag the id, then issue the delete
        for it. The list is not touched. Returns the id the delete targets. */
    method BeginDelete(id: string) returns (target: string)
      modifies this`deletingId
      ensures deletingId == Some(id) && target == id
      ensures bookmarks == old(bookmarks)
    {
      deletingId := Some(id);
      target := id;
    }

    /** `handleDelete` after its await: the `finally` clears the flag
        whatever the outcome, a failure raises an alert, and the list is
        still not touched; the row leaves the list only through the DELETE
        event. Returns whether the failure alert was shown. */
    method FinishDelete(deleteError: Option<string>) returns (alerted: bool)
      modifies this`deletingId
      ensures deletingId == None && bookmarks == old(bookmarks)
      ensures alerted <==> deleteError.Some?
    {
      alerted := deleteError.Some?;
      deletingId := None;
    }

    /** One whole `handleDelete` with nothing in between its steps. */
    method HandleDelete(id: string, deleteError: Option<string>) returns (target: string, alerted: bool)
      modifies this`deletingId
      ensures target == id && deletingId == None && bookmarks == old(bookmarks)
      ensures alerted <==> deleteError.Some?
    {
      target := BeginDelete(id);
      alerted := FinishDelete(deleteError);
    }

    /** The effect's cleanup: `removeChannel` is called with the channel
        precisely when one was opened; no field changes. Returns the channel
        removed, if any. */
    method Teardown() returns (removed: Option<Channel>)
      ensures removed == channel
    {
      if channel.Some? {
        removed := channel;
      } else {
        removed := None;
      }
    }
  }

  /** A newer row arriving by INSERT after the initial load goes in front. */
  method LoadThenInsertScenario(user: User, a: Bookmark, b: Bookmark) {
    var view := new BookmarkList();
    var queried := view.FetchBookmarks(Some(user), QueryResult(Some([a]), None));
    assert view.bookmarks == [a];
    view.ApplyEvent(Insert(b));
    assert view.bookmarks == [b, a];
  }

  /** A successful delete: the row is flagged but still listed while the
      call is in flight, still listed and no longer flagged once it returns,
      and gone when the DELETE event arrives. */
  method DeleteScenario(a: Bookmark, b: Bookmark)
    requires a.id != b.id
  {
    var view := new BookmarkList();
    view.ApplyEvent(Insert(a));
    view.ApplyEvent(Insert(b));
    assert view.bookmarks == [b, a];
    var target := view.BeginDelete(a.id);
    assert view.IsDeleting(a.id) && a in view.bookmarks;
    var alerted := view.FinishDelete(None);
    assert !view.IsDeleting(a.id) && a in view.bookmarks;
    view.ApplyEvent(Delete(a.id));
    RemoveExact([b, a], a.id);
    assert a !in view.bookmarks;
  }

  /** Only one id is tracked: when two deletes overlap, flagging the second
      unflags the first, and the first to finish unflags the second while
      its delete is still in flight. */
  method OverlappingDeletesScenario(x: string, y: string)
    requires x != y
  {
    var view := new BookmarkList();
    var tx := view.BeginDelete(x);
    var ty := view.BeginDelete(y);
    assert !view.IsDeleting(x);
    var alerted := view.FinishDelete(None);
    assert !view.IsDeleting(y);
  }
}
