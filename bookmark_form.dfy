/** The add-bookmark form: its five state cells and `handleSubmit`, which
    validates the URL, looks up the user, inserts one row and reports the
    outcome. `handleSubmit` suspends at two awaits, so it is modelled as three
    steps, one per stretch of code between awaits, and as their composition
    when no other event intervenes. */
module BookmarkFormComponent {
  import opened BookmarkTypes
  import opened JsStrings
  import opened BookmarkInput

  /** The `url` and `title` values the submit handler captured when it ran. */
  datatype Submission = Submission(url: string, title: string)

  /** Where a suspended `handleSubmit` stands. */
  datatype SubmitStep =
    | Stopped
    | AwaitingUser(submission: Submission)
    | AwaitingInsert(row: NewBookmark)

  class BookmarkForm {
    var url: string
    var title: string
    var loading: bool
    var success: bool
    var error: string

    /** The initial `useState` values. */
    constructor ()
      ensures url == "" && title == "" && !loading && !success && error == ""
    {
      url, title, loading, success, error := "", "", false, false, "";
    }

    /** Typing into the URL field. */
    method SetUrl(value: string)
      modifies this`url
      ensures url == value
    {
      url := value;
    }

    /** Typing into the title field. */
    method SetTitle(value: string)
      modifies this`title
      ensures title == value
    {
      title := value;
    }

    /** `disabled={loading || !url}` on the submit button: the button can be
        pressed only while no submission is in flight and a URL was typed. */
    function SubmitDisabled(): (r: bool)
      reads this
      ensures loading ==> r
      ensures url == "" ==> r
      ensures !r ==> !loading && |url| > 0
    {
      loading || url == ""
    }

    /** From the start of `handleSubmit` to the `auth.getUser()` await: reset
        the status cells, then validate the untrimmed URL. */
    method BeginSubmit(parse: UrlParser) returns (next: SubmitStep)
      modifies this`error, this`success, this`loading
      ensures url == old(url) && title == old(title) && !success
      ensures parse(url).None? ==> next == Stopped && error == InvalidUrlMessage && !loading
      ensures parse(url).Some? ==> next == AwaitingUser(Submission(url, title)) && error == "" && loading
      ensures next.AwaitingUser? ==> SubmitDisabled()
    {
      error := "";
      success := false;
      loading := true;
      if parse(url).None? {
        error := InvalidUrlMessage;
        loading := false;
        return Stopped;
      }
      next := AwaitingUser(Submission(url, title));
    }

    /** From the `auth.getUser()` await to the insert await. The submission's
        URL has already passed validation, so the host name fallback cannot
        throw. */
    method ResumeWithUser(submission: Submission, parse: UrlParser, user: Option<User>) returns (next: SubmitStep)
      requires parse(submission.url).Some?
      modifies this`error, this`loading
      ensures user.None? ==> next == Stopped && error == LoggedOutMessage && !loading
      ensures user.None? ==> url == old(url) && title == old(title) && success == old(success)
      ensures user.Some? ==> unchanged(this)
      ensures user.Some? ==>
        && next.AwaitingInsert?
        && next.row.userId == user.value.id
        && Some(next.row.title) == ResolveTitle(Some(submission.title), submission.url, parse)
        && next.row.url == Trim(submission.url)
    {
      if user.None? {
        error := LoggedOutMessage;
        loading := false;
        return Stopped;
      }
      var finalTitle := ResolveTitle(Some(submission.title), submission.url, parse).value;
      next := AwaitingInsert(RowToInsert(user.value, finalTitle, submission.url));
    }

    /** From the insert await to the end: on success clear the fields and
        flag success, on failure show the error's message (or a generic one
        when it is empty); `loading` is cleared either way. */
    method ResumeWithInsert(insertError: Option<string>)
      modifies this
      ensures !loading && (SubmitDisabled() <==> url == "")
      ensures insertError.None? ==> url == "" && title == "" && success && error == old(error)
      ensures insertError.Some? ==> url == old(url) && title == old(title) && success == old(success)
      ensures insertError.Some? ==>
        error == if insertError.value == "" then InsertFailedMessage else insertError.value
    {
      if insertError.Some? {
        error := if insertError.value == "" then InsertFailedMessage else insertError.value;
      } else {
        url := "";
        title := "";
        success := true;
      }
      loading := false;
    }

    /** One whole `handleSubmit` with nothing in between its steps. Returns
        whether the user was looked up and the row that was inserted, if any. */
    method HandleSubmit(parse: UrlParser, user: Option<User>, insertError: Option<string>)
      returns (lookedUpUser: bool, inserted: Option<NewBookmark>)
      modifies this
      ensures !loading
      ensures lookedUpUser <==> parse(old(url)).Some?
      ensures inserted.Some? <==> parse(old(url)).Some? && user.Some?
      // An invalid URL stops before the auth lookup, leaving the fields as typed.
      ensures parse(old(url)).None? ==>
        error == InvalidUrlMessage && !success && url == old(url) && title == old(title)
      // Without a user nothing is inserted.
      ensures parse(old(url)).Some? && user.None? ==>
        error == LoggedOutMessage && !success && url == old(url) && title == old(title)
      ensures inserted.Some? ==>
        && inserted.value.userId == user.value.id
        && Some(inserted.value.title) == ResolveTitle(Some(old(title)), old(url), parse)
        && inserted.value.url == Trim(old(url))
      // A failed insert leaves the fields as typed and shows the error.
      ensures inserted.Some? && insertError.Some? ==>
        && error == (if insertError.value == "" then InsertFailedMessage else insertError.value)
        && !success && url == old(url) && title == old(title)
      // A successful insert clears the fields and flags success.
      ensures inserted.Some? && insertError.None? ==> error == "" && success && url == "" && title == ""
    {
      lookedUpUser, inserted := false, None;
      var step := BeginSubmit(parse);
      if step.AwaitingUser? {
        lookedUpUser := true;
        step := ResumeWithUser(step.submission, parse, user);
        if step.AwaitingInsert? {
          inserted := Some(step.row);
          ResumeWithInsert(insertError);
        }
      }
    }
  }

  /** A submission with nothing in between its steps, from a fresh form the
      user has filled in with a parseable URL and no title: the host name is
      stored as the title, and the cleared form cannot be submitted again. */
  method SubmitScenario(parse: UrlParser, user: User, u: string, host: string)
    requires u != "" && parse(u) == Some(host)
  {
    var form := new BookmarkForm();
    form.SetUrl(u);
    assert !form.SubmitDisabled();
    var lookedUp, inserted := form.HandleSubmit(parse, Some(user), None);
    assert AllWhitespace("");
    assert inserted == Some(NewBookmark(user.id, host, Trim(u)));
    assert form.success && form.SubmitDisabled();
  }
}
