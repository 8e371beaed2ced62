/** The `addBookmark` server action: auth check, title fallback, one insert,
    then an error result or a cache revalidation and a success result. */
module ServerActions {
  import opened BookmarkTypes
  import opened JsStrings
  import opened BookmarkInput

  /** The value the action resolves to: `{ error }` or `{ success: true }`. */
  datatype ActionResult = ErrorResult(message: string) | SuccessResult

  /** What one call does: either it returns a result, having issued at most
      one insert and possibly `revalidatePath('/')`, or `new URL` throws and
      the call rejects. */
  datatype ActionRun =
    | Returned(result: ActionResult, inserted: Option<NewBookmark>, revalidated: bool)
    | Threw

  /** `addBookmark(url, title)`; `user` is what `auth.getUser()` yields and
      `insertError` the message of the error the insert reports, if any. */
  function AddBookmark(url: string, title: Option<string>, user: Option<User>, parse: UrlParser,
                       insertError: Option<string>): (run: ActionRun)
    // Without a user: an error result, and nothing is inserted or revalidated.
    ensures user.None? ==> run == Returned(ErrorResult(LoggedOutMessage), None, false)
    // The call throws exactly when the host name fallback is needed and the URL does not parse.
    ensures run.Threw? <==> user.Some? && (title.None? || AllWhitespace(title.value)) && parse(url).None?
    // Once past the auth check and the title, exactly one row goes in: the user's, with the title and trimmed URL.
    ensures user.Some? && !run.Threw? ==>
      && run.inserted.Some?
      && run.inserted.value.userId == user.value.id
      && Some(run.inserted.value.title) == ResolveTitle(title, url, parse)
      && run.inserted.value.url == Trim(url)
    // An insert error is passed back with its message unchanged and no revalidation.
    ensures user.Some? && !run.Threw? && insertError.Some? ==>
      run.result == ErrorResult(insertError.value) && !run.revalidated
    // Success revalidates the page and reports success.
    ensures user.Some? && !run.Threw? && insertError.None? ==>
      run.result == SuccessResult && run.revalidated
  {
    if user.None? then Returned(ErrorResult(LoggedOutMessage), None, false)
    else
      match ResolveTitle(title, url, parse)
      case None => Threw
      case Some(finalTitle) =>
        var row := RowToInsert(user.value, finalTitle, url);
        if insertError.Some? then Returned(ErrorResult(insertError.value), Some(row), false)
        else Returned(SuccessResult, Some(row), true)
  }

  /** The action never validates the URL: given a non-blank title, a string
      that does not parse as a URL is stored as it is, trimmed. */
  lemma UnparseableUrlIsStored(url: string, title: string, user: User, parse: UrlParser, insertError: Option<string>)
    requires parse(url).None? && !AllWhitespace(title)
    ensures AddBookmark(url, Some(title), Some(user), parse, insertError).Returned?
    ensures AddBookmark(url, Some(title), Some(user), parse, insertError).inserted
      == Some(NewBookmark(user.id, Trim(title), Trim(url)))
  {
  }

  /** An absent title and a blank one are the same to the action: both store
      the URL's host name. */
  lemma BlankTitleFallsBackToHost(url: string, title: string, user: User, parse: UrlParser, insertError: Option<string>)
    requires AllWhitespace(title) && parse(url).Some?
    ensures AddBookmark(url, Some(title), Some(user), parse, insertError)
      == AddBookmark(url, None, Some(user), parse, insertError)
    ensures AddBookmark(url, None, Some(user), parse, insertError).inserted
      == Some(NewBookmark(user.id, parse(url).value, Trim(url)))
  {
  }
}
