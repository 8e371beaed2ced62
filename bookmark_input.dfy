/** What the add-bookmark form and the `addBookmark` server action both compute
    from what was typed: the title to store, and the row to insert. */
module BookmarkInput {
  import opened BookmarkTypes
  import opened JsStrings

  const InvalidUrlMessage: string := "Please enter a valid URL"
  const LoggedOutMessage: string := "You must be logged in to add bookmarks"
  const InsertFailedMessage: string := "Failed to add bookmark"

  /** `title?.trim() || new URL(url).hostname`: the trimmed title when one is
      given and is not blank, otherwise the URL's host. `None` means the
      fallback was needed and `new URL(url)` threw; the parser is consulted
      only when the fallback is needed. */
  function ResolveTitle(title: Option<string>, url: string, parse: UrlParser): (r: Option<string>)
    ensures r.None? <==> (title.None? || AllWhitespace(title.value)) && parse(url).None?
    ensures title.Some? && !AllWhitespace(title.value) ==> r == Some(Trim(title.value))
    ensures title.None? || AllWhitespace(title.value) ==> r == parse(url)
  {
    match title
    case None => parse(url)
    case Some(t) =>
      TrimEmptyIff(t);
      if Trim(t) != "" then Some(Trim(t)) else parse(url)
  }

  /** The insert payload: the user's id, the resolved title, the trimmed URL. */
  function RowToInsert(user: User, finalTitle: string, url: string): (row: NewBookmark)
    ensures row.userId == user.id && row.title == finalTitle
    ensures Trim(row.url) == row.url && |row.url| <= |url|
  {
    TrimIdempotent(url);
    NewBookmark(user.id, finalTitle, Trim(url))
  }

  /** A title taken from what the user typed is stored without surrounding
      whitespace and is never empty. */
  lemma ResolvedTitleIsTrimmed(title: Option<string>, url: string, parse: UrlParser)
    requires title.Some? && !AllWhitespace(title.value)
    ensures ResolveTitle(title, url, parse).Some?
    ensures var t := ResolveTitle(title, url, parse).value;
      t != [] && Trim(t) == t && !IsJsWhitespace(t[0]) && !IsJsWhitespace(t[|t| - 1])
  {
    var t := Trim(title.value);
    TrimEmptyIff(title.value);
    assert ResolveTitle(title, url, parse) == Some(t);
    TrimIdempotent(title.value);
    TrimEdges(title.value);
  }
}
