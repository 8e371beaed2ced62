/** The database row shapes, the signed-in user, and the oracles the components
    consult without this model seeing how they work. */
module BookmarkTypes {

  datatype Option<T> = None | Some(value: T)

  /** A row of the `bookmarks` table. */
  datatype Bookmark = Bookmark(id: string, userId: string, title: string, url: string, createdAt: string)

  /** The columns a client supplies on insert: the row without `id` and
      `created_at`, which the database assigns. */
  datatype NewBookmark = NewBookmark(userId: string, title: string, url: string)

  datatype UserMetadata = UserMetadata(avatarUrl: Option<string>, fullName: Option<string>, name: Option<string>)

  /** The authenticated principal returned by `auth.getUser()`. */
  datatype User = User(id: string, email: Option<string>, userMetadata: Option<UserMetadata>)

  /** `new URL(s)`: `Some(host)` with the parsed URL's `hostname` when the
      WHATWG parser accepts `s`, `None` when the constructor throws. */
  type UrlParser = string -> Option<string>
}
