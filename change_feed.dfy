/** How `BookmarkList` folds one realtime change-feed event into its list of
    bookmarks: an insert is prepended, a delete filters out every entry with
    the event's id, an update maps matching entries to the new row. */
module ChangeFeed {
  import opened BookmarkTypes

  /** A `postgres_changes` payload, by its `eventType`. A DELETE payload
      carries only the old row's id. */
  datatype ChangeEvent =
    | Insert(row: Bookmark)
    | Update(row: Bookmark)
    | Delete(id: string)
    | OtherEvent(eventType: string)

  /** How many entries of `s` carry the id `id`. */
  function CountId(s: seq<Bookmark>, id: string): nat {
    if s == [] then 0 else (if s[0].id == id then 1 else 0) + CountId(s[1..], id)
  }

  /** `r` is `s` with some entries left out and the rest in their order. */
  ghost predicate IsSubsequence(r: seq<Bookmark>, s: seq<Bookmark>)
    decreases |s|
  {
    if r == [] then true
    else if s == [] then false
    else if r[0] == s[0] then IsSubsequence(r[1..], s[1..])
    else IsSubsequence(r, s[1..])
  }

  /** `current.filter(b => b.id !== id)`. */
  function RemoveId(current: seq<Bookmark>, id: string): (r: seq<Bookmark>)
    ensures |r| <= |current|
    ensures forall b :: b in r ==> b in current && b.id != id
  {
    if current == [] then []
    else if current[0].id != id then [current[0]] + RemoveId(current[1..], id)
    else RemoveId(current[1..], id)
  }

  /** `current.map(b => b.id === row.id ? row : b)`. */
  function ReplaceId(current: seq<Bookmark>, row: Bookmark): (r: seq<Bookmark>)
    ensures |r| == |current|
  {
    if current == [] then []
    else [if current[0].id == row.id then row else current[0]] + ReplaceId(current[1..], row)
  }

  /** The realtime callback: the list after the event. An INSERT adds one
      entry in front, an UPDATE keeps the length, a DELETE only drops entries
      with the deleted id, and any other event leaves the list alone. */
  function Reconcile(current: seq<Bookmark>, e: ChangeEvent): (r: seq<Bookmark>)
    ensures e.Insert? ==> |r| == |current| + 1 && r[0] == e.row && r[1..] == current
    ensures e.Update? ==> |r| == |current|
    ensures e.Delete? ==> |r| <= |current| && forall b :: b in r ==> b in current && b.id != e.id
    ensures e.OtherEvent? ==> r == current
  {
    match e
    case Insert(row) => [row] + current
    case Delete(id) => RemoveId(current, id)
    case Update(row) => ReplaceId(current, row)
    case OtherEvent(_) => current
  }

  lemma {:induction false} CountIdPositive(s: seq<Bookmark>, id: string)
    ensures CountId(s, id) > 0 <==> exists b :: b in s && b.id == id
  {
    if s != [] {
      CountIdPositive(s[1..], id);
      assert forall b :: b in s <==> b == s[0] || b in s[1..];
    }
  }

  /** An INSERT puts the new row at index 0 and keeps every old entry, in
      order, behind it. */
  lemma InsertPrepends(current: seq<Bookmark>, row: Bookmark)
    ensures |Reconcile(current, Insert(row))| == |current| + 1
    ensures Reconcile(current, Insert(row))[0] == row
    ensures Reconcile(current, Insert(row))[1..] == current
    ensures multiset(Reconcile(current, Insert(row))) == multiset(current) + multiset{row}
  {
    var r := Reconcile(current, Insert(row));
    assert r == [row] + current;
  }

  /** An INSERT does not look for the id: it adds one more entry with that id,
      so a row already in the list appears twice afterwards. */
  lemma {:induction false} InsertDuplicates(current: seq<Bookmark>, row: Bookmark)
    ensures CountId(Reconcile(current, Insert(row)), row.id) == CountId(current, row.id) + 1
    ensures (exists b :: b in current && b.id == row.id) ==> CountId(Reconcile(current, Insert(row)), row.id) >= 2
  {
    var r := [row] + current;
    assert r[1..] == current;
    CountIdPositive(current, row.id);
  }

  /** A DELETE removes every entry with the id and no other: each bookmark
      occurs afterwards as often as before, or not at all when its id is the
      deleted one. */
  lemma {:induction false} RemoveExact(current: seq<Bookmark>, id: string)
    ensures forall b :: multiset(RemoveId(current, id))[b] == if b.id == id then 0 else multiset(current)[b]
  {
    if current != [] {
      RemoveExact(current[1..], id);
      assert current == [current[0]] + current[1..];
    }
  }

  /** A DELETE keeps the remaining entries in their order. */
  lemma {:induction false} RemoveKeepsOrder(current: seq<Bookmark>, id: string)
    ensures IsSubsequence(RemoveId(current, id), current)
  {
    if current != [] {
      RemoveKeepsOrder(current[1..], id);
      var r := RemoveId(current, id);
      if current[0].id != id {
        assert r[0] == current[0] && r[1..] == RemoveId(current[1..], id);
      } else if r != [] {
        assert r[0] != current[0];
      }
    }
  }

  /** A DELETE shortens the list by the number of entries with the id. */
  lemma {:induction false} RemoveCount(current: seq<Bookmark>, id: string)
    ensures |RemoveId(current, id)| == |current| - CountId(current, id)
  {
    if current != [] {
      RemoveCount(current[1..], id);
    }
  }

  /** A DELETE for an id that is not in the list changes nothing. */
  lemma {:induction false} RemoveAbsent(current: seq<Bookmark>, id: string)
    requires CountId(current, id) == 0
    ensures Reconcile(current, Delete(id)) == current
  {
    if current != [] {
      RemoveAbsent(current[1..], id);
      assert current == [current[0]] + current[1..];
    }
  }

  /** Delivering the same DELETE twice is the same as delivering it once. */
  lemma DeleteIdempotent(current: seq<Bookmark>, id: string)
    ensures Reconcile(Reconcile(current, Delete(id)), Delete(id)) == Reconcile(current, Delete(id))
  {
    var once := RemoveId(current, id);
    CountIdPositive(once, id);
    RemoveAbsent(once, id);
  }

  /** An UPDATE keeps the length and every position: an entry whose id
      matches becomes the new row, every other entry is untouched. */
  lemma {:induction false} ReplacePointwise(current: seq<Bookmark>, row: Bookmark)
    ensures |Reconcile(current, Update(row))| == |current|
    ensures forall i :: 0 <= i < |current| ==>
      Reconcile(current, Update(row))[i] == if current[i].id == row.id then row else current[i]
  {
    if current != [] {
      ReplacePointwise(current[1..], row);
      var r := ReplaceId(current, row);
      forall i | 0 <= i < |current|
        ensures r[i] == if current[i].id == row.id then row else current[i]
      {
        if i > 0 {
          assert r[i] == ReplaceId(current[1..], row)[i - 1];
          assert current[i] == current[1..][i - 1];
        }
      }
    }
  }

  /** An UPDATE never changes which id sits at which position. */
  lemma ReplaceKeepsIds(current: seq<Bookmark>, row: Bookmark)
    ensures forall i :: 0 <= i < |current| ==> Reconcile(current, Update(row))[i].id == current[i].id
  {
    ReplacePointwise(current, row);
  }

  /** An UPDATE for an id that is not in the list changes nothing. */
  lemma UpdateAbsent(current: seq<Bookmark>, row: Bookmark)
    requires CountId(current, row.id) == 0
    ensures Reconcile(current, Update(row)) == current
  {
    CountIdPositive(current, row.id);
    ReplacePointwise(current, row);
    var r := Reconcile(current, Update(row));
    forall i | 0 <= i < |current| ensures r[i] == current[i] {
      assert current[i] in current;
    }
  }

  /** An event of any other type leaves the list as it was. */
  lemma OtherEventIgnored(current: seq<Bookmark>, e: ChangeEvent)
    requires !e.Insert? && !e.Update? && !e.Delete?
    ensures Reconcile(current, e) == current
  {
  }
}
