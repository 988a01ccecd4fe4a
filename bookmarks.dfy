/**
 * Bookmark records and the toggle both readers share: a location is bookmarked
 * when some bookmark of the open book has exactly that location string, and the
 * toggle removes the first such bookmark or creates a new one.
 */
module Bookmarks {
  import opened Wrappers
  import Seqs

  /** A bookmark row. An `id` of 0 stands for a missing (falsy) id. */
  datatype Bookmark = Bookmark(id: nat, bookId: int, location: string, caption: string, createdAt: int)

  /** `bookmarks.some(b => b.location === location)`. */
  predicate IsBookmarked(bms: seq<Bookmark>, location: string) {
    exists i :: 0 <= i < |bms| && bms[i].location == location
  }

  /** Index of the first bookmark at `location` (`bookmarks.find(...)`). */
  function FirstMatch(bms: seq<Bookmark>, location: string): (r: Option<nat>)
    ensures r.Some? <==> IsBookmarked(bms, location)
    ensures r.Some? ==> r.value < |bms| && bms[r.value].location == location
    ensures r.Some? ==> forall j :: 0 <= j < r.value ==> bms[j].location != location
  {
    Seqs.FirstIndex(bms, (b: Bookmark) => b.location == location)
  }

  /** What a toggle asks the store to do. */
  datatype Toggle = NoChange | Remove(id: nat) | Create(location: string, caption: string)

  /**
   * Toggle at `location`: an existing first match is removed when it has an id
   * (a match without one is left alone); otherwise a bookmark is created with `caption`.
   */
  function ToggleAt(bms: seq<Bookmark>, location: string, caption: string): (t: Toggle)
    ensures !IsBookmarked(bms, location) <==> t == Create(location, caption)
    ensures t.Remove? ==> exists i :: 0 <= i < |bms| && bms[i].location == location && bms[i].id == t.id && t.id > 0
    ensures t.NoChange? ==> FirstMatch(bms, location).Some? && bms[FirstMatch(bms, location).value].id == 0
  {
    match FirstMatch(bms, location)
    case None => Create(location, caption)
    case Some(k) => if bms[k].id > 0 then Remove(bms[k].id) else NoChange
  }

  /** The rows left after `delete(id)` on the bookmark table. */
  function WithoutId(bms: seq<Bookmark>, id: int): (r: seq<Bookmark>)
    ensures forall i :: 0 <= i < |r| ==> r[i].id != id && r[i] in bms
    ensures forall i :: 0 <= i < |bms| && bms[i].id != id ==> bms[i] in r
  {
    Seqs.Filter(bms, (b: Bookmark) => b.id != id)
  }

  /** The bookmark table after `where('bookId').equals(bookId).delete()`: the cascade of a book's deletion. */
  function BookmarksWithoutBook(rows: seq<Bookmark>, bookId: int): (r: seq<Bookmark>)
    ensures forall i :: 0 <= i < |r| ==> r[i].bookId != bookId && r[i] in rows
    ensures forall i :: 0 <= i < |rows| && rows[i].bookId != bookId ==> rows[i] in r
  {
    Seqs.Filter(rows, (b: Bookmark) => b.bookId != bookId)
  }

  /** The bookmark list after the store carries out `t`, a new row getting `newId` and `now`. */
  function Apply(bms: seq<Bookmark>, t: Toggle, bookId: int, newId: nat, now: int): seq<Bookmark> {
    match t
    case NoChange => bms
    case Remove(id) => WithoutId(bms, id)
    case Create(location, caption) => bms + [Bookmark(newId, bookId, location, caption, now)]
  }

  /** At most one bookmark per location, ids unique, and every bookmark has a real id. */
  predicate WellFormed(bms: seq<Bookmark>) {
    (forall i, j :: 0 <= i < j < |bms| ==> bms[i].location != bms[j].location) &&
    (forall i, j :: 0 <= i < j < |bms| ==> bms[i].id != bms[j].id) &&
    (forall i :: 0 <= i < |bms| ==> bms[i].id > 0)
  }

  /** No bookmark carries `id`. */
  predicate FreshId(bms: seq<Bookmark>, id: nat) {
    id > 0 && forall i :: 0 <= i < |bms| ==> bms[i].id != id
  }

  /** On a well-formed list a toggle flips whether the location is bookmarked. */
  lemma {:induction false} ToggleFlips(bms: seq<Bookmark>, location: string, caption: string, bookId: int, newId: nat, now: int)
    requires WellFormed(bms)
    ensures IsBookmarked(Apply(bms, ToggleAt(bms, location, caption), bookId, newId, now), location)
            <==> !IsBookmarked(bms, location)
  {
    var t := ToggleAt(bms, location, caption);
    var after := Apply(bms, t, bookId, newId, now);
    if IsBookmarked(bms, location) {
      var k := FirstMatch(bms, location).value;
      assert t == Remove(bms[k].id);
    } else {
      assert after[|bms|].location == location;
    }
  }

  /**
   * Toggling twice with a fresh id restores a well-formed list exactly when the
   * location was not bookmarked, and keeps its length and membership otherwise.
   */
  lemma {:induction false} ToggleTwice(bms: seq<Bookmark>, location: string, caption: string, bookId: int, newId: nat, now: int, newId2: nat, now2: int)
    requires WellFormed(bms)
    requires FreshId(bms, newId)
    ensures var once := Apply(bms, ToggleAt(bms, location, caption), bookId, newId, now);
            var twice := Apply(once, ToggleAt(once, location, caption), bookId, newId2, now2);
            (!IsBookmarked(bms, location) ==> twice == bms) &&
            |twice| == |bms| &&
            (IsBookmarked(twice, location) <==> IsBookmarked(bms, location))
  {
    var once := Apply(bms, ToggleAt(bms, location, caption), bookId, newId, now);
    var twice := Apply(once, ToggleAt(once, location, caption), bookId, newId2, now2);
    if !IsBookmarked(bms, location) {
      assert once == bms + [Bookmark(newId, bookId, location, caption, now)];
      assert once[|bms|].location == location;
      assert forall j :: 0 <= j < |bms| ==> once[j] == bms[j];
      assert FirstMatch(once, location) == Some(|bms|);
      assert ToggleAt(once, location, caption) == Remove(newId);
      assert twice == Seqs.Filter(once, (b: Bookmark) => b.id != newId);
      FilterKeepsAllBut(bms, newId, Bookmark(newId, bookId, location, caption, now));
    } else {
      var k := FirstMatch(bms, location).value;
      var id := bms[k].id;
      assert ToggleAt(bms, location, caption) == Remove(id);
      assert once == Seqs.Filter(bms, (b: Bookmark) => b.id != id);
      FilterDropsOne(bms, k);
      assert !IsBookmarked(once, location) by {
        ToggleFlips(bms, location, caption, bookId, newId, now);
      }
      assert twice == once + [Bookmark(newId2, bookId, location, caption, now2)];
      assert twice[|once|].location == location;
    }
  }

  /** Removing an id absent from `bms` from `bms + [last]`, where `last` carries it, gives `bms` back. */
  lemma {:induction false} FilterKeepsAllBut(bms: seq<Bookmark>, id: nat, last: Bookmark)
    requires forall i :: 0 <= i < |bms| ==> bms[i].id != id
    requires last.id == id
    ensures Seqs.Filter(bms + [last], (b: Bookmark) => b.id != id) == bms
    decreases |bms|
  {
    var keep := (b: Bookmark) => b.id != id;
    if bms == [] {
      assert [last][1..] == [];
    } else {
      assert (bms + [last])[0] == bms[0];
      assert (bms + [last])[1..] == bms[1..] + [last];
      FilterKeepsAllBut(bms[1..], id, last);
      assert [bms[0]] + bms[1..] == bms;
    }
  }

  /** With unique ids, removing the id of `bms[k]` drops exactly that row. */
  lemma {:induction false} FilterDropsOne(bms: seq<Bookmark>, k: nat)
    requires k < |bms|
    requires forall i, j :: 0 <= i < j < |bms| ==> bms[i].id != bms[j].id
    ensures |Seqs.Filter(bms, (b: Bookmark) => b.id != bms[k].id)| == |bms| - 1
    decreases |bms|
  {
    var id := bms[k].id;
    var keep := (b: Bookmark) => b.id != id;
    if k == 0 {
      AllKept(bms[1..], id);
    } else {
      assert bms[1..][k - 1] == bms[k];
      FilterDropsOne(bms[1..], k - 1);
      assert bms[0].id != id;
    }
  }

  /** Filtering out an id nobody carries keeps everything. */
  lemma {:induction false} AllKept(bms: seq<Bookmark>, id: nat)
    requires forall i :: 0 <= i < |bms| ==> bms[i].id != id
    ensures Seqs.Filter(bms, (b: Bookmark) => b.id != id) == bms
    decreases |bms|
  {
    if bms != [] {
      var rest := bms[1..];
      assert forall i :: 0 <= i < |rest| ==> rest[i] == bms[i + 1];
      AllKept(rest, id);
      assert bms[0].id != id;
      assert [bms[0]] + rest == bms;
    }
  }

  /**
   * A duplicate location (two bookmarks at one place) survives a toggle: only the
   * first is removed, so the location remains bookmarked.
   */
  lemma {:induction false} DuplicateSurvivesToggle(bms: seq<Bookmark>, location: string, caption: string, bookId: int, newId: nat, now: int)
    requires forall i, j :: 0 <= i < j < |bms| ==> bms[i].id != bms[j].id
    requires exists i, j :: 0 <= i < j < |bms| && bms[i].location == location && bms[j].location == location
    ensures IsBookmarked(Apply(bms, ToggleAt(bms, location, caption), bookId, newId, now), location)
  {
    var i, j :| 0 <= i < j < |bms| && bms[i].location == location && bms[j].location == location;
    var k := FirstMatch(bms, location).value;
    assert k <= i;
    var t := ToggleAt(bms, location, caption);
    var after := Apply(bms, t, bookId, newId, now);
    if t.Remove? {
      assert t.id == bms[k].id;
      assert bms[j].id != t.id;
      assert bms[j] in after;
    } else {
      assert t.NoChange?;
      assert after == bms;
    }
  }
}
