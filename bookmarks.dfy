/** `client/src/hooks/useBookmarks.ts`: named collections of verse ids `"<surah>-<verse>"`, kept in
    the hook's state and mirrored to localStorage under `quran-visions-bookmarks`. The list
    transforms are functions; the state and the storage slot are the fields of `BookmarkStore`. */
module Bookmarks {

  import opened Wrappers
  import opened Seqs
  import opened Text
  import opened BrowserStorage

  /** A `Bookmark`; `description` is optional. */
  datatype Bookmark = Bookmark(
    id: string,
    name: string,
    description: Option<string>,
    color: string,
    ayahIds: seq<string>,
    createdAt: int,
    updatedAt: int)

  /** The fields `updateBookmark` may be given (`Partial<Omit<Bookmark, 'id' | 'createdAt'>>`). */
  datatype BookmarkUpdate = BookmarkUpdate(
    name: Option<string>,
    description: Option<string>,
    color: Option<string>,
    ayahIds: Option<seq<string>>,
    updatedAt: Option<int>)

  const StorageKey: string := "quran-visions-bookmarks"
  const DefaultColor: string := "#c17e3a"

  /** `${surahNumber}-${ayahNumber}`. */
  function AyahId(surahNumber: int, ayahNumber: int): string {
    Decimal(surahNumber) + "-" + Decimal(ayahNumber)
  }

  /** Different verses of non-negative surah numbers get different ids. */
  lemma AyahIdInjective(s: int, a: int, s': int, a': int)
    requires s >= 0 && s' >= 0
    requires AyahId(s, a) == AyahId(s', a')
    ensures s == s' && a == a'
  {
    NatDecimalUnsigned(s);
    NatDecimalUnsigned(s');
    SplitAtFirst(Decimal(s), Decimal(a), Decimal(s'), Decimal(a'), '-');
    DecimalInjective(s, s');
    DecimalInjective(a, a');
  }

  function HasId(bookmarkId: string): Bookmark -> bool {
    (b: Bookmark) => b.id == bookmarkId
  }

  /** `bookmarks.map(b => b.id === bookmarkId ? f(b) : b)`. */
  function MapBookmark(list: seq<Bookmark>, bookmarkId: string, f: Bookmark -> Bookmark): (r: seq<Bookmark>)
    ensures |r| == |list|
    ensures forall i :: 0 <= i < |r| ==> r[i] == if list[i].id == bookmarkId then f(list[i]) else list[i]
  {
    seq(|list|, i requires 0 <= i < |list| => if list[i].id == bookmarkId then f(list[i]) else list[i])
  }

  /** The bookmark `addToBookmark` makes of the one it targets: the verse is appended, and the
      time stamped, only when it is not there yet. */
  function WithAyah(b: Bookmark, ayahId: string, now: int): (r: Bookmark)
    ensures ayahId in r.ayahIds
    ensures forall x :: x in r.ayahIds <==> x in b.ayahIds || x == ayahId
    ensures |b.ayahIds| <= |r.ayahIds| <= |b.ayahIds| + 1 && r.ayahIds[..|b.ayahIds|] == b.ayahIds
    ensures Distinct(b.ayahIds) ==> Distinct(r.ayahIds)
    ensures r == b <==> ayahId in b.ayahIds
    ensures r.updatedAt == if ayahId in b.ayahIds then b.updatedAt else now
    ensures r.(ayahIds := b.ayahIds, updatedAt := b.updatedAt) == b
  {
    if ayahId in b.ayahIds then b
    else
      var ids := b.ayahIds + [ayahId];
      assert ids[|b.ayahIds|] == ayahId;
      b.(ayahIds := ids, updatedAt := now)
  }

  /** The bookmark `removeFromBookmark` makes of the one it targets: every occurrence of the verse
      goes, and the time is stamped whether or not the verse was there. */
  function WithoutAyah(b: Bookmark, ayahId: string, now: int): (r: Bookmark)
    ensures ayahId !in r.ayahIds
    ensures forall x :: x in r.ayahIds <==> x in b.ayahIds && x != ayahId
    ensures IsSubseq(r.ayahIds, b.ayahIds)
    ensures Distinct(b.ayahIds) ==> Distinct(r.ayahIds)
    ensures r.updatedAt == now
    ensures r.(ayahIds := b.ayahIds, updatedAt := b.updatedAt) == b
  {
    var p := (x: string) => x != ayahId;
    assert Distinct(b.ayahIds) ==> Distinct(Filter(b.ayahIds, p)) by {
      if Distinct(b.ayahIds) {
        FilterDistinct(b.ayahIds, p);
      }
    }
    b.(ayahIds := Filter(b.ayahIds, p), updatedAt := now)
  }

  /** The bookmark `updateBookmark` makes: `{ ...b, ...updates, updatedAt: now }`. */
  function Patched(b: Bookmark, u: BookmarkUpdate, now: int): (r: Bookmark)
    ensures r.id == b.id && r.createdAt == b.createdAt && r.updatedAt == now
    ensures r.name == if u.name.Some? then u.name.value else b.name
    ensures r.description == if u.description.Some? then u.description else b.description
    ensures r.color == if u.color.Some? then u.color.value else b.color
    ensures r.ayahIds == if u.ayahIds.Some? then u.ayahIds.value else b.ayahIds
  {
    var b1 := if u.name.Some? then b.(name := u.name.value) else b;
    var b2 := if u.description.Some? then b1.(description := u.description) else b1;
    var b3 := if u.color.Some? then b2.(color := u.color.value) else b2;
    var b4 := if u.ayahIds.Some? then b3.(ayahIds := u.ayahIds.value) else b3;
    var b5 := if u.updatedAt.Some? then b4.(updatedAt := u.updatedAt.value) else b4;
    b5.(updatedAt := now)
  }

  function AddAyah(ayahId: string, now: int): Bookmark -> Bookmark {
    (b: Bookmark) => WithAyah(b, ayahId, now)
  }

  function RemoveAyah(ayahId: string, now: int): Bookmark -> Bookmark {
    (b: Bookmark) => WithoutAyah(b, ayahId, now)
  }

  function Patch(u: BookmarkUpdate, now: int): Bookmark -> Bookmark {
    (b: Bookmark) => Patched(b, u, now)
  }

  /** `isInBookmark`: the first bookmark with that id holds the verse; `false` when none has it. */
  function IsIn(list: seq<Bookmark>, bookmarkId: string, surahNumber: int, ayahNumber: int): (b: bool)
    ensures b <==>
      exists i :: 0 <= i < |list| && list[i].id == bookmarkId &&
        (forall j :: 0 <= j < i ==> list[j].id != bookmarkId) &&
        AyahId(surahNumber, ayahNumber) in list[i].ayahIds
  {
    var i := FindIndex(list, HasId(bookmarkId));
    match Find(list, HasId(bookmarkId))
    case None => false
    case Some(bookmark) =>
      assert bookmark == list[i];
      AyahId(surahNumber, ayahNumber) in bookmark.ayahIds
  }

  /** `deleteBookmark`: the bookmarks with that id go, the others stay in order. */
  function Deleted(list: seq<Bookmark>, bookmarkId: string): (r: seq<Bookmark>)
    ensures forall b :: b in r <==> b in list && b.id != bookmarkId
    ensures IsSubseq(r, list)
    ensures forall b :: multiset(r)[b] == if b.id != bookmarkId then multiset(list)[b] else 0
  {
    FilterMultiset(list, (b: Bookmark) => b.id != bookmarkId);
    Filter(list, (b: Bookmark) => b.id != bookmarkId)
  }

  /** `getBookmarksForAyah`: exactly the bookmarks holding the verse, in order. */
  function ForAyah(list: seq<Bookmark>, surahNumber: int, ayahNumber: int): (r: seq<Bookmark>)
    ensures forall b :: b in r <==> b in list && AyahId(surahNumber, ayahNumber) in b.ayahIds
    ensures IsSubseq(r, list)
    ensures forall b :: multiset(r)[b] == if AyahId(surahNumber, ayahNumber) in b.ayahIds then multiset(list)[b] else 0
  {
    FilterMultiset(list, (b: Bookmark) => AyahId(surahNumber, ayahNumber) in b.ayahIds);
    Filter(list, (b: Bookmark) => AyahId(surahNumber, ayahNumber) in b.ayahIds)
  }

  /** No bookmark lists a verse twice. */
  predicate IdsDistinct(list: seq<Bookmark>) {
    forall i :: 0 <= i < |list| ==> Distinct(list[i].ayahIds)
  }

  /** A transform that keeps every bookmark's id keeps `isInBookmark`'s choice of bookmark. */
  lemma FirstWithIdKept(list: seq<Bookmark>, r: seq<Bookmark>, bookmarkId: string)
    requires |r| == |list| && forall i :: 0 <= i < |r| ==> r[i].id == list[i].id
    ensures FindIndex(r, HasId(bookmarkId)) == FindIndex(list, HasId(bookmarkId))
  {
    var i := FindIndex(list, HasId(bookmarkId));
    if i < |list| {
      FindIndexAt(r, HasId(bookmarkId), i);
    } else {
      FindIndexNone(r, HasId(bookmarkId));
    }
  }

  /** After `addToBookmark`, `isInBookmark` holds for that bookmark and verse, provided the
      bookmark exists. */
  lemma AddThenIsIn(list: seq<Bookmark>, bookmarkId: string, s: int, a: int, now: int)
    requires exists i :: 0 <= i < |list| && list[i].id == bookmarkId
    ensures IsIn(MapBookmark(list, bookmarkId, AddAyah(AyahId(s, a), now)), bookmarkId, s, a)
  {
    var r := MapBookmark(list, bookmarkId, AddAyah(AyahId(s, a), now));
    FirstWithIdKept(list, r, bookmarkId);
    var k :| 0 <= k < |list| && list[k].id == bookmarkId;
    var i := FindIndex(list, HasId(bookmarkId));
    assert i <= k;
    assert r[i] == WithAyah(list[i], AyahId(s, a), now);
  }

  /** After `removeFromBookmark`, `isInBookmark` is false for that bookmark and verse. */
  lemma RemoveThenNotIn(list: seq<Bookmark>, bookmarkId: string, s: int, a: int, now: int)
    ensures !IsIn(MapBookmark(list, bookmarkId, RemoveAyah(AyahId(s, a), now)), bookmarkId, s, a)
  {
    var r := MapBookmark(list, bookmarkId, RemoveAyah(AyahId(s, a), now));
    FirstWithIdKept(list, r, bookmarkId);
    var i := FindIndex(list, HasId(bookmarkId));
    if i < |r| {
      assert r[i] == WithoutAyah(list[i], AyahId(s, a), now);
    }
  }

  /** After `deleteBookmark`, no bookmark with that id is left to hold anything. */
  lemma DeleteThenNotIn(list: seq<Bookmark>, bookmarkId: string, s: int, a: int)
    ensures !IsIn(Deleted(list, bookmarkId), bookmarkId, s, a)
  {
    var r := Deleted(list, bookmarkId);
    forall i | 0 <= i < |r| ensures r[i].id != bookmarkId {
      assert r[i] in r;
    }
  }

  /** Adding a verse the bookmark lacks and removing it again restores the bookmark's verses. */
  lemma AddThenRemove(b: Bookmark, ayahId: string, now: int, later: int)
    requires ayahId !in b.ayahIds
    ensures WithoutAyah(WithAyah(b, ayahId, now), ayahId, later).ayahIds == b.ayahIds
  {
    var p := (x: string) => x != ayahId;
    FilterAppend(b.ayahIds, [ayahId], p);
    FilterAll(b.ayahIds, p);
  }

  /** Adding the same verse twice is adding it once: the second call changes nothing. */
  lemma AddTwice(list: seq<Bookmark>, bookmarkId: string, ayahId: string, now: int, later: int)
    ensures var once := MapBookmark(list, bookmarkId, AddAyah(ayahId, now));
            MapBookmark(once, bookmarkId, AddAyah(ayahId, later)) == once
  {
  }

  /** Adding, removing and deleting keep every bookmark free of repeated verses; an update does so
      when the verses it sets are free of repetitions. */
  lemma TransformsKeepIdsDistinct(list: seq<Bookmark>, bookmarkId: string, ayahId: string, u: BookmarkUpdate, now: int)
    requires IdsDistinct(list)
    ensures IdsDistinct(MapBookmark(list, bookmarkId, AddAyah(ayahId, now)))
    ensures IdsDistinct(MapBookmark(list, bookmarkId, RemoveAyah(ayahId, now)))
    ensures IdsDistinct(Deleted(list, bookmarkId))
    ensures u.ayahIds.None? || Distinct(u.ayahIds.value) ==> IdsDistinct(MapBookmark(list, bookmarkId, Patch(u, now)))
  {
    var d := Deleted(list, bookmarkId);
    forall i | 0 <= i < |d| ensures Distinct(d[i].ayahIds) {
      assert d[i] in list;
    }
  }

  /** An update leaves the bookmark's id and creation time alone and repeating it only moves the
      time stamp. */
  lemma PatchTwice(b: Bookmark, u: BookmarkUpdate, now: int, later: int)
    ensures Patched(Patched(b, u, now), u, later) == Patched(b, u, later)
  {
  }

  /** The hook's state (`bookmarks`, `isLoaded`) and its storage slot. */
  class BookmarkStore {
    var bookmarks: seq<Bookmark>
    var isLoaded: bool
    var stored: Stored<seq<Bookmark>>

    constructor(initial: Stored<seq<Bookmark>>)
      ensures bookmarks == [] && !isLoaded && stored == initial
    {
      bookmarks, isLoaded, stored := [], false, initial;
    }

    /** The mount effect: take the stored list when there is one; an unreadable slot is ignored. */
    method Load()
      modifies this
      ensures bookmarks == if old(stored).Holds? then old(stored).value else old(bookmarks)
      ensures isLoaded && stored == old(stored)
    {
      if stored.Holds? {
        bookmarks := stored.value;
      }
      isLoaded := true;
    }

    /** `saveBookmarks`: write the list, then adopt it; a write that throws (`writeFails`) leaves
        both storage and state as they were. */
    method SaveBookmarks(newBookmarks: seq<Bookmark>, writeFails: bool)
      modifies this
      ensures writeFails ==> bookmarks == old(bookmarks) && stored == old(stored)
      ensures !writeFails ==> bookmarks == newBookmarks && stored == Holds(newBookmarks)
      ensures isLoaded == old(isLoaded)
    {
      if writeFails {
        return;
      }
      stored := Holds(newBookmarks);
      bookmarks := newBookmarks;
    }

    /** `createBookmark`: a new, empty bookmark appended after the existing ones, with id
        `bookmark-<now>`; `color` defaults to `#c17e3a`. */
    method CreateBookmark(name: string, description: Option<string>, color: Option<string>, now: int, writeFails: bool)
      returns (b: Bookmark)
      modifies this
      ensures b.id == "bookmark-" + Decimal(now) && b.name == name && b.description == description
      ensures b.color == (if color.Some? then color.value else DefaultColor)
      ensures b.ayahIds == [] && b.createdAt == now && b.updatedAt == now
      ensures bookmarks == if writeFails then old(bookmarks) else old(bookmarks) + [b]
      ensures stored == if writeFails then old(stored) else Holds(bookmarks)
      ensures isLoaded == old(isLoaded)
    {
      b := Bookmark("bookmark-" + Decimal(now), name, description,
        if color.Some? then color.value else DefaultColor, [], now, now);
      SaveBookmarks(bookmarks + [b], writeFails);
    }

    /** `addToBookmark`. */
    method AddToBookmark(bookmarkId: string, surahNumber: int, ayahNumber: int, now: int, writeFails: bool)
      modifies this
      ensures var updated := MapBookmark(old(bookmarks), bookmarkId, AddAyah(AyahId(surahNumber, ayahNumber), now));
              bookmarks == (if writeFails then old(bookmarks) else updated) &&
              stored == (if writeFails then old(stored) else Holds(updated))
      ensures isLoaded == old(isLoaded)
    {
      var ayahId := AyahId(surahNumber, ayahNumber);
      SaveBookmarks(MapBookmark(bookmarks, bookmarkId, AddAyah(ayahId, now)), writeFails);
    }

    /** `removeFromBookmark`. */
    method RemoveFromBookmark(bookmarkId: string, surahNumber: int, ayahNumber: int, now: int, writeFails: bool)
      modifies this
      ensures var updated := MapBookmark(old(bookmarks), bookmarkId, RemoveAyah(AyahId(surahNumber, ayahNumber), now));
              bookmarks == (if writeFails then old(bookmarks) else updated) &&
              stored == (if writeFails then old(stored) else Holds(updated))
      ensures isLoaded == old(isLoaded)
    {
      var ayahId := AyahId(surahNumber, ayahNumber);
      SaveBookmarks(MapBookmark(bookmarks, bookmarkId, RemoveAyah(ayahId, now)), writeFails);
    }

    /** `isInBookmark`, over the current state. */
    predicate IsInBookmark(bookmarkId: string, surahNumber: int, ayahNumber: int)
      reads this
      ensures IsInBookmark(bookmarkId, surahNumber, ayahNumber) ==>
        exists b :: b in bookmarks && b.id == bookmarkId && AyahId(surahNumber, ayahNumber) in b.ayahIds
      ensures (forall b :: b in bookmarks ==> b.id != bookmarkId) ==> !IsInBookmark(bookmarkId, surahNumber, ayahNumber)
    {
      IsIn(bookmarks, bookmarkId, surahNumber, ayahNumber)
    }

    /** `updateBookmark`. */
    method UpdateBookmark(bookmarkId: string, updates: BookmarkUpdate, now: int, writeFails: bool)
      modifies this
      ensures var updated := MapBookmark(old(bookmarks), bookmarkId, Patch(updates, now));
              bookmarks == (if writeFails then old(bookmarks) else updated) &&
              stored == (if writeFails then old(stored) else Holds(updated))
      ensures isLoaded == old(isLoaded)
    {
      SaveBookmarks(MapBookmark(bookmarks, bookmarkId, Patch(updates, now)), writeFails);
    }

    /** `deleteBookmark`. */
    method DeleteBookmark(bookmarkId: string, writeFails: bool)
      modifies this
      ensures bookmarks == if writeFails then old(bookmarks) else Deleted(old(bookmarks), bookmarkId)
      ensures stored == if writeFails then old(stored) else Holds(bookmarks)
      ensures isLoaded == old(isLoaded)
    {
      SaveBookmarks(Filter(bookmarks, (b: Bookmark) => b.id != bookmarkId), writeFails);
    }

    /** `getBookmarksForAyah`, over the current state. */
    function GetBookmarksForAyah(surahNumber: int, ayahNumber: int): (r: seq<Bookmark>)
      reads this
      ensures forall b :: b in r <==> b in bookmarks && AyahId(surahNumber, ayahNumber) in b.ayahIds
      ensures IsSubseq(r, bookmarks)
    {
      ForAyah(bookmarks, surahNumber, ayahNumber)
    }
  }
}
