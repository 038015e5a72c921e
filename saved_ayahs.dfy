/** `client/src/hooks/useSavedAyahs.ts`: the list of saved verses, keyed by surah and verse number,
    and its localStorage mirror under `quran-visions-saved-ayahs`. The list transforms are
    functions; the hook's state and the storage slot are the fields of `SavedAyahStore`. */
module SavedAyahs {

  import opened Wrappers
  import opened Seqs
  import opened BrowserStorage

  datatype Translations = Translations(en: string, fr: string, es: string)

  /** A `SavedAyah`; `translations` and `notes` are optional. */
  datatype SavedAyah = SavedAyah(
    surahNumber: int,
    surahName: string,
    ayahNumber: int,
    text: string,
    translations: Option<Translations>,
    savedAt: int,
    notes: Option<string>)

  const StorageKey: string := "quran-visions-saved-ayahs"

  /** The entry is the one saved for verse `ayahNumber` of surah `surahNumber`. */
  predicate HasKey(x: SavedAyah, surahNumber: int, ayahNumber: int) {
    x.surahNumber == surahNumber && x.ayahNumber == ayahNumber
  }

  function IsKey(surahNumber: int, ayahNumber: int): SavedAyah -> bool {
    (x: SavedAyah) => HasKey(x, surahNumber, ayahNumber)
  }

  function NotKey(surahNumber: int, ayahNumber: int): SavedAyah -> bool {
    (x: SavedAyah) => !HasKey(x, surahNumber, ayahNumber)
  }

  function DifferentKeys(): (SavedAyah, SavedAyah) -> bool {
    (x: SavedAyah, y: SavedAyah) => !HasKey(y, x.surahNumber, x.ayahNumber)
  }

  /** No verse is saved twice. */
  predicate KeysUnique(list: seq<SavedAyah>) {
    Pairwise(list, DifferentKeys())
  }

  /** `prev.some(...)` / `savedAyahs.some(...)` on the key. */
  predicate IsSaved(list: seq<SavedAyah>, surahNumber: int, ayahNumber: int) {
    Any(list, IsKey(surahNumber, ayahNumber))
  }

  lemma IsSavedIff(list: seq<SavedAyah>, surahNumber: int, ayahNumber: int)
    ensures IsSaved(list, surahNumber, ayahNumber) <==>
      exists i :: 0 <= i < |list| && HasKey(list[i], surahNumber, ayahNumber)
  {
    if IsSaved(list, surahNumber, ayahNumber) {
      var x :| x in list && IsKey(surahNumber, ayahNumber)(x);
      var i :| 0 <= i < |list| && list[i] == x;
    } else {
      forall i | 0 <= i < |list| ensures !HasKey(list[i], surahNumber, ayahNumber) {
        assert list[i] in list;
      }
    }
  }

  /** The list `saveAyah` leaves: unchanged when the verse is already saved, otherwise one more
      entry, at the end, stamped with `now`. */
  function WithSaved(list: seq<SavedAyah>, ayah: SavedAyah, now: int): (r: seq<SavedAyah>)
    ensures IsSaved(r, ayah.surahNumber, ayah.ayahNumber)
    ensures |list| <= |r| <= |list| + 1 && r[..|list|] == list
    ensures |r| == |list| <==> IsSaved(list, ayah.surahNumber, ayah.ayahNumber)
    ensures |r| > |list| ==> r[|list|] == ayah.(savedAt := now)
    ensures KeysUnique(list) ==> KeysUnique(r)
  {
    if IsSaved(list, ayah.surahNumber, ayah.ayahNumber) then list
    else
      var x := ayah.(savedAt := now);
      var r := list + [x];
      assert IsKey(ayah.surahNumber, ayah.ayahNumber)(r[|list|]) && r[|list|] in r;
      assert KeysUnique(list) ==> KeysUnique(r) by {
        if KeysUnique(list) {
          forall i, j | 0 <= i < j < |r| ensures DifferentKeys()(r[i], r[j]) {
            if j == |list| {
              assert list[i] in list;
              assert !IsKey(ayah.surahNumber, ayah.ayahNumber)(list[i]);
            }
          }
        }
      }
      r
  }

  /** The list `removeAyah` leaves: every entry with the key goes, the others stay in order. */
  function Removed(list: seq<SavedAyah>, surahNumber: int, ayahNumber: int): (r: seq<SavedAyah>)
    ensures !IsSaved(r, surahNumber, ayahNumber)
    ensures forall x :: x in r <==> x in list && !HasKey(x, surahNumber, ayahNumber)
    ensures IsSubseq(r, list)
    ensures forall x :: multiset(r)[x] == if HasKey(x, surahNumber, ayahNumber) then 0 else multiset(list)[x]
    ensures KeysUnique(list) ==> KeysUnique(r)
  {
    FilterMultiset(list, NotKey(surahNumber, ayahNumber));
    var r := Filter(list, NotKey(surahNumber, ayahNumber));
    assert KeysUnique(list) ==> KeysUnique(r) by {
      if KeysUnique(list) {
        FilterPairwise(list, NotKey(surahNumber, ayahNumber), DifferentKeys());
      }
    }
    r
  }

  /** The list `addNote` leaves: the entries with the key carry the note; nothing else changes. */
  function WithNote(list: seq<SavedAyah>, surahNumber: int, ayahNumber: int, note: string): (r: seq<SavedAyah>)
    ensures |r| == |list|
    ensures forall i :: 0 <= i < |r| ==> r[i].(notes := list[i].notes) == list[i]
    ensures forall i :: 0 <= i < |r| ==>
      r[i].notes == if HasKey(list[i], surahNumber, ayahNumber) then Some(note) else list[i].notes
    ensures KeysUnique(list) ==> KeysUnique(r)
  {
    seq(|list|, i requires 0 <= i < |list| =>
      if HasKey(list[i], surahNumber, ayahNumber) then list[i].(notes := Some(note)) else list[i])
  }

  /** A verse saved and then removed leaves the list as it was. */
  lemma SaveThenRemove(list: seq<SavedAyah>, ayah: SavedAyah, now: int)
    requires !IsSaved(list, ayah.surahNumber, ayah.ayahNumber)
    ensures Removed(WithSaved(list, ayah, now), ayah.surahNumber, ayah.ayahNumber) == list
  {
    var p := NotKey(ayah.surahNumber, ayah.ayahNumber);
    FilterAppend(list, [ayah.(savedAt := now)], p);
    forall i | 0 <= i < |list| ensures p(list[i]) {
      assert list[i] in list;
    }
    FilterAll(list, p);
  }

  /** Saving a verse that is already saved, whatever its other fields, changes nothing. */
  lemma SaveTwice(list: seq<SavedAyah>, ayah: SavedAyah, again: SavedAyah, now: int, later: int)
    requires HasKey(again, ayah.surahNumber, ayah.ayahNumber)
    ensures WithSaved(WithSaved(list, ayah, now), again, later) == WithSaved(list, ayah, now)
  {
  }

  /** Removing is idempotent. */
  lemma RemoveTwice(list: seq<SavedAyah>, surahNumber: int, ayahNumber: int)
    ensures Removed(Removed(list, surahNumber, ayahNumber), surahNumber, ayahNumber) ==
      Removed(list, surahNumber, ayahNumber)
  {
    FilterAll(Removed(list, surahNumber, ayahNumber), NotKey(surahNumber, ayahNumber));
  }

  /** A note never changes which verses are saved, and a note for a verse that is not saved
      leaves the list as it was. */
  lemma NoteKeepsSavedVerses(list: seq<SavedAyah>, surahNumber: int, ayahNumber: int, note: string, s: int, a: int)
    ensures IsSaved(WithNote(list, surahNumber, ayahNumber, note), s, a) == IsSaved(list, s, a)
    ensures !IsSaved(list, surahNumber, ayahNumber) ==> WithNote(list, surahNumber, ayahNumber, note) == list
  {
    var r := WithNote(list, surahNumber, ayahNumber, note);
    IsSavedIff(list, s, a);
    IsSavedIff(r, s, a);
    assert forall i :: 0 <= i < |r| ==> (HasKey(r[i], s, a) <==> HasKey(list[i], s, a)) by {
      forall i | 0 <= i < |r| ensures HasKey(r[i], s, a) <==> HasKey(list[i], s, a) {
        assert r[i].(notes := list[i].notes) == list[i];
      }
    }
    if !IsSaved(list, surahNumber, ayahNumber) {
      IsSavedIff(list, surahNumber, ayahNumber);
      forall i | 0 <= i < |r| ensures r[i] == list[i] {
        assert r[i].(notes := list[i].notes) == list[i];
      }
    }
  }

  /** The hook's state (`savedAyahs`, `isLoaded`) and its storage slot. */
  class SavedAyahStore {
    var savedAyahs: seq<SavedAyah>
    var isLoaded: bool
    var stored: Stored<seq<SavedAyah>>

    /** The first render: an empty list, not yet loaded, over whatever the browser has stored. */
    constructor(initial: Stored<seq<SavedAyah>>)
      ensures savedAyahs == [] && !isLoaded && stored == initial
    {
      savedAyahs, isLoaded, stored := [], false, initial;
    }

    /** The mount effect: take the stored list when there is one; an unreadable slot is logged
        and ignored; either way the hook counts as loaded. */
    method Load()
      modifies this
      ensures savedAyahs == if old(stored).Holds? then old(stored).value else old(savedAyahs)
      ensures isLoaded && stored == old(stored)
    {
      match stored {
        case Holds(list) => savedAyahs := list;
        case Absent =>
        case Corrupt =>
      }
      isLoaded := true;
    }

    /** `saveAyah`: a verse already saved leaves list and storage untouched; otherwise the entry
        is appended with `savedAt := now` and the new list is written to storage. */
    method SaveAyah(ayah: SavedAyah, now: int)
      modifies this
      ensures savedAyahs == WithSaved(old(savedAyahs), ayah, now)
      ensures stored == if old(IsSaved(savedAyahs, ayah.surahNumber, ayah.ayahNumber)) then old(stored)
                        else Holds(savedAyahs)
      ensures isLoaded == old(isLoaded)
      ensures old(KeysUnique(savedAyahs)) ==> KeysUnique(savedAyahs)
    {
      if Any(savedAyahs, IsKey(ayah.surahNumber, ayah.ayahNumber)) {
        return;
      }
      savedAyahs := savedAyahs + [ayah.(savedAt := now)];
      stored := Holds(savedAyahs);
    }

    /** `removeAyah`: drops every entry with the key and writes the new list. */
    method RemoveAyah(surahNumber: int, ayahNumber: int)
      modifies this
      ensures savedAyahs == Removed(old(savedAyahs), surahNumber, ayahNumber)
      ensures stored == Holds(savedAyahs) && isLoaded == old(isLoaded)
      ensures old(KeysUnique(savedAyahs)) ==> KeysUnique(savedAyahs)
    {
      savedAyahs := Filter(savedAyahs, NotKey(surahNumber, ayahNumber));
      stored := Holds(savedAyahs);
    }

    /** `isAyahSaved`. */
    predicate IsAyahSaved(surahNumber: int, ayahNumber: int)
      reads this
      ensures IsAyahSaved(surahNumber, ayahNumber) <==>
        exists i :: 0 <= i < |savedAyahs| && HasKey(savedAyahs[i], surahNumber, ayahNumber)
    {
      IsSavedIff(savedAyahs, surahNumber, ayahNumber);
      IsSaved(savedAyahs, surahNumber, ayahNumber)
    }

    /** `addNote`: sets `notes` on the entries with the key and writes the new list. */
    method AddNote(surahNumber: int, ayahNumber: int, note: string)
      modifies this
      ensures savedAyahs == WithNote(old(savedAyahs), surahNumber, ayahNumber, note)
      ensures stored == Holds(savedAyahs) && isLoaded == old(isLoaded)
      ensures old(KeysUnique(savedAyahs)) ==> KeysUnique(savedAyahs)
    {
      savedAyahs := WithNote(savedAyahs, surahNumber, ayahNumber, note);
      stored := Holds(savedAyahs);
    }

    /** `clearAll`: an empty list and no storage entry. */
    method ClearAll()
      modifies this
      ensures savedAyahs == [] && stored == Absent && isLoaded == old(isLoaded)
    {
      savedAyahs := [];
      stored := Absent;
    }
  }
}
