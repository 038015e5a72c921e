/** What the three gloss merges share: the table rows matching a verse of a surah file, and
    the two counters that count them, `gharibEntriesAdded` (one per matching row) and
    `versesWithGharib` (one per verse with at least one matching row). */
module GlossMatch {

  import opened Seqs
  import opened Corpus
  import opened GharibTables

  /** `table.filter(g => g.surah === surahNumber && g.verse === ayah.number)`. */
  function Matches(table: seq<GharibRow>, surah: int, a: Ayah): seq<GharibRow> {
    Filter(table, AtVerse(surah, a.number))
  }

  /** The matching rows of all the verses, counted one by one. */
  function Entries(table: seq<GharibRow>, surah: int, ayat: seq<Ayah>): nat
    decreases |ayat|
  {
    if ayat == [] then 0
    else Entries(table, surah, ayat[..|ayat| - 1]) + |Matches(table, surah, ayat[|ayat| - 1])|
  }

  /** The verses with at least one matching row. */
  function VersesWithGharib(table: seq<GharibRow>, surah: int, ayat: seq<Ayah>): nat
    decreases |ayat|
  {
    if ayat == [] then 0
    else
      VersesWithGharib(table, surah, ayat[..|ayat| - 1])
      + (if |Matches(table, surah, ayat[|ayat| - 1])| > 0 then 1 else 0)
  }

  /** A verse with a match contributes at least one entry, so the verse count never exceeds the
      entry count nor the number of verses; and no entry is counted exactly when no verse matches. */
  lemma {:induction false} CountersBound(table: seq<GharibRow>, surah: int, ayat: seq<Ayah>)
    ensures VersesWithGharib(table, surah, ayat) <= Entries(table, surah, ayat)
    ensures VersesWithGharib(table, surah, ayat) <= |ayat|
    ensures Entries(table, surah, ayat) == 0 <==>
      forall i :: 0 <= i < |ayat| ==> Matches(table, surah, ayat[i]) == []
    decreases |ayat|
  {
    if ayat != [] {
      var init := ayat[..|ayat| - 1];
      CountersBound(table, surah, init);
      forall i | 0 <= i < |init| ensures init[i] == ayat[i] {
      }
    }
  }

  /** The counters only look at verse numbers. */
  lemma {:induction false} CountersByNumber(table: seq<GharibRow>, surah: int, ayat: seq<Ayah>, ayat': seq<Ayah>)
    requires |ayat| == |ayat'|
    requires forall i :: 0 <= i < |ayat| ==> ayat[i].number == ayat'[i].number
    ensures Entries(table, surah, ayat) == Entries(table, surah, ayat')
    ensures VersesWithGharib(table, surah, ayat) == VersesWithGharib(table, surah, ayat')
    decreases |ayat|
  {
    if ayat != [] {
      var n := |ayat| - 1;
      CountersByNumber(table, surah, ayat[..n], ayat'[..n]);
    }
  }

  /** Counting from the front: the first verse's rows, then the rest. */
  lemma {:induction false} EntriesCons(table: seq<GharibRow>, surah: int, ayat: seq<Ayah>)
    requires ayat != []
    ensures Entries(table, surah, ayat) == |Matches(table, surah, ayat[0])| + Entries(table, surah, ayat[1..])
    decreases |ayat|
  {
    if |ayat| > 1 {
      var init := ayat[..|ayat| - 1];
      EntriesCons(table, surah, init);
      assert init[1..] == ayat[1..][..|ayat[1..]| - 1];
    }
  }

  /** Counting the first `i + 1` verses is counting the first `i` and then verse `i`. */
  lemma CountersStep(table: seq<GharibRow>, surah: int, ayat: seq<Ayah>, i: nat)
    requires i < |ayat|
    ensures Entries(table, surah, ayat[..i + 1]) == Entries(table, surah, ayat[..i]) + |Matches(table, surah, ayat[i])|
    ensures VersesWithGharib(table, surah, ayat[..i + 1]) ==
      VersesWithGharib(table, surah, ayat[..i]) + (if |Matches(table, surah, ayat[i])| > 0 then 1 else 0)
  {
    assert ayat[..i + 1][..i] == ayat[..i];
  }
}
