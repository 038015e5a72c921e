/** `apply-comprehensive-gharib.mjs`: merges `gharibQuranDatabase` into every surah file,
    overwriting a gloss slot while it has no truthy `word`. A verse whose `gharib` lacks one of
    the two slot keys makes `Object.keys(undefined)` throw on its first matching row; the
    exception abandons the whole file before it is written. */
module ApplyComprehensiveGharib {

  import opened Wrappers
  import opened Seqs
  import opened Corpus
  import opened GharibTables
  import opened GlossMatch
  import opened Text

  /** `Object.keys(slot).length === 0 || !slot.word`, for a slot that exists. An empty object has
      no `word`, so the first test adds nothing to the second. */
  predicate LacksWord(s: Slot) {
    "word" !in s || s["word"] == ""
  }

  /** One iteration of `matchingGharib.forEach`; `None` when a slot key is missing and the
      iteration throws. */
  function FillRow(g: Gharib, row: GharibRow): Option<Gharib> {
    if g.muyassar.None? || g.siraj.None? then None
    else
      var m := g.muyassar.value;
      var s := g.siraj.value;
      Some(Gharib(
        Some(if LacksWord(m) then Gloss(row.word, row.muyassar) else m),
        Some(if LacksWord(s) then Gloss(row.word, row.siraj) else s)))
  }

  /** All of `matchingGharib.forEach`, stopping at the first throw. */
  function FillRows(g: Gharib, rows: seq<GharibRow>): Option<Gharib>
    decreases |rows|
  {
    if rows == [] then Some(g)
    else
      match FillRow(g, rows[0])
      case None => None
      case Some(g') => FillRows(g', rows[1..])
  }

  /** Both slot keys are present. */
  predicate HasSlots(g: Gharib) {
    g.muyassar.Some? && g.siraj.Some?
  }

  /** The rows throw exactly when there is a row and a slot key is missing; once one row has
      gone through, both slots exist and nothing can throw any more. */
  lemma {:induction false} FillRowsThrows(g: Gharib, rows: seq<GharibRow>)
    ensures FillRows(g, rows).None? <==> rows != [] && !HasSlots(g)
    ensures FillRows(g, rows).Some? ==> HasSlots(FillRows(g, rows).value) == HasSlots(g)
    decreases |rows|
  {
    if rows != [] && HasSlots(g) {
      FillRowsThrows(FillRow(g, rows[0]).value, rows[1..]);
    }
  }

  /** A slot holding a truthy `word` is kept through every row. */
  lemma {:induction false} WordKept(g: Gharib, rows: seq<GharibRow>)
    requires HasSlots(g)
    ensures FillRows(g, rows).Some?
    ensures !LacksWord(g.muyassar.value) ==> FillRows(g, rows).value.muyassar == g.muyassar
    ensures !LacksWord(g.siraj.value) ==> FillRows(g, rows).value.siraj == g.siraj
    decreases |rows|
  {
    if rows != [] {
      WordKept(FillRow(g, rows[0]).value, rows[1..]);
    }
  }

  function HasWord(): GharibRow -> bool {
    (row: GharibRow) => row.word != ""
  }

  /** The row whose gloss a wordless slot ends up with: the first row with a non-empty word, or
      the last row when no row has one. */
  function Winner(rows: seq<GharibRow>): (j: nat)
    requires rows != []
    ensures j < |rows|
    ensures forall k :: 0 <= k < j ==> rows[k].word == ""
    ensures rows[j].word != "" || j == |rows| - 1
  {
    var k := FindIndex(rows, HasWord());
    if k < |rows| then k else |rows| - 1
  }

  /** A wordless slot is overwritten until it holds a word: it ends up with the gloss of the
      first matching row that has one (in practice the first row). */
  lemma {:induction false} FirstWordedRowWins(g: Gharib, rows: seq<GharibRow>)
    requires HasSlots(g) && rows != []
    ensures var r := FillRows(g, rows);
            var w := rows[Winner(rows)];
            r.Some? &&
            (LacksWord(g.muyassar.value) ==> r.value.muyassar == Some(Gloss(w.word, w.muyassar))) &&
            (LacksWord(g.siraj.value) ==> r.value.siraj == Some(Gloss(w.word, w.siraj)))
    decreases |rows|
  {
    var g' := FillRow(g, rows[0]).value;
    WordKept(g', rows[1..]);
    if rows[0].word == "" && |rows| > 1 {
      FirstWordedRowWins(g', rows[1..]);
      assert FindIndex(rows, HasWord()) == 1 + FindIndex(rows[1..], HasWord());
      assert Winner(rows) == 1 + Winner(rows[1..]);
    }
  }

  /** An existing slot such as `{meaning: "x"}`, holding no `word`, is replaced by the row's gloss. */
  lemma MeaningOnlySlotReplaced(row: GharibRow)
    requires row.word != ""
    ensures FillRows(Gharib(Some(map["meaning" := "x"]), Some(map[])), [row]) ==
      Some(Gharib(Some(Gloss(row.word, row.muyassar)), Some(Gloss(row.word, row.siraj))))
  {
  }

  /** The verse makes the merge throw. */
  predicate Throws(table: seq<GharibRow>, surah: int, a: Ayah) {
    Matches(table, surah, a) != [] && a.gharib.Some? && !HasSlots(a.gharib.value)
  }

  function ThrowsAt(table: seq<GharibRow>, surah: int): Ayah -> bool {
    (a: Ayah) => Throws(table, surah, a)
  }

  /** One iteration of `data.ayat.forEach`; `None` when it throws. */
  function MergeAyah(table: seq<GharibRow>, surah: int, a: Ayah): (r: Option<Ayah>)
    ensures r.None? <==> Throws(table, surah, a)
    ensures r.Some? ==> r.value.(gharib := a.gharib) == a && r.value.gharib.Some?
  {
    var b := InitGharib(a);
    FillRowsThrows(b.gharib.value, Matches(table, surah, a));
    match FillRows(b.gharib.value, Matches(table, surah, a))
    case None => None
    case Some(g) => Some(b.(gharib := Some(g)))
  }

  /** The merged verse array of a document none of whose verses throws. */
  function MergeAyat(table: seq<GharibRow>, surah: int, ayat: seq<Ayah>): seq<Ayah>
    requires forall i :: 0 <= i < |ayat| ==> !Throws(table, surah, ayat[i])
  {
    seq(|ayat|, i requires 0 <= i < |ayat| => MergeAyah(table, surah, ayat[i]).value)
  }

  /** The outcome of `data.ayat.forEach(...)`: the merged verses and the rows counted, or the
      rows counted before a verse threw. */
  datatype Merge = Merged(ayat: seq<Ayah>, entries: nat) | Thrown(entries: nat)

  /** `m` after verses `done` have been merged and `entries` rows counted. */
  function Prepend(done: seq<Ayah>, entries: nat, m: Merge): Merge {
    match m
    case Merged(rest, e) => Merged(done + rest, entries + e)
    case Thrown(e) => Thrown(entries + e)
  }

  /** `m` preceded by one merged verse `b` with `n` rows. */
  function ConsMerge(b: Ayah, n: nat, m: Merge): Merge {
    match m
    case Merged(rest, e) => Merged([b] + rest, n + e)
    case Thrown(e) => Thrown(n + e)
  }

  lemma PrependCons(done: seq<Ayah>, entries: nat, b: Ayah, n: nat, m: Merge)
    ensures Prepend(done, entries, ConsMerge(b, n, m)) == Prepend(done + [b], entries + n, m)
  {
    if m.Merged? {
      assert done + ([b] + m.ayat) == done + [b] + m.ayat;
    }
  }

  /** The verses merged one after the other, the first throw abandoning the rest. */
  function MergeFrom(table: seq<GharibRow>, surah: int, ayat: seq<Ayah>): Merge
    decreases |ayat|
  {
    if ayat == [] then Merged([], 0)
    else
      match MergeAyah(table, surah, ayat[0])
      case None => Thrown(0)
      case Some(b) => ConsMerge(b, |Matches(table, surah, ayat[0])|, MergeFrom(table, surah, ayat[1..]))
  }

  /** The verses throw exactly when one of them does. */
  lemma {:induction false} MergeFromThrows(table: seq<GharibRow>, surah: int, ayat: seq<Ayah>)
    ensures MergeFrom(table, surah, ayat).Thrown? <==> FindIndex(ayat, ThrowsAt(table, surah)) < |ayat|
    decreases |ayat|
  {
    if ayat != [] && !Throws(table, surah, ayat[0]) {
      MergeFromThrows(table, surah, ayat[1..]);
    }
  }

  /** The rows counted are those of the verses before the first throwing one (all of them when
      none throws). */
  lemma {:induction false} MergeFromEntries(table: seq<GharibRow>, surah: int, ayat: seq<Ayah>)
    ensures MergeFrom(table, surah, ayat).entries == Entries(table, surah, ayat[..FindIndex(ayat, ThrowsAt(table, surah))])
    decreases |ayat|
  {
    if ayat == [] {
    } else if Throws(table, surah, ayat[0]) {
      assert ayat[..0] == [];
    } else {
      var tail := ayat[1..];
      var k := FindIndex(tail, ThrowsAt(table, surah));
      MergeFromEntries(table, surah, tail);
      assert FindIndex(ayat, ThrowsAt(table, surah)) == 1 + k;
      var pre := ayat[..1 + k];
      assert pre[0] == ayat[0] && pre[1..] == tail[..k];
      EntriesCons(table, surah, pre);
    }
  }

  /** Without a throw, the verses are merged one by one. */
  lemma {:induction false} MergeFromMerged(table: seq<GharibRow>, surah: int, ayat: seq<Ayah>)
    requires MergeFrom(table, surah, ayat).Merged?
    ensures forall i :: 0 <= i < |ayat| ==> !Throws(table, surah, ayat[i])
    ensures MergeFrom(table, surah, ayat).ayat == MergeAyat(table, surah, ayat)
    decreases |ayat|
  {
    if ayat != [] {
      var tail := ayat[1..];
      MergeFromMerged(table, surah, tail);
      forall i | 0 < i < |ayat| ensures ayat[i] == tail[i - 1] {
      }
      assert MergeAyat(table, surah, ayat) == [MergeAyah(table, surah, ayat[0]).value] + MergeAyat(table, surah, tail);
    }
  }

  /** What the script does with one surah file. A throwing verse abandons the file: nothing is
      written and the file is not counted as processed, but the rows of the verses before it
      have already been added to the global entry counter. A write that throws (a name in
      `unwritable`) also leaves the file unwritten and uncounted, with all its rows counted. */
  function ComprehensiveFile(table: seq<GharibRow>, unwritable: set<string>, name: string, content: FileContent): (s: Step)
    ensures s.tally.verses == 0
    ensures !(SurahNumber(name).Some? && content.Parsed? && Load(content.doc).Some?) ==> s == Skip
    ensures s.written.Some? <==>
      SurahNumber(name).Some? && content.Parsed? && Load(content.doc).Some? && name !in unwritable &&
      forall i :: 0 <= i < |Load(content.doc).value| ==> !Throws(table, SurahNumber(name).value, Load(content.doc).value[i])
    ensures s.tally.processed == (if s.written.Some? then 1 else 0)
    ensures s.written.Some? ==>
      var ayat := Load(content.doc).value;
      var surah := SurahNumber(name).value;
      s.written.value == Store(content.doc, MergeAyat(table, surah, ayat)) &&
      s.tally.added == Entries(table, surah, ayat)
    ensures SurahNumber(name).Some? && content.Parsed? && Load(content.doc).Some? ==>
      var ayat := Load(content.doc).value;
      var surah := SurahNumber(name).value;
      s.tally.added == Entries(table, surah, ayat[..FindIndex(ayat, ThrowsAt(table, surah))])
  {
    match SurahNumber(name)
    case None => Skip
    case Some(surah) =>
      if content.Malformed? || Load(content.doc).None? then Skip
      else
        var ayat := Load(content.doc).value;
        MergeFromThrows(table, surah, ayat);
        MergeFromEntries(table, surah, ayat);
        var k := FindIndex(ayat, ThrowsAt(table, surah));
        assert k < |ayat| ==> Throws(table, surah, ayat[k]);
        assert k == |ayat| ==> ayat[..k] == ayat;
        if MergeFrom(table, surah, ayat).Merged? then
          MergeFromMerged(table, surah, ayat);
          WriteBack(unwritable, name, Store(content.doc, MergeFrom(table, surah, ayat).ayat), MergeFrom(table, surah, ayat).entries, 0)
        else
          Step(None, Tally(0, MergeFrom(table, surah, ayat).entries, 0))
  }

  function ComprehensiveStep(table: seq<GharibRow>, unwritable: set<string>): (string, FileContent) -> Step {
    (name: string, content: FileContent) => ComprehensiveFile(table, unwritable, name, content)
  }

  /** The abandoned file's rows still count: a verse with matches followed by a verse that
      throws leaves the file unwritten and unprocessed, yet the first verse's rows are added to
      the entry counter. */
  lemma ThrowSkipsFileButCounts(table: seq<GharibRow>, unwritable: set<string>, name: string, a: Ayah, b: Ayah, rest: map<string, string>)
    requires SurahNumber(name).Some?
    requires a.gharib.None? && Throws(table, SurahNumber(name).value, b)
    ensures ComprehensiveFile(table, unwritable, name, Parsed(Document(Some([a, b]), None, rest))) ==
      Step(None, Tally(0, |Matches(table, SurahNumber(name).value, a)|, 0))
  {
    var ayat := [a, b];
    var surah := SurahNumber(name).value;
    assert !ThrowsAt(table, surah)(ayat[0]) && ThrowsAt(table, surah)(ayat[1]);
    FindIndexAt(ayat, ThrowsAt(table, surah), 1);
    assert ayat[..1] == [a] && ayat[..1][..0] == [];
    assert Entries(table, surah, [a]) == Entries(table, surah, []) + |Matches(table, surah, a)|;
  }

  /** One verse's `matchingGharib.forEach`; a missing slot throws on the first row, before any
      row is counted. */
  method FillSlots(g: Gharib, rows: seq<GharibRow>) returns (r: Option<Gharib>, added: nat)
    ensures r == FillRows(g, rows)
    ensures added == (if r.Some? then |rows| else 0)
  {
    var cur := g;
    added := 0;
    var i := 0;
    while i < |rows|
      invariant 0 <= i <= |rows|
      invariant FillRows(cur, rows[i..]) == FillRows(g, rows)
      invariant added == i
      invariant i > 0 ==> HasSlots(cur)
    {
      var row := rows[i];
      assert rows[i..][0] == row && rows[i..][1..] == rows[i + 1..];
      if cur.muyassar.None? || cur.siraj.None? {
        return None, 0;
      }
      if LacksWord(cur.muyassar.value) {
        cur := cur.(muyassar := Some(Gloss(row.word, row.muyassar)));
      }
      if LacksWord(cur.siraj.value) {
        cur := cur.(siraj := Some(Gloss(row.word, row.siraj)));
      }
      added := added + 1;
      i := i + 1;
    }
    assert rows[i..] == [];
    r := Some(cur);
  }

  /** One verse: initialise `gharib`, find the matching rows, apply them. */
  method MergeVerse(table: seq<GharibRow>, surah: int, a: Ayah) returns (r: Option<Ayah>, added: nat)
    ensures r == MergeAyah(table, surah, a)
    ensures added == (if r.Some? then |Matches(table, surah, a)| else 0)
  {
    var ayah := a;
    if ayah.gharib.None? {
      ayah := ayah.(gharib := Some(EmptyGharib));
    }
    var matching := GetGharibForVerse(table, surah, ayah.number);
    var g;
    g, added := FillSlots(ayah.gharib.value, matching);
    FillRowsThrows(ayah.gharib.value, matching);
    if g.None? {
      return None, added;
    }
    r := Some(ayah.(gharib := Some(g.value)));
  }

  /** `data.ayat.forEach(...)` over one document's verses, abandoned at the first throw. */
  method MergeVerses(table: seq<GharibRow>, surah: int, ayat: seq<Ayah>) returns (m: Merge)
    ensures m == MergeFrom(table, surah, ayat)
  {
    var done: seq<Ayah> := [];
    var entries: nat := 0;
    var i := 0;
    assert ayat[i..] == ayat;
    while i < |ayat|
      invariant 0 <= i <= |ayat|
      invariant Prepend(done, entries, MergeFrom(table, surah, ayat[i..])) == MergeFrom(table, surah, ayat)
    {
      assert ayat[i..][0] == ayat[i] && ayat[i..][1..] == ayat[i + 1..];
      var ayah, added := MergeVerse(table, surah, ayat[i]);
      if ayah.None? {
        return Thrown(entries);
      }
      PrependCons(done, entries, ayah.value, added, MergeFrom(table, surah, ayat[i + 1..]));
      entries := entries + added;
      done := done + [ayah.value];
      i := i + 1;
    }
    assert ayat[i..] == [];
    m := Merged(done, entries);
  }

  /** One file: skip a non-numeric name, a malformed file or one without verses; otherwise merge
      its verses and write it back unless a verse or the write throws. */
  method ProcessFile(table: seq<GharibRow>, unwritable: set<string>, file: string, content: FileContent) returns (s: Step)
    ensures s == ComprehensiveFile(table, unwritable, file, content)
  {
    var surahNumber := SurahNumber(file);
    if surahNumber.None? || content.Malformed? {
      return Skip;
    }
    var data := content.doc;
    var ayat := Load(data);
    if ayat.None? {
      return Skip;
    }
    var merged := MergeVerses(table, surahNumber.value, ayat.value);
    match merged
    case Thrown(e) =>
      s := Step(None, Tally(0, e, 0));
    case Merged(verses, e) =>
      if file in unwritable {
        s := Step(None, Tally(0, e, 0));
      } else {
        s := Step(Some(Store(data, verses)), Tally(1, e, 0));
      }
  }

  /** The whole script: returns the rewritten files and the two counters. */
  method ApplyComprehensiveGharib(listing: seq<string>, corpus: Corpus, table: seq<GharibRow>, unwritable: set<string>)
    returns (result: Corpus, processedCount: nat, gharibEntriesAdded: nat)
    ensures (result, Tally(processedCount, gharibEntriesAdded, 0)) ==
      RunFiles(JsonFiles(listing), corpus, NoTally, ComprehensiveStep(table, unwritable))
  {
    var files := JsonFiles(listing);
    var counts := NoTally;
    result := corpus;
    var i := 0;
    assert files[i..] == files;
    while i < |files|
      invariant 0 <= i <= |files|
      invariant counts.verses == 0
      invariant RunFiles(files[i..], result, counts, ComprehensiveStep(table, unwritable)) ==
        RunFiles(files, corpus, NoTally, ComprehensiveStep(table, unwritable))
    {
      var file := files[i];
      if file in result {
        var s := ProcessFile(table, unwritable, file, result[file]);
        RunFilesVisit(files, i, result, counts, ComprehensiveStep(table, unwritable), s);
        result := result[file := Outcome(result[file], s)];
        counts := counts.Plus(s.tally);
      } else {
        RunFilesPass(files, i, result, counts, ComprehensiveStep(table, unwritable));
      }
      i := i + 1;
    }
    processedCount, gharibEntriesAdded := counts.processed, counts.added;
  }
}
