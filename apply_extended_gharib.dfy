/** `apply-extended-gharib.mjs`: merges `gharibQuranExtended` into every surah file, every
    matching row overwriting both gloss slots, so the last matching row wins. */
module ApplyExtendedGharib {

  import opened Wrappers
  import opened Seqs
  import opened Corpus
  import opened GharibTables
  import opened GlossMatch

  /** One iteration of `matchingGharib.forEach`: both slots take this row's gloss. */
  function OverwriteRow(g: Gharib, row: GharibRow): Gharib {
    Gharib(Some(Gloss(row.word, row.muyassar)), Some(Gloss(row.word, row.siraj)))
  }

  /** All of `matchingGharib.forEach`, in table order. */
  function OverwriteRows(g: Gharib, rows: seq<GharibRow>): Gharib
    decreases |rows|
  {
    if rows == [] then g else OverwriteRows(OverwriteRow(g, rows[0]), rows[1..])
  }

  /** Last write wins: after at least one row, both slots hold the last row's gloss, whatever
      they held before; so both slots carry the same `word`. */
  lemma {:induction false} LastMatchWins(g: Gharib, rows: seq<GharibRow>)
    requires rows != []
    ensures var last := rows[|rows| - 1];
            OverwriteRows(g, rows) == Gharib(Some(Gloss(last.word, last.muyassar)), Some(Gloss(last.word, last.siraj)))
    ensures OverwriteRows(g, rows).muyassar.value["word"] == OverwriteRows(g, rows).siraj.value["word"]
    decreases |rows|
  {
    if |rows| > 1 {
      LastMatchWins(OverwriteRow(g, rows[0]), rows[1..]);
    }
  }

  /** One iteration of `data.ayat.forEach`: initialise `gharib`, then overwrite it with every match. */
  function MergeAyah(table: seq<GharibRow>, surah: int, a: Ayah): (r: Ayah)
    ensures r.gharib.Some?
    ensures r.(gharib := a.gharib) == a
  {
    var b := InitGharib(a);
    b.(gharib := Some(OverwriteRows(b.gharib.value, Matches(table, surah, a))))
  }

  /** A verse without a matching row keeps its `gharib` (initialised when it had none); one with
      a match gets the last matching row's gloss in both slots. */
  lemma MergeAyahGloss(table: seq<GharibRow>, surah: int, a: Ayah)
    ensures var rows := Matches(table, surah, a);
            var r := MergeAyah(table, surah, a);
            (rows == [] ==> r == InitGharib(a)) &&
            (rows != [] ==> r.gharib == Some(Gharib(
              Some(Gloss(rows[|rows| - 1].word, rows[|rows| - 1].muyassar)),
              Some(Gloss(rows[|rows| - 1].word, rows[|rows| - 1].siraj)))))
  {
    var rows := Matches(table, surah, a);
    if rows != [] {
      LastMatchWins(InitGharib(a).gharib.value, rows);
    }
  }

  /** Merging twice is merging once. */
  lemma MergeAyahIdempotent(table: seq<GharibRow>, surah: int, a: Ayah)
    ensures MergeAyah(table, surah, MergeAyah(table, surah, a)) == MergeAyah(table, surah, a)
  {
    var once := MergeAyah(table, surah, a);
    var rows := Matches(table, surah, a);
    assert Matches(table, surah, once) == rows;
    MergeAyahGloss(table, surah, a);
    MergeAyahGloss(table, surah, once);
  }

  /** The merged verse array. */
  function MergeAyat(table: seq<GharibRow>, surah: int, ayat: seq<Ayah>): (r: seq<Ayah>)
    ensures |r| == |ayat|
    ensures forall i :: 0 <= i < |r| ==> r[i].gharib.Some? && r[i].(gharib := ayat[i].gharib) == ayat[i]
  {
    seq(|ayat|, i requires 0 <= i < |ayat| => MergeAyah(table, surah, ayat[i]))
  }

  /** Merging a merged verse array again changes nothing. */
  lemma MergeAyatIdempotent(table: seq<GharibRow>, surah: int, ayat: seq<Ayah>)
    ensures MergeAyat(table, surah, MergeAyat(table, surah, ayat)) == MergeAyat(table, surah, ayat)
  {
    var merged := MergeAyat(table, surah, ayat);
    forall i | 0 <= i < |merged| ensures MergeAyah(table, surah, merged[i]) == merged[i] {
      MergeAyahIdempotent(table, surah, ayat[i]);
    }
  }

  /** Merging the first `i + 1` verses is merging the first `i` and then verse `i`. */
  lemma MergeAyatStep(table: seq<GharibRow>, surah: int, ayat: seq<Ayah>, i: nat)
    requires i < |ayat|
    ensures MergeAyat(table, surah, ayat[..i + 1]) ==
      MergeAyat(table, surah, ayat[..i]) + [MergeAyah(table, surah, ayat[i])]
  {
    var l, r := MergeAyat(table, surah, ayat[..i + 1]), MergeAyat(table, surah, ayat[..i]) + [MergeAyah(table, surah, ayat[i])];
    forall k | 0 <= k < |l| ensures l[k] == r[k] {
      assert ayat[..i + 1][k] == ayat[k];
    }
  }

  /** What the script does with one surah file; the names in `unwritable` are files whose write
      throws. */
  function ExtendedFile(table: seq<GharibRow>, unwritable: set<string>, name: string, content: FileContent): (s: Step)
    ensures s.written.Some? <==>
      SurahNumber(name).Some? && content.Parsed? && Load(content.doc).Some? && name !in unwritable
    ensures !(SurahNumber(name).Some? && content.Parsed? && Load(content.doc).Some?) ==> s == Skip
    ensures SurahNumber(name).Some? && content.Parsed? && Load(content.doc).Some? ==>
      var ayat := Load(content.doc).value;
      var surah := SurahNumber(name).value;
      (s.written.Some? ==> s.written.value == Store(content.doc, MergeAyat(table, surah, ayat))) &&
      s.tally == Tally(if name in unwritable then 0 else 1, Entries(table, surah, ayat), 0)
  {
    match SurahNumber(name)
    case None => Skip
    case Some(surah) =>
      if content.Malformed? || Load(content.doc).None? then Skip
      else
        var ayat := Load(content.doc).value;
        WriteBack(unwritable, name, Store(content.doc, MergeAyat(table, surah, ayat)), Entries(table, surah, ayat), 0)
  }

  function ExtendedStep(table: seq<GharibRow>, unwritable: set<string>): (string, FileContent) -> Step {
    (name: string, content: FileContent) => ExtendedFile(table, unwritable, name, content)
  }

  /** Running the script on a file it has written writes the same document again, and reports the
      same count: the counter counts matching rows, not slots that changed. */
  lemma RerunSameFileAndCount(table: seq<GharibRow>, unwritable: set<string>, name: string, c: FileContent)
    ensures var once := Outcome(c, ExtendedFile(table, unwritable, name, c));
            Outcome(once, ExtendedFile(table, unwritable, name, once)) == once &&
            ExtendedFile(table, unwritable, name, once).tally == ExtendedFile(table, unwritable, name, c).tally
  {
    var s := ExtendedFile(table, unwritable, name, c);
    if s.written.Some? {
      var surah := SurahNumber(name).value;
      var ayat := Load(c.doc).value;
      MergeAyatIdempotent(table, surah, ayat);
      StoreLoaded(s.written.value);
      CountersByNumber(table, surah, ayat, MergeAyat(table, surah, ayat));
    }
  }

  lemma ExtendedFileSettles(table: seq<GharibRow>, unwritable: set<string>, name: string, c: FileContent)
    ensures Settles(ExtendedStep(table, unwritable), name, c)
  {
    RerunSameFileAndCount(table, unwritable, name, c);
  }

  /** Running the script twice with the same table leaves the files as running it once. */
  lemma RunTwiceChangesNothing(listing: seq<string>, corpus: Corpus, table: seq<GharibRow>, unwritable: set<string>)
    requires Distinct(listing)
    ensures var once := RunFiles(JsonFiles(listing), corpus, NoTally, ExtendedStep(table, unwritable)).0;
            RunFiles(JsonFiles(listing), once, NoTally, ExtendedStep(table, unwritable)).0 == once
  {
    var files := JsonFiles(listing);
    forall f | f in files && f in corpus ensures Settles(ExtendedStep(table, unwritable), f, corpus[f]) {
      ExtendedFileSettles(table, unwritable, f, corpus[f]);
    }
    RunFilesIdempotent(files, corpus, NoTally, NoTally, ExtendedStep(table, unwritable));
  }

  /** One verse's `matchingGharib.forEach`: overwrites both slots per row, counting every row. */
  method OverwriteSlots(g: Gharib, rows: seq<GharibRow>) returns (r: Gharib, added: nat)
    ensures r == OverwriteRows(g, rows)
    ensures added == |rows|
  {
    r, added := g, 0;
    var i := 0;
    while i < |rows|
      invariant 0 <= i <= |rows|
      invariant OverwriteRows(r, rows[i..]) == OverwriteRows(g, rows)
      invariant added == i
    {
      var row := rows[i];
      assert rows[i..][0] == row && rows[i..][1..] == rows[i + 1..];
      r := r.(muyassar := Some(Gloss(row.word, row.muyassar)));
      r := r.(siraj := Some(Gloss(row.word, row.siraj)));
      added := added + 1;
      i := i + 1;
    }
  }

  /** One verse: initialise `gharib`, find the matching rows, overwrite. */
  method MergeVerse(table: seq<GharibRow>, surah: int, a: Ayah) returns (r: Ayah, added: nat)
    ensures r == MergeAyah(table, surah, a)
    ensures added == |Matches(table, surah, a)|
  {
    r := a;
    if r.gharib.None? {
      r := r.(gharib := Some(EmptyGharib));
    }
    var matching := GetGharibForVerse(table, surah, r.number);
    var g;
    g, added := OverwriteSlots(r.gharib.value, matching);
    r := r.(gharib := Some(g));
  }

  /** `data.ayat.forEach(...)` over one document's verses. */
  method MergeVerses(table: seq<GharibRow>, surah: int, ayat: seq<Ayah>) returns (merged: seq<Ayah>, entries: nat)
    ensures merged == MergeAyat(table, surah, ayat)
    ensures entries == Entries(table, surah, ayat)
  {
    merged, entries := [], 0;
    var i := 0;
    assert ayat[..i] == [];
    while i < |ayat|
      invariant 0 <= i <= |ayat|
      invariant merged == MergeAyat(table, surah, ayat[..i])
      invariant entries == Entries(table, surah, ayat[..i])
    {
      var ayah, added := MergeVerse(table, surah, ayat[i]);
      CountersStep(table, surah, ayat, i);
      MergeAyatStep(table, surah, ayat, i);
      entries := entries + added;
      merged := merged + [ayah];
      i := i + 1;
    }
    assert ayat[..i] == ayat;
  }

  /** One file: skip a non-numeric name, a malformed file or one without verses; otherwise merge
      its verses and write it back; a write that throws leaves the file and is not counted. */
  method ProcessFile(table: seq<GharibRow>, unwritable: set<string>, file: string, content: FileContent) returns (s: Step)
    ensures s == ExtendedFile(table, unwritable, file, content)
  {
    var surahNumber := SurahNumber(file);
    if surahNumber.None? || content.Malformed? {
      return Skip;
    }
    var data := content.doc;
    var ayat := Load(data);
    if ayat.None? {
      return Skip;
    }
    var merged, entries := MergeVerses(table, surahNumber.value, ayat.value);
    if file in unwritable {
      s := Step(None, Tally(0, entries, 0));
    } else {
      s := Step(Some(Store(data, merged)), Tally(1, entries, 0));
    }
  }

  /** The whole script: returns the rewritten files and the two counters. */
  method ApplyExtendedGharib(listing: seq<string>, corpus: Corpus, table: seq<GharibRow>, unwritable: set<string>)
    returns (result: Corpus, processedCount: nat, gharibEntriesAdded: nat)
    ensures (result, Tally(processedCount, gharibEntriesAdded, 0)) ==
      RunFiles(JsonFiles(listing), corpus, NoTally, ExtendedStep(table, unwritable))
  {
    var files := JsonFiles(listing);
    var counts := NoTally;
    result := corpus;
    var i := 0;
    assert files[i..] == files;
    while i < |files|
      invariant 0 <= i <= |files|
      invariant counts.verses == 0
      invariant RunFiles(files[i..], result, counts, ExtendedStep(table, unwritable)) ==
        RunFiles(files, corpus, NoTally, ExtendedStep(table, unwritable))
    {
      var file := files[i];
      if file in result {
        var s := ProcessFile(table, unwritable, file, result[file]);
        RunFilesVisit(files, i, result, counts, ExtendedStep(table, unwritable), s);
        result := result[file := Outcome(result[file], s)];
        counts := counts.Plus(s.tally);
      } else {
        RunFilesPass(files, i, result, counts, ExtendedStep(table, unwritable));
      }
      i := i + 1;
    }
    processedCount, gharibEntriesAdded := counts.processed, counts.added;
  }
}
