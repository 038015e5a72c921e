/** `apply-gharib-fixed.mjs`: merges `gharibQuranExtended` into every surah file, filling a
    gloss slot only while it is absent or empty, so the first matching row wins. */
module ApplyGharibFixed {

  import opened Wrappers
  import opened Seqs
  import opened Corpus
  import opened GharibTables
  import opened GlossMatch

  /** `!slot || Object.keys(slot).length === 0`. */
  predicate IsBlank(slot: Option<Slot>) {
    slot.None? || slot.value == map[]
  }

  /** One iteration of `matchingGharib.forEach`: each blank slot takes this row's gloss. */
  function FillRow(g: Gharib, row: GharibRow): Gharib {
    Gharib(
      if IsBlank(g.muyassar) then Some(Gloss(row.word, row.muyassar)) else g.muyassar,
      if IsBlank(g.siraj) then Some(Gloss(row.word, row.siraj)) else g.siraj)
  }

  /** All of `matchingGharib.forEach`, in table order. */
  function FillRows(g: Gharib, rows: seq<GharibRow>): Gharib
    decreases |rows|
  {
    if rows == [] then g else FillRows(FillRow(g, rows[0]), rows[1..])
  }

  /** A slot that is not blank is never written again. */
  lemma {:induction false} FilledKept(g: Gharib, rows: seq<GharibRow>)
    ensures !IsBlank(g.muyassar) ==> FillRows(g, rows).muyassar == g.muyassar
    ensures !IsBlank(g.siraj) ==> FillRows(g, rows).siraj == g.siraj
    decreases |rows|
  {
    if rows != [] {
      FilledKept(FillRow(g, rows[0]), rows[1..]);
    }
  }

  /** First match wins: a blank slot ends up with the first row's `{word, meaning}`, the
      reference's own meaning in each slot; a slot that was not blank keeps its value. */
  lemma FirstMatchWins(g: Gharib, rows: seq<GharibRow>)
    requires rows != []
    ensures FillRows(g, rows).muyassar ==
      (if IsBlank(g.muyassar) then Some(Gloss(rows[0].word, rows[0].muyassar)) else g.muyassar)
    ensures FillRows(g, rows).siraj ==
      (if IsBlank(g.siraj) then Some(Gloss(rows[0].word, rows[0].siraj)) else g.siraj)
  {
    FilledKept(FillRow(g, rows[0]), rows[1..]);
  }

  /** One iteration of `data.ayat.forEach`: initialise `gharib`, then fill it from the matches. */
  function MergeAyah(table: seq<GharibRow>, surah: int, a: Ayah): (r: Ayah)
    ensures r.gharib.Some?
    ensures r.(gharib := a.gharib) == a
  {
    var b := InitGharib(a);
    b.(gharib := Some(FillRows(b.gharib.value, Matches(table, surah, a))))
  }

  /** The gloss of a merged verse: unchanged but initialised without a match; otherwise each
      blank slot holds the first matching row's gloss and every other slot is kept. */
  lemma MergeAyahGloss(table: seq<GharibRow>, surah: int, a: Ayah)
    ensures var g := if a.gharib.Some? then a.gharib.value else EmptyGharib;
            var rows := Matches(table, surah, a);
            var r := MergeAyah(table, surah, a).gharib.value;
            (rows == [] ==> r == g) &&
            (rows != [] ==> r.muyassar == (if IsBlank(g.muyassar) then Some(Gloss(rows[0].word, rows[0].muyassar)) else g.muyassar)) &&
            (rows != [] ==> r.siraj == (if IsBlank(g.siraj) then Some(Gloss(rows[0].word, rows[0].siraj)) else g.siraj))
  {
    var rows := Matches(table, surah, a);
    if rows != [] {
      FirstMatchWins(InitGharib(a).gharib.value, rows);
    }
  }

  /** Merging a merged verse again changes nothing: every slot a match could fill is filled. */
  lemma MergeAyahIdempotent(table: seq<GharibRow>, surah: int, a: Ayah)
    ensures MergeAyah(table, surah, MergeAyah(table, surah, a)) == MergeAyah(table, surah, a)
  {
    var once := MergeAyah(table, surah, a);
    var rows := Matches(table, surah, a);
    assert Matches(table, surah, once) == rows;
    MergeAyahGloss(table, surah, a);
    if rows != [] {
      FilledKept(once.gharib.value, rows);
    }
  }

  /** The merged verse array. */
  function MergeAyat(table: seq<GharibRow>, surah: int, ayat: seq<Ayah>): (r: seq<Ayah>)
    ensures |r| == |ayat|
    ensures forall i :: 0 <= i < |r| ==> r[i].gharib.Some? && r[i].(gharib := ayat[i].gharib) == ayat[i]
  {
    seq(|ayat|, i requires 0 <= i < |ayat| => MergeAyah(table, surah, ayat[i]))
  }

  /** Merging a merged verse array again changes nothing. */
  lemma MergeAyatIdempotent(table: seq<GharibRow>, surah: int, ayat: seq<Ayah>)
    ensures MergeAyat(table, surah, MergeAyat(table, surah, ayat)) == MergeAyat(table, surah, ayat)
  {
    var merged := MergeAyat(table, surah, ayat);
    forall i | 0 <= i < |merged| ensures MergeAyah(table, surah, merged[i]) == merged[i] {
      MergeAyahIdempotent(table, surah, ayat[i]);
    }
  }

  /** Merging the first `i + 1` verses is merging the first `i` and then verse `i`. */
  lemma MergeAyatStep(table: seq<GharibRow>, surah: int, ayat: seq<Ayah>, i: nat)
    requires i < |ayat|
    ensures MergeAyat(table, surah, ayat[..i + 1]) ==
      MergeAyat(table, surah, ayat[..i]) + [MergeAyah(table, surah, ayat[i])]
  {
    var l, r := MergeAyat(table, surah, ayat[..i + 1]), MergeAyat(table, surah, ayat[..i]) + [MergeAyah(table, surah, ayat[i])];
    forall k | 0 <= k < |l| ensures l[k] == r[k] {
      assert ayat[..i + 1][k] == ayat[k];
    }
  }

  /** What the script does with one surah file; the names in `unwritable` are files whose write
      throws. */
  function FixedFile(table: seq<GharibRow>, unwritable: set<string>, name: string, content: FileContent): (s: Step)
    ensures s.written.Some? <==>
      SurahNumber(name).Some? && content.Parsed? && Load(content.doc).Some? && name !in unwritable
    ensures !(SurahNumber(name).Some? && content.Parsed? && Load(content.doc).Some?) ==> s == Skip
    ensures SurahNumber(name).Some? && content.Parsed? && Load(content.doc).Some? ==>
      var ayat := Load(content.doc).value;
      var surah := SurahNumber(name).value;
      (s.written.Some? ==> s.written.value == Store(content.doc, MergeAyat(table, surah, ayat))) &&
      s.tally == Tally(if name in unwritable then 0 else 1, Entries(table, surah, ayat), VersesWithGharib(table, surah, ayat))
  {
    match SurahNumber(name)
    case None => Skip
    case Some(surah) =>
      if content.Malformed? || Load(content.doc).None? then Skip
      else
        var ayat := Load(content.doc).value;
        WriteBack(unwritable, name, Store(content.doc, MergeAyat(table, surah, ayat)),
                  Entries(table, surah, ayat), VersesWithGharib(table, surah, ayat))
  }

  function FixedStep(table: seq<GharibRow>, unwritable: set<string>): (string, FileContent) -> Step {
    (name: string, content: FileContent) => FixedFile(table, unwritable, name, content)
  }

  /** A file whose written verses came from `ayahs` keeps both keys, each holding the merged verses. */
  lemma LegacyKeyKept(table: seq<GharibRow>, unwritable: set<string>, name: string, doc: Document)
    requires SurahNumber(name).Some? && doc.ayat.None? && doc.ayahs.Some? && name !in unwritable
    ensures var d := FixedFile(table, unwritable, name, Parsed(doc)).written.value;
            var merged := MergeAyat(table, SurahNumber(name).value, doc.ayahs.value);
            d.ayat == Some(merged) && d.ayahs == Some(merged) && d.rest == doc.rest
  {
  }

  /** Running the script on a file it has written writes the same document again, and reports the
      same counts: the counters count matching rows, not slots actually written. */
  lemma RerunSameFileAndCounts(table: seq<GharibRow>, unwritable: set<string>, name: string, c: FileContent)
    ensures var once := Outcome(c, FixedFile(table, unwritable, name, c));
            Outcome(once, FixedFile(table, unwritable, name, once)) == once &&
            FixedFile(table, unwritable, name, once).tally == FixedFile(table, unwritable, name, c).tally
  {
    var s := FixedFile(table, unwritable, name, c);
    if s.written.Some? {
      var surah := SurahNumber(name).value;
      var ayat := Load(c.doc).value;
      var merged := MergeAyat(table, surah, ayat);
      var d := s.written.value;
      MergeAyatIdempotent(table, surah, ayat);
      StoreLoaded(d);
      CountersByNumber(table, surah, ayat, merged);
    }
  }

  /** Running the script over its own output leaves every file as the first run left it. */
  lemma RunTwiceChangesNothing(listing: seq<string>, corpus: Corpus, table: seq<GharibRow>, unwritable: set<string>)
    requires Distinct(listing)
    ensures var once := RunFiles(JsonFiles(listing), corpus, NoTally, FixedStep(table, unwritable)).0;
            RunFiles(JsonFiles(listing), once, NoTally, FixedStep(table, unwritable)).0 == once
  {
    var files := JsonFiles(listing);
    forall f | f in files && f in corpus ensures Settles(FixedStep(table, unwritable), f, corpus[f]) {
      RerunSameFileAndCounts(table, unwritable, f, corpus[f]);
    }
    RunFilesIdempotent(files, corpus, NoTally, NoTally, FixedStep(table, unwritable));
  }

  /** One ayah's `matchingGharib.forEach`: fills blank slots, counting every row. */
  method FillSlots(g: Gharib, rows: seq<GharibRow>) returns (r: Gharib, added: nat)
    ensures r == FillRows(g, rows)
    ensures added == |rows|
  {
    r, added := g, 0;
    var i := 0;
    while i < |rows|
      invariant 0 <= i <= |rows|
      invariant FillRows(r, rows[i..]) == FillRows(g, rows)
      invariant added == i
    {
      var row := rows[i];
      assert rows[i..][0] == row && rows[i..][1..] == rows[i + 1..];
      if r.muyassar.None? || r.muyassar.value == map[] {
        r := r.(muyassar := Some(Gloss(row.word, row.muyassar)));
      }
      if r.siraj.None? || r.siraj.value == map[] {
        r := r.(siraj := Some(Gloss(row.word, row.siraj)));
      }
      added := added + 1;
      i := i + 1;
    }
  }

  /** One verse: initialise `gharib`, find the matching rows, fill the blank slots. */
  method MergeVerse(table: seq<GharibRow>, surah: int, a: Ayah) returns (r: Ayah, added: nat)
    ensures r == MergeAyah(table, surah, a)
    ensures added == |Matches(table, surah, a)|
  {
    r := a;
    if r.gharib.None? {
      r := r.(gharib := Some(EmptyGharib));
    }
    var matching := GetGharibForVerse(table, surah, r.number);
    added := 0;
    if |matching| > 0 {
      var g;
      g, added := FillSlots(r.gharib.value, matching);
      r := r.(gharib := Some(g));
    }
  }

  /** `data.ayat.forEach(...)` over one document's verses. */
  method MergeVerses(table: seq<GharibRow>, surah: int, ayat: seq<Ayah>)
    returns (merged: seq<Ayah>, entries: nat, verses: nat)
    ensures merged == MergeAyat(table, surah, ayat)
    ensures entries == Entries(table, surah, ayat)
    ensures verses == VersesWithGharib(table, surah, ayat)
  {
    merged, entries, verses := [], 0, 0;
    var i := 0;
    assert ayat[..i] == [];
    while i < |ayat|
      invariant 0 <= i <= |ayat|
      invariant merged == MergeAyat(table, surah, ayat[..i])
      invariant entries == Entries(table, surah, ayat[..i])
      invariant verses == VersesWithGharib(table, surah, ayat[..i])
    {
      var ayah, added := MergeVerse(table, surah, ayat[i]);
      CountersStep(table, surah, ayat, i);
      MergeAyatStep(table, surah, ayat, i);
      entries := entries + added;
      if added > 0 {
        verses := verses + 1;
      }
      merged := merged + [ayah];
      i := i + 1;
    }
    assert ayat[..i] == ayat;
  }

  /** One file: skip a non-numeric name, a malformed file or one without verses; otherwise merge
      its verses and write it back; a write that throws leaves the file and is not counted. */
  method ProcessFile(table: seq<GharibRow>, unwritable: set<string>, file: string, content: FileContent) returns (s: Step)
    ensures s == FixedFile(table, unwritable, file, content)
  {
    var surahNumber := SurahNumber(file);
    if surahNumber.None? || content.Malformed? {
      return Skip;
    }
    var data := content.doc;
    var ayat := Load(data);
    if ayat.None? {
      return Skip;
    }
    var merged, entries, verses := MergeVerses(table, surahNumber.value, ayat.value);
    if file in unwritable {
      s := Step(None, Tally(0, entries, verses));
    } else {
      s := Step(Some(Store(data, merged)), Tally(1, entries, verses));
    }
  }

  /** The whole script: returns the rewritten files and the three counters. */
  method ApplyGharibFixed(listing: seq<string>, corpus: Corpus, table: seq<GharibRow>, unwritable: set<string>)
    returns (result: Corpus, processedCount: nat, gharibEntriesAdded: nat, versesWithGharib: nat)
    ensures (result, Tally(processedCount, gharibEntriesAdded, versesWithGharib)) ==
      RunFiles(JsonFiles(listing), corpus, NoTally, FixedStep(table, unwritable))
  {
    var files := JsonFiles(listing);
    var counts := NoTally;
    result := corpus;
    var i := 0;
    assert files[i..] == files;
    while i < |files|
      invariant 0 <= i <= |files|
      invariant RunFiles(files[i..], result, counts, FixedStep(table, unwritable)) == RunFiles(files, corpus, NoTally, FixedStep(table, unwritable))
    {
      var file := files[i];
      if file in result {
        var s := ProcessFile(table, unwritable, file, result[file]);
        RunFilesVisit(files, i, result, counts, FixedStep(table, unwritable), s);
        result := result[file := Outcome(result[file], s)];
        counts := counts.Plus(s.tally);
      } else {
        RunFilesPass(files, i, result, counts, FixedStep(table, unwritable));
      }
      i := i + 1;
    }
    processedCount, gharibEntriesAdded, versesWithGharib := counts.processed, counts.added, counts.verses;
  }
}
