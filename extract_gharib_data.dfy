/** `extract-gharib-data.mjs`: collects the glosses of the Al-Naba file into a dictionary keyed
    `"78:<verse>"`, then gives every verse of every numbered surah file a `gharib` object and
    replaces it wholesale with the dictionary's entry for `"<surah>:<verse>"`, if there is one. */
module ExtractGharibData {

  import opened Wrappers
  import opened Seqs
  import opened Text
  import opened Corpus

  /** The `gharibDatabase` dictionary. */
  type GharibDatabase = map<string, Gharib>

  /** The surah whose file the dictionary is read from. */
  const Naba: int := 78

  /** `${surah}:${verse}`. */
  function VerseKey(surah: int, verse: int): string {
    Decimal(surah) + [':'] + Decimal(verse)
  }

  /** A key names one verse only: the rendering of an integer never holds `:`. */
  lemma VerseKeyInjective(s: int, v: int, s': int, v': int)
    requires VerseKey(s, v) == VerseKey(s', v')
    ensures s == s' && v == v'
  {
    DecimalAvoids(s, ':');
    DecimalAvoids(s', ':');
    SplitAtFirst(Decimal(s), Decimal(v), Decimal(s'), Decimal(v'), ':');
    DecimalInjective(s, s');
    DecimalInjective(v, v');
  }

  /** `ayah.gharib && (ayah.gharib.muyassar || ayah.gharib.siraj)`: a slot object, even `{}`,
      is truthy. */
  predicate Qualifies(a: Ayah) {
    a.gharib.Some? && (a.gharib.value.muyassar.Some? || a.gharib.value.siraj.Some?)
  }

  /** The dictionary after `nabaData.ayat.forEach(...)`: a later verse with the same number
      overwrites an earlier one. */
  function BuildDatabase(ayat: seq<Ayah>): GharibDatabase
    decreases |ayat|
  {
    if ayat == [] then map[]
    else
      var db := BuildDatabase(ayat[..|ayat| - 1]);
      var a := ayat[|ayat| - 1];
      if Qualifies(a) then db[VerseKey(Naba, a.number) := a.gharib.value] else db
  }

  /** Verse `i` is the last qualifying verse with its number. */
  predicate LastOfItsNumber(ayat: seq<Ayah>, i: nat)
    requires i < |ayat|
  {
    Qualifies(ayat[i]) &&
    forall j :: i < j < |ayat| && Qualifies(ayat[j]) ==> ayat[j].number != ayat[i].number
  }

  /** The dictionary holds the key `78:n` exactly for the qualifying verses numbered `n`, and its
      value is the `gharib` object of the last of them. */
  lemma DatabaseContents(ayat: seq<Ayah>)
    ensures forall k :: k in BuildDatabase(ayat) <==>
      exists i :: 0 <= i < |ayat| && Qualifies(ayat[i]) && k == VerseKey(Naba, ayat[i].number)
    ensures forall i :: 0 <= i < |ayat| && LastOfItsNumber(ayat, i) ==>
      BuildDatabase(ayat)[VerseKey(Naba, ayat[i].number)] == ayat[i].gharib.value
  {
    DatabaseKeys(ayat);
    DatabaseValues(ayat);
  }

  lemma {:induction false} DatabaseKeys(ayat: seq<Ayah>)
    ensures forall k :: k in BuildDatabase(ayat) <==>
      exists i :: 0 <= i < |ayat| && Qualifies(ayat[i]) && k == VerseKey(Naba, ayat[i].number)
    decreases |ayat|
  {
    if ayat != [] {
      var n := |ayat| - 1;
      var init := ayat[..n];
      var db := BuildDatabase(ayat);
      DatabaseKeys(init);
      forall i | 0 <= i < n ensures init[i] == ayat[i] {
      }
      forall k | k in db ensures exists i :: 0 <= i < |ayat| && Qualifies(ayat[i]) && k == VerseKey(Naba, ayat[i].number) {
        if !(Qualifies(ayat[n]) && k == VerseKey(Naba, ayat[n].number)) {
          assert k in BuildDatabase(init);
          var i :| 0 <= i < n && Qualifies(init[i]) && k == VerseKey(Naba, init[i].number);
          assert init[i] == ayat[i];
        }
      }
    }
  }

  lemma {:induction false} DatabaseValues(ayat: seq<Ayah>)
    ensures forall i :: 0 <= i < |ayat| && LastOfItsNumber(ayat, i) ==>
      VerseKey(Naba, ayat[i].number) in BuildDatabase(ayat) &&
      BuildDatabase(ayat)[VerseKey(Naba, ayat[i].number)] == ayat[i].gharib.value
    decreases |ayat|
  {
    if ayat != [] {
      var n := |ayat| - 1;
      var init := ayat[..n];
      var db := BuildDatabase(ayat);
      DatabaseValues(init);
      forall i | 0 <= i < |ayat| && LastOfItsNumber(ayat, i)
        ensures VerseKey(Naba, ayat[i].number) in db && db[VerseKey(Naba, ayat[i].number)] == ayat[i].gharib.value
      {
        if i < n {
          assert init[i] == ayat[i];
          assert LastOfItsNumber(init, i);
          if Qualifies(ayat[n]) {
            assert ayat[n].number != ayat[i].number;
            if VerseKey(Naba, ayat[n].number) == VerseKey(Naba, ayat[i].number) {
              VerseKeyInjective(Naba, ayat[n].number, Naba, ayat[i].number);
            }
          }
        }
      }
    }
  }

  /** Every key of the dictionary is a verse of surah 78, so only the Al-Naba file can hit it. */
  lemma DatabaseOnlyNaba(ayat: seq<Ayah>, surah: int, verse: int)
    requires VerseKey(surah, verse) in BuildDatabase(ayat)
    ensures surah == Naba
    ensures exists i :: 0 <= i < |ayat| && Qualifies(ayat[i]) && ayat[i].number == verse
  {
    DatabaseContents(ayat);
    var i :| 0 <= i < |ayat| && Qualifies(ayat[i]) && VerseKey(surah, verse) == VerseKey(Naba, ayat[i].number);
    VerseKeyInjective(surah, verse, Naba, ayat[i].number);
  }

  /** The dictionary, or `None` when reading the Al-Naba file throws: it does not parse or has
      no `ayat` array (the script reads only `ayat` there, not `ayahs`). */
  function Source(naba: FileContent): Option<GharibDatabase> {
    if naba.Malformed? || naba.doc.ayat.None? then None else Some(BuildDatabase(naba.doc.ayat.value))
  }

  /** Whether verse `a` of a surah's file has an entry; every stored value is a truthy object. */
  predicate Hit(db: GharibDatabase, surah: int, a: Ayah) {
    VerseKey(surah, a.number) in db
  }

  /** One turn of `data.ayat.forEach`: initialise `gharib`, then replace it wholesale with the
      dictionary's entry for the verse, if any. Nothing but `gharib` changes. */
  function ReplaceAyah(db: GharibDatabase, surah: int, a: Ayah): (r: Ayah)
    ensures r.gharib.Some?
    ensures r.(gharib := a.gharib) == a
    ensures Hit(db, surah, a) ==> r.gharib == Some(db[VerseKey(surah, a.number)])
    ensures !Hit(db, surah, a) ==> r == InitGharib(a)
  {
    var b := InitGharib(a);
    if Hit(db, surah, a) then b.(gharib := Some(db[VerseKey(surah, a.number)])) else b
  }

  function ReplaceAyat(db: GharibDatabase, surah: int, ayat: seq<Ayah>): (r: seq<Ayah>)
    ensures |r| == |ayat|
    ensures forall i :: 0 <= i < |r| ==> r[i].gharib.Some? && r[i].(gharib := ayat[i].gharib) == ayat[i]
  {
    seq(|ayat|, i requires 0 <= i < |ayat| => ReplaceAyah(db, surah, ayat[i]))
  }

  /** Replacing the first `i + 1` verses is replacing the first `i` and then verse `i`. */
  lemma ReplaceAyatStep(db: GharibDatabase, surah: int, ayat: seq<Ayah>, i: nat)
    requires i < |ayat|
    ensures ReplaceAyat(db, surah, ayat[..i + 1]) ==
      ReplaceAyat(db, surah, ayat[..i]) + [ReplaceAyah(db, surah, ayat[i])]
  {
    var l, r := ReplaceAyat(db, surah, ayat[..i + 1]), ReplaceAyat(db, surah, ayat[..i]) + [ReplaceAyah(db, surah, ayat[i])];
    forall k | 0 <= k < |l| ensures l[k] == r[k] {
      assert ayat[..i + 1][k] == ayat[k];
    }
  }

  /** `gharibCount` over one document: the verses with an entry. */
  function Hits(db: GharibDatabase, surah: int, ayat: seq<Ayah>): nat
    decreases |ayat|
  {
    if ayat == [] then 0
    else Hits(db, surah, ayat[..|ayat| - 1]) + (if Hit(db, surah, ayat[|ayat| - 1]) then 1 else 0)
  }

  function HitIn(db: GharibDatabase, surah: int): Ayah -> bool {
    (a: Ayah) => Hit(db, surah, a)
  }

  /** `gharibCount` is the number of verses whose `gharib` was replaced. */
  lemma {:induction false} HitsAreReplacements(db: GharibDatabase, surah: int, ayat: seq<Ayah>)
    ensures Hits(db, surah, ayat) == |Filter(ayat, HitIn(db, surah))|
    ensures Hits(db, surah, ayat) <= |ayat|
    decreases |ayat|
  {
    if ayat != [] {
      var init, last := ayat[..|ayat| - 1], ayat[|ayat| - 1];
      var p := HitIn(db, surah);
      HitsAreReplacements(db, surah, init);
      assert Hits(db, surah, ayat) == Hits(db, surah, init) + (if p(last) then 1 else 0);
      SplitLast(ayat);
      FilterAppend(init, [last], p);
      FilterOne(last, p);
    }
  }

  /** Counting the first `i + 1` verses is counting the first `i` and then verse `i`. */
  lemma HitsStep(db: GharibDatabase, surah: int, ayat: seq<Ayah>, i: nat)
    requires i < |ayat|
    ensures Hits(db, surah, ayat[..i + 1]) == Hits(db, surah, ayat[..i]) + (if Hit(db, surah, ayat[i]) then 1 else 0)
  {
    assert ayat[..i + 1][..i] == ayat[..i];
  }

  /** A file of another surah than 78 has no verse replaced: its verses only get initialised. */
  lemma OtherSurahOnlyInitialised(naba: seq<Ayah>, surah: int, ayat: seq<Ayah>)
    requires surah != Naba
    ensures Hits(BuildDatabase(naba), surah, ayat) == 0
    ensures forall i :: 0 <= i < |ayat| ==> ReplaceAyat(BuildDatabase(naba), surah, ayat)[i] == InitGharib(ayat[i])
  {
    var db := BuildDatabase(naba);
    forall i | 0 <= i < |ayat| ensures !Hit(db, surah, ayat[i]) {
      if Hit(db, surah, ayat[i]) {
        DatabaseOnlyNaba(naba, surah, ayat[i].number);
      }
    }
    HitsAreReplacements(db, surah, ayat);
  }

  /** Replacing twice is replacing once: the replaced object is the entry itself. */
  lemma ReplaceAyatIdempotent(db: GharibDatabase, surah: int, ayat: seq<Ayah>)
    ensures ReplaceAyat(db, surah, ReplaceAyat(db, surah, ayat)) == ReplaceAyat(db, surah, ayat)
  {
  }

  /** The replacement only looks at verse numbers, so a rerun counts the same verses again. */
  lemma {:induction false} HitsByNumber(db: GharibDatabase, surah: int, ayat: seq<Ayah>, ayat': seq<Ayah>)
    requires |ayat| == |ayat'|
    requires forall i :: 0 <= i < |ayat| ==> ayat[i].number == ayat'[i].number
    ensures Hits(db, surah, ayat) == Hits(db, surah, ayat')
    decreases |ayat|
  {
    if ayat != [] {
      var n := |ayat| - 1;
      HitsByNumber(db, surah, ayat[..n], ayat'[..n]);
    }
  }

  /** What the second loop does with one file: skip a non-numeric name, then a malformed file
      (the `catch`) or one without verses; otherwise replace and write back. A write that throws
      (a name in `unwritable`) leaves the file and is not counted, but its hits are. */
  function ExtractFile(db: GharibDatabase, unwritable: set<string>, name: string, content: FileContent): (s: Step)
    ensures s.written.Some? <==>
      SurahNumber(name).Some? && content.Parsed? && Load(content.doc).Some? && name !in unwritable
    ensures !(SurahNumber(name).Some? && content.Parsed? && Load(content.doc).Some?) ==> s == Skip
    ensures SurahNumber(name).Some? && content.Parsed? && Load(content.doc).Some? ==>
      var ayat := Load(content.doc).value;
      var surah := SurahNumber(name).value;
      (s.written.Some? ==> s.written.value == Store(content.doc, ReplaceAyat(db, surah, ayat))) &&
      s.tally == Tally(if name in unwritable then 0 else 1, Hits(db, surah, ayat), 0)
  {
    match SurahNumber(name)
    case None => Skip
    case Some(surah) =>
      if content.Malformed? || Load(content.doc).None? then Skip
      else
        var ayat := Load(content.doc).value;
        WriteBack(unwritable, name, Store(content.doc, ReplaceAyat(db, surah, ayat)), Hits(db, surah, ayat), 0)
  }

  function ExtractStep(db: GharibDatabase, unwritable: set<string>): (string, FileContent) -> Step {
    (name: string, content: FileContent) => ExtractFile(db, unwritable, name, content)
  }

  /** Running the loop on a file it has written writes the same document and counts the same
      entries again: `gharibCount` counts dictionary hits, not changes. */
  lemma RerunSameFileAndCount(db: GharibDatabase, unwritable: set<string>, name: string, c: FileContent)
    ensures var once := Outcome(c, ExtractFile(db, unwritable, name, c));
            Outcome(once, ExtractFile(db, unwritable, name, once)) == once &&
            ExtractFile(db, unwritable, name, once).tally == ExtractFile(db, unwritable, name, c).tally
  {
    var s := ExtractFile(db, unwritable, name, c);
    if s.written.Some? {
      var surah := SurahNumber(name).value;
      var ayat := Load(c.doc).value;
      ReplaceAyatIdempotent(db, surah, ayat);
      StoreLoaded(s.written.value);
      HitsByNumber(db, surah, ayat, ReplaceAyat(db, surah, ayat));
    }
  }

  /** Running the script twice leaves the files as running it once. */
  lemma RunTwiceChangesNothing(listing: seq<string>, corpus: Corpus, db: GharibDatabase, unwritable: set<string>)
    requires Distinct(listing)
    ensures var once := RunFiles(JsonFiles(listing), corpus, NoTally, ExtractStep(db, unwritable)).0;
            RunFiles(JsonFiles(listing), once, NoTally, ExtractStep(db, unwritable)).0 == once
  {
    var files := JsonFiles(listing);
    forall f | f in files && f in corpus ensures Settles(ExtractStep(db, unwritable), f, corpus[f]) {
      RerunSameFileAndCount(db, unwritable, f, corpus[f]);
    }
    RunFilesIdempotent(files, corpus, NoTally, NoTally, ExtractStep(db, unwritable));
  }

  /** The first loop: `gharibDatabase[key] = ayah.gharib` for every qualifying verse. */
  method BuildGharibDatabase(ayat: seq<Ayah>) returns (db: GharibDatabase)
    ensures db == BuildDatabase(ayat)
  {
    db := map[];
    var i := 0;
    while i < |ayat|
      invariant 0 <= i <= |ayat|
      invariant db == BuildDatabase(ayat[..i])
    {
      var ayah := ayat[i];
      assert ayat[..i + 1][..i] == ayat[..i] && ayat[..i + 1][i] == ayah;
      if ayah.gharib.Some? && (ayah.gharib.value.muyassar.Some? || ayah.gharib.value.siraj.Some?) {
        db := db[VerseKey(Naba, ayah.number) := ayah.gharib.value];
      }
      i := i + 1;
    }
    assert ayat[..i] == ayat;
  }

  /** `data.ayat.forEach(...)` over one document's verses. */
  method ReplaceVerses(db: GharibDatabase, surah: int, ayat: seq<Ayah>) returns (merged: seq<Ayah>, hits: nat)
    ensures merged == ReplaceAyat(db, surah, ayat)
    ensures hits == Hits(db, surah, ayat)
  {
    merged, hits := [], 0;
    var i := 0;
    assert ayat[..i] == [];
    while i < |ayat|
      invariant 0 <= i <= |ayat|
      invariant merged == ReplaceAyat(db, surah, ayat[..i])
      invariant hits == Hits(db, surah, ayat[..i])
    {
      var ayah := ayat[i];
      HitsStep(db, surah, ayat, i);
      ReplaceAyatStep(db, surah, ayat, i);
      if ayah.gharib.None? {
        ayah := ayah.(gharib := Some(EmptyGharib));
      }
      var key := VerseKey(surah, ayah.number);
      if key in db {
        ayah := ayah.(gharib := Some(db[key]));
        hits := hits + 1;
      }
      merged := merged + [ayah];
      i := i + 1;
    }
    assert ayat[..i] == ayat;
  }

  /** One file of the second loop. */
  method ProcessFile(db: GharibDatabase, unwritable: set<string>, file: string, content: FileContent) returns (s: Step)
    ensures s == ExtractFile(db, unwritable, file, content)
  {
    var surahNumber := SurahNumber(file);
    if surahNumber.None? || content.Malformed? {
      return Skip;
    }
    var data := content.doc;
    var ayat := Load(data);
    if ayat.None? {
      return Skip;
    }
    var merged, hits := ReplaceVerses(db, surahNumber.value, ayat.value);
    if file in unwritable {
      s := Step(None, Tally(0, hits, 0));
    } else {
      s := Step(Some(Store(data, merged)), Tally(1, hits, 0));
    }
  }

  /** The whole script. Reading the Al-Naba file is outside any `try`: when it throws, the
      script stops before touching a surah file (`crashed`). */
  method ExtractGharibData(naba: FileContent, listing: seq<string>, corpus: Corpus, unwritable: set<string>)
    returns (crashed: bool, result: Corpus, processedCount: nat, gharibCount: nat)
    ensures crashed <==> Source(naba).None?
    ensures crashed ==> result == corpus && processedCount == 0 && gharibCount == 0
    ensures !crashed ==>
      (result, Tally(processedCount, gharibCount, 0)) ==
        RunFiles(JsonFiles(listing), corpus, NoTally, ExtractStep(Source(naba).value, unwritable))
  {
    result, processedCount, gharibCount := corpus, 0, 0;
    if naba.Malformed? || naba.doc.ayat.None? {
      return true, result, processedCount, gharibCount;
    }
    crashed := false;
    var db := BuildGharibDatabase(naba.doc.ayat.value);
    var files := JsonFiles(listing);
    var counts := NoTally;
    var i := 0;
    assert files[i..] == files;
    while i < |files|
      invariant 0 <= i <= |files|
      invariant counts.verses == 0
      invariant RunFiles(files[i..], result, counts, ExtractStep(db, unwritable)) == RunFiles(files, corpus, NoTally, ExtractStep(db, unwritable))
    {
      var file := files[i];
      if file in result {
        var s := ProcessFile(db, unwritable, file, result[file]);
        RunFilesVisit(files, i, result, counts, ExtractStep(db, unwritable), s);
        result := result[file := Outcome(result[file], s)];
        counts := counts.Plus(s.tally);
      } else {
        RunFilesPass(files, i, result, counts, ExtractStep(db, unwritable));
      }
      i := i + 1;
    }
    processedCount, gharibCount := counts.processed, counts.added;
  }
}
