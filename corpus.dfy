/** The per-surah JSON corpus the batch scripts rewrite, and the file loop they share:
    list the directory, keep `*.json`, derive the surah number from the file name, parse,
    normalise `ayahs` to `ayat`, process, write back. */
module Corpus {

  import opened Wrappers
  import opened Seqs
  import opened Text

  /** A gloss slot (`gharib.muyassar` or `gharib.siraj`): a JSON object with string fields;
      `{}` is `map[]`. */
  type Slot = map<string, string>

  /** `ayah.gharib`: each slot may also be missing as a key. */
  datatype Gharib = Gharib(muyassar: Option<Slot>, siraj: Option<Slot>)

  /** An element of `ayah.shehri_videos`. */
  datatype Video = Video(videoId: string, url: string, title: string, word: string)

  /** One verse object; `rest` holds every other key, which no script touches. */
  datatype Ayah = Ayah(
    number: int,
    text: string,
    tafsir: map<string, string>,
    gharib: Option<Gharib>,
    shehriVideos: Option<seq<Video>>,
    rest: map<string, string>)

  /** One surah file: its verses under `ayat`, under the legacy key `ayahs`, under both or neither. */
  datatype Document = Document(ayat: Option<seq<Ayah>>, ayahs: Option<seq<Ayah>>, rest: map<string, string>)

  /** What a file holds; `Malformed` is text `JSON.parse` rejects (or a JSON value that is not an object). */
  datatype FileContent = Parsed(doc: Document) | Malformed

  /** The surahs directory: file name to content. */
  type Corpus = map<string, FileContent>

  /** `{muyassar: {}, siraj: {}}`. */
  const EmptyGharib: Gharib := Gharib(Some(map[]), Some(map[]))

  /** `if (!ayah.gharib) ayah.gharib = {muyassar: {}, siraj: {}}`. */
  function InitGharib(a: Ayah): (r: Ayah)
    ensures r.gharib.Some?
    ensures r.(gharib := a.gharib) == a
    ensures a.gharib.Some? ==> r == a
    ensures a.gharib.None? ==> r.gharib == Some(EmptyGharib)
  {
    if a.gharib.None? then a.(gharib := Some(EmptyGharib)) else a
  }

  /** The `{word, meaning}` object the merges write into a slot. */
  function Gloss(word: string, meaning: string): (s: Slot)
    ensures s != map[]
    ensures "word" in s && s["word"] == word
    ensures "meaning" in s && s["meaning"] == meaning
    ensures s.Keys == {"word", "meaning"}
  {
    var s := map["word" := word, "meaning" := meaning];
    assert "word" in s;
    s
  }

  /** `f.endsWith('.json')`. */
  predicate IsJsonFile(name: string) {
    |name| >= 5 && name[|name| - 5..] == ".json"
  }

  /** `fs.readdirSync(dir).filter(f => f.endsWith('.json'))`. */
  function JsonFiles(listing: seq<string>): (files: seq<string>)
    ensures forall f :: f in files <==> f in listing && IsJsonFile(f)
    ensures IsSubseq(files, listing)
    ensures Distinct(listing) ==> Distinct(files)
  {
    if Distinct(listing) then FilterDistinct(listing, IsJsonFile); Filter(listing, IsJsonFile)
    else Filter(listing, IsJsonFile)
  }

  /** `path.basename(file, '.json')` for a name without directory part. */
  function Stem(name: string): string {
    if IsJsonFile(name) then name[..|name| - 5] else name
  }

  /** `parseInt(path.basename(file, '.json'))`; `None` is `NaN`. */
  function SurahNumber(name: string): Option<int> {
    ParseInt(Stem(name))
  }

  /** `path.basename(d + '.json', '.json')` is `d`. */
  lemma StemOfJson(d: string)
    ensures Stem(d + ".json") == d
  {
    var name := d + ".json";
    assert name[|name| - 5..] == ".json";
    assert name[..|name| - 5] == d;
  }

  /** A file named after a number gets that surah number back. */
  lemma NumberedFileName(n: int)
    ensures SurahNumber(Decimal(n) + ".json") == Some(n)
  {
    StemOfJson(Decimal(n));
    ParseDecimal(n);
  }

  /** A file name starting with a character that is neither white space, a sign nor a digit
      (such as `index.json`) has a `NaN` surah number. */
  lemma UnnumberedFileName(d: string)
    requires d != [] && !IsStrWhiteSpace(d[0]) && d[0] != '-' && d[0] != '+' && DigitValue(d[0], 10).None?
    ensures SurahNumber(d + ".json") == None
  {
    StemOfJson(d);
    assert TrimStart(d) == d;
  }

  /** The verse array after `if (!data.ayat && data.ayahs) data.ayat = data.ayahs`;
      `None` when the document has neither key. */
  function Load(doc: Document): (ayat: Option<seq<Ayah>>)
    ensures ayat.None? <==> doc.ayat.None? && doc.ayahs.None?
    ensures doc.ayat.Some? ==> ayat == doc.ayat
  {
    if doc.ayat.Some? then doc.ayat else doc.ayahs
  }

  /** The document written back after its verses became `ayat`. When `ayat` was copied from
      `ayahs`, both keys hold the same array object, so the merged verses appear under both. */
  function Store(doc: Document, ayat: seq<Ayah>): (d: Document)
    requires Load(doc).Some?
    ensures Load(d) == Some(ayat) && d.ayat == Some(ayat)
    ensures d.rest == doc.rest
    ensures doc.ayat.Some? ==> d.ayahs == doc.ayahs
    ensures doc.ayat.None? ==> d.ayahs == Some(ayat)
  {
    if doc.ayat.Some? then doc.(ayat := Some(ayat)) else doc.(ayat := Some(ayat), ayahs := Some(ayat))
  }

  /** Storing the verses a document already holds under `ayat` changes nothing. */
  lemma StoreLoaded(doc: Document)
    requires doc.ayat.Some?
    ensures Store(doc, doc.ayat.value) == doc
  {
  }

  /** Counter increments of one file: files processed, entries added, verses touched. */
  datatype Tally = Tally(processed: nat, added: nat, verses: nat) {
    function Plus(t: Tally): Tally {
      Tally(processed + t.processed, added + t.added, verses + t.verses)
    }
  }

  const NoTally: Tally := Tally(0, 0, 0)

  /** What a script does with one file: the document it writes, if any, and its counter increments. */
  datatype Step = Step(written: Option<Document>, tally: Tally)

  /** A file left alone: not written, nothing counted. */
  const Skip: Step := Step(None, NoTally)

  /** The end of every script's `try` block: `fs.writeFileSync(filePath, ...)`, then
      `processedCount++`. The names in `unwritable` are files whose write throws (read-only, disk
      full): the `catch` leaves the file as it was and skips the increment, while the counters
      bumped before the write keep their increments. */
  function WriteBack(unwritable: set<string>, name: string, doc: Document, added: nat, verses: nat): (s: Step)
    ensures s.tally.added == added && s.tally.verses == verses
    ensures s.written.Some? <==> name !in unwritable
    ensures s.written.Some? ==> s.written.value == doc && s.tally.processed == 1
    ensures s.written.None? ==> s.tally.processed == 0
  {
    if name in unwritable then Step(None, Tally(0, added, verses)) else Step(Some(doc), Tally(1, added, verses))
  }

  /** The file's content after the step. */
  function Outcome(content: FileContent, s: Step): FileContent {
    if s.written.Some? then Parsed(s.written.value) else content
  }

  /** The `files.forEach(...)` loop: each listed file in turn, reading the current content;
      a listed name with no file behind it is a read error, caught and skipped. */
  function RunFiles(files: seq<string>, corpus: Corpus, tally: Tally, step: (string, FileContent) -> Step): (Corpus, Tally)
    decreases |files|
  {
    if files == [] then (corpus, tally)
    else
      var f := files[0];
      var s := if f in corpus then step(f, corpus[f]) else Skip;
      var next := if f in corpus then corpus[f := Outcome(corpus[f], s)] else corpus;
      RunFiles(files[1..], next, tally.Plus(s.tally), step)
  }

  /** One turn of the loop, from the `i`th file on. */
  lemma RunFilesCons(files: seq<string>, i: nat, corpus: Corpus, tally: Tally, step: (string, FileContent) -> Step)
    requires i < |files|
    ensures var f := files[i];
            var s := if f in corpus then step(f, corpus[f]) else Skip;
            var next := if f in corpus then corpus[f := Outcome(corpus[f], s)] else corpus;
            RunFiles(files[i..], corpus, tally, step) == RunFiles(files[i + 1..], next, tally.Plus(s.tally), step)
  {
    assert files[i..][0] == files[i] && files[i..][1..] == files[i + 1..];
  }

  /** A turn of the loop on a file that exists, whose step the caller has computed as `s`. */
  lemma RunFilesVisit(files: seq<string>, i: nat, corpus: Corpus, tally: Tally, step: (string, FileContent) -> Step, s: Step)
    requires i < |files| && files[i] in corpus && s == step(files[i], corpus[files[i]])
    ensures RunFiles(files[i..], corpus, tally, step) ==
      RunFiles(files[i + 1..], corpus[files[i] := Outcome(corpus[files[i]], s)], tally.Plus(s.tally), step)
  {
    RunFilesCons(files, i, corpus, tally, step);
  }

  /** A turn of the loop on a listed file that is not there: nothing happens. */
  lemma RunFilesPass(files: seq<string>, i: nat, corpus: Corpus, tally: Tally, step: (string, FileContent) -> Step)
    requires i < |files| && files[i] !in corpus
    ensures RunFiles(files[i..], corpus, tally, step) == RunFiles(files[i + 1..], corpus, tally, step)
  {
    RunFilesCons(files, i, corpus, tally, step);
    assert tally.Plus(Skip.tally) == tally;
  }

  /** The sum of the per-file increments, each taken on the file's original content. */
  function TallyOf(files: seq<string>, corpus: Corpus, step: (string, FileContent) -> Step): Tally
    decreases |files|
  {
    if files == [] then NoTally
    else
      var s := if files[0] in corpus then step(files[0], corpus[files[0]]) else Skip;
      s.tally.Plus(TallyOf(files[1..], corpus, step))
  }

  lemma {:induction false} TallyOfAgree(files: seq<string>, c: Corpus, c': Corpus, step: (string, FileContent) -> Step)
    requires forall f :: f in files ==> (f in c <==> f in c') && (f in c ==> c[f] == c'[f])
    ensures TallyOf(files, c, step) == TallyOf(files, c', step)
    decreases |files|
  {
    if files != [] {
      TallyOfAgree(files[1..], c, c', step);
    }
  }

  /** The loop never adds or removes a file. */
  lemma {:induction false} RunFilesKeys(files: seq<string>, corpus: Corpus, tally: Tally, step: (string, FileContent) -> Step)
    ensures RunFiles(files, corpus, tally, step).0.Keys == corpus.Keys
    decreases |files|
  {
    if files != [] {
      var f := files[0];
      var s := if f in corpus then step(f, corpus[f]) else Skip;
      var next := if f in corpus then corpus[f := Outcome(corpus[f], s)] else corpus;
      RunFilesKeys(files[1..], next, tally.Plus(s.tally), step);
    }
  }

  /** Files are independent: after the loop each listed file holds what the step makes of its
      original content, and every other file is untouched. */
  lemma {:induction false} RunFilesAt(files: seq<string>, corpus: Corpus, tally: Tally, step: (string, FileContent) -> Step, f: string)
    requires Distinct(files) && f in corpus
    ensures f in RunFiles(files, corpus, tally, step).0
    ensures RunFiles(files, corpus, tally, step).0[f] ==
      (if f in files then Outcome(corpus[f], step(f, corpus[f])) else corpus[f])
    decreases |files|
  {
    RunFilesKeys(files, corpus, tally, step);
    if files != [] {
      var g := files[0];
      var s := if g in corpus then step(g, corpus[g]) else Skip;
      var next := if g in corpus then corpus[g := Outcome(corpus[g], s)] else corpus;
      DistinctTail(files);
      RunFilesAt(files[1..], next, tally.Plus(s.tally), step, f);
      assert f in files <==> f == g || f in files[1..];
    }
  }

  /** The counters end up as the per-file sums over the original contents. */
  lemma {:induction false} RunFilesTally(files: seq<string>, corpus: Corpus, tally: Tally, step: (string, FileContent) -> Step)
    requires Distinct(files)
    ensures RunFiles(files, corpus, tally, step).1 == tally.Plus(TallyOf(files, corpus, step))
    decreases |files|
  {
    if files != [] {
      var g := files[0];
      var s := if g in corpus then step(g, corpus[g]) else Skip;
      var next := if g in corpus then corpus[g := Outcome(corpus[g], s)] else corpus;
      DistinctTail(files);
      RunFilesTally(files[1..], next, tally.Plus(s.tally), step);
      TallyOfAgree(files[1..], corpus, next, step);
    }
  }

  /** When no file's step adds anything, neither do all of them together. */
  lemma {:induction false} TallyOfNoneAdded(files: seq<string>, corpus: Corpus, step: (string, FileContent) -> Step)
    requires forall f :: f in files && f in corpus ==> step(f, corpus[f]).tally.added == 0
    ensures TallyOf(files, corpus, step).added == 0
    decreases |files|
  {
    if files != [] {
      assert forall f :: f in files[1..] ==> f in files;
      TallyOfNoneAdded(files[1..], corpus, step);
    }
  }

  /** A step settles a content when processing its own output writes that output again (or nothing). */
  predicate Settles(step: (string, FileContent) -> Step, f: string, c: FileContent) {
    var once := Outcome(c, step(f, c));
    Outcome(once, step(f, once)) == once
  }

  /** Running a script over its own output changes no file, when every file settles. */
  lemma RunFilesIdempotent(files: seq<string>, corpus: Corpus, t: Tally, t': Tally, step: (string, FileContent) -> Step)
    requires Distinct(files)
    requires forall f :: f in files && f in corpus ==> Settles(step, f, corpus[f])
    ensures RunFiles(files, RunFiles(files, corpus, t, step).0, t', step).0 == RunFiles(files, corpus, t, step).0
  {
    var once := RunFiles(files, corpus, t, step).0;
    var twice := RunFiles(files, once, t', step).0;
    RunFilesKeys(files, corpus, t, step);
    RunFilesKeys(files, once, t', step);
    forall f | f in corpus ensures twice[f] == once[f] {
      RunFilesAt(files, corpus, t, step, f);
      RunFilesAt(files, once, t', step, f);
    }
  }
}
