/** `add-gharib-to-all-surahs.mjs`: gives every verse of every surah file a `gharib` object and a
    `shehri_videos` array, and appends to that array the script's own video mappings of the verse,
    skipping a video whose id the array already lists. */
module AddGharibToAllSurahs {

  import opened Wrappers
  import opened Seqs
  import opened Corpus

  /** One element of the script's `videoMappings` array. */
  datatype VideoRow = VideoRow(surah: int, verse: int, word: string, videoId: string, title: string)

  /** An excerpt of the script's `videoMappings` (episodes 1, 9, 18, 27, 28, 29 and 30). Episodes
      27 and 29 share a video id, and so do episodes 28 and 30. */
  const ScriptExcerpt: seq<VideoRow> := [Episode1, Episode9, Episode18, Episode27, Episode28, Episode29, Episode30]

  const Episode1 := VideoRow(80, 1, "عبس", "b7MEB7iOSfI", "برنامج ( غريب القرآن ) || الحلقة 01 - { غثاءً أحوى}")
  const Episode9 := VideoRow(78, 14, "ماءً ثجاجًا", "7n-2DSPb8a4", "برنامج ( غريب القرآن ) || الحلقة 09 - { ماءً ثجاجًا }")
  const Episode18 := VideoRow(78, 34, "دِهَاقًا", "bnNG9D3hZSo", "برنامج ( غريب القرآن ) || الحلقة 18 - { و كأسًا دهاقًا }")
  const Episode27 := VideoRow(4, 3, "قسمة ضيزى", "zODfN7wICGQ", "برنامج ( غريب القرآن ) || الحلقة 27 - { قسمة ضيزى }")
  const Episode28 := VideoRow(16, 71, "أولي النعمة", "Ut-Zkxd6MPQ", "برنامج ( غريب القرآن ) || الحلقة 28 - { أولي النعمة }")
  const Episode29 := VideoRow(75, 16, "مهطعين", "zODfN7wICGQ", "برنامج ( غريب القرآن ) || الحلقة 29 - { مهطعين } ، { عزين }")
  const Episode30 := VideoRow(12, 80, "وشددنا أسرهم", "Ut-Zkxd6MPQ", "برنامج ( غريب القرآن ) || الحلقة 30 - { وشددنا أسرهم }")

  const WatchPrefix: string := "https://www.youtube.com/watch?v="

  /** `https://www.youtube.com/watch?v=${videoId}`. */
  function WatchUrl(videoId: string): (u: string)
    ensures |u| == |WatchPrefix| + |videoId| && u[..|WatchPrefix|] == WatchPrefix
  {
    WatchPrefix + videoId
  }

  /** The id can be read back from the URL, so distinct videos get distinct URLs. */
  lemma WatchUrlInjective(a: string, b: string)
    requires WatchUrl(a) == WatchUrl(b)
    ensures a == b
  {
    assert a == WatchUrl(a)[|WatchPrefix|..];
    assert b == WatchUrl(b)[|WatchPrefix|..];
  }

  /** The object pushed onto `shehri_videos` for a mapping. */
  function Entry(row: VideoRow): Video {
    Video(row.videoId, WatchUrl(row.videoId), row.title, row.word)
  }

  function SameId(videoId: string): Video -> bool {
    (v: Video) => v.videoId == videoId
  }

  /** The ids a video array lists. */
  function Ids(videos: seq<Video>): set<string> {
    set i | 0 <= i < |videos| :: videos[i].videoId
  }

  /** The ids of some mapping rows. */
  function RowIds(rows: seq<VideoRow>): set<string> {
    set i | 0 <= i < |rows| :: rows[i].videoId
  }

  /** No two elements share a `videoId`. */
  predicate UniqueIds(videos: seq<Video>) {
    forall i, j :: 0 <= i < j < |videos| ==> videos[i].videoId != videos[j].videoId
  }

  /** One turn of `matchingVideos.forEach`: push the mapping's entry unless
      `shehri_videos.some(v => v.videoId === video.videoId)`. */
  function AddVideo(videos: seq<Video>, row: VideoRow): (r: seq<Video>)
    ensures |videos| <= |r| <= |videos| + 1 && r[..|videos|] == videos
    ensures exists v :: v in r && v.videoId == row.videoId
    ensures |r| > |videos| <==> forall v :: v in videos ==> v.videoId != row.videoId
  {
    if Any(videos, SameId(row.videoId)) then videos else videos + [Entry(row)]
  }

  /** All of `matchingVideos.forEach`, in table order: the existing elements stay first, in
      their order, and at most one element per row follows them. */
  function AddVideos(videos: seq<Video>, rows: seq<VideoRow>): (r: seq<Video>)
    ensures |videos| <= |r| <= |videos| + |rows|
    ensures r[..|videos|] == videos
    decreases |rows|
  {
    if rows == [] then videos
    else
      var next := AddVideo(videos, rows[0]);
      var r := AddVideos(next, rows[1..]);
      assert r[..|videos|] == r[..|next|][..|videos|];
      r
  }

  /** The appends `videosAdded` counts. */
  function Added(videos: seq<Video>, rows: seq<VideoRow>): nat {
    |AddVideos(videos, rows)| - |videos|
  }

  /** One push adds its id to the listed ids and nothing else. */
  lemma AddVideoIds(videos: seq<Video>, row: VideoRow)
    ensures Ids(AddVideo(videos, row)) == Ids(videos) + {row.videoId}
  {
    if Any(videos, SameId(row.videoId)) {
      var x :| x in videos && SameId(row.videoId)(x);
      var i :| 0 <= i < |videos| && videos[i] == x;
      assert row.videoId in Ids(videos);
    } else {
      var r := videos + [Entry(row)];
      assert r[|videos|].videoId == row.videoId;
      forall id | id in Ids(r) ensures id in Ids(videos) + {row.videoId} {
        var i :| 0 <= i < |r| && r[i].videoId == id;
        if i < |videos| {
          assert r[i] == videos[i];
        }
      }
      forall id | id in Ids(videos) ensures id in Ids(r) {
        var i :| 0 <= i < |videos| && videos[i].videoId == id;
        assert r[i] == videos[i];
      }
    }
  }

  /** After the merge the array lists exactly the ids it listed before and those of the rows. */
  lemma {:induction false} AddVideosIds(videos: seq<Video>, rows: seq<VideoRow>)
    ensures Ids(AddVideos(videos, rows)) == Ids(videos) + RowIds(rows)
    decreases |rows|
  {
    if rows != [] {
      AddVideoIds(videos, rows[0]);
      AddVideosIds(AddVideo(videos, rows[0]), rows[1..]);
      assert RowIds(rows) == {rows[0].videoId} + RowIds(rows[1..]) by {
        forall id | id in RowIds(rows) ensures id in {rows[0].videoId} + RowIds(rows[1..]) {
          var i :| 0 <= i < |rows| && rows[i].videoId == id;
          if i > 0 {
            assert rows[1..][i - 1] == rows[i];
          }
        }
        forall id | id in RowIds(rows[1..]) ensures id in RowIds(rows) {
          var i :| 0 <= i < |rows[1..]| && rows[1..][i].videoId == id;
          assert rows[1..][i] == rows[i + 1];
        }
      }
    }
  }

  /** A push keeps the ids unique: it only happens for an id not yet listed. */
  lemma AddVideoUnique(videos: seq<Video>, row: VideoRow)
    requires UniqueIds(videos)
    ensures UniqueIds(AddVideo(videos, row))
  {
    if !Any(videos, SameId(row.videoId)) {
      var r := videos + [Entry(row)];
      forall i, j | 0 <= i < j < |r| ensures r[i].videoId != r[j].videoId {
        assert r[i] == videos[i];
        if j == |videos| {
          assert r[j].videoId == row.videoId;
          assert !SameId(row.videoId)(videos[i]);
        } else {
          assert r[j] == videos[j];
        }
      }
    }
  }

  /** No two elements of `shehri_videos` share an id after the merge, given none did before. */
  lemma {:induction false} AddVideosUnique(videos: seq<Video>, rows: seq<VideoRow>)
    requires UniqueIds(videos)
    ensures UniqueIds(AddVideos(videos, rows))
    decreases |rows|
  {
    if rows != [] {
      AddVideoUnique(videos, rows[0]);
      AddVideosUnique(AddVideo(videos, rows[0]), rows[1..]);
    }
  }

  /** Every appended element is the entry of one of the rows. */
  lemma {:induction false} AddVideosAppended(videos: seq<Video>, rows: seq<VideoRow>, k: nat)
    requires |videos| <= k < |AddVideos(videos, rows)|
    ensures exists j :: 0 <= j < |rows| && AddVideos(videos, rows)[k] == Entry(rows[j])
    decreases |rows|
  {
    var next := AddVideo(videos, rows[0]);
    var r := AddVideos(next, rows[1..]);
    if k < |next| {
      assert k == |videos| && next == videos + [Entry(rows[0])];
      assert r[k] == r[..|next|][k] == next[k];
    } else {
      AddVideosAppended(next, rows[1..], k);
      var j :| 0 <= j < |rows[1..]| && r[k] == Entry(rows[1..][j]);
      assert rows[1..][j] == rows[j + 1];
    }
  }

  /** Rows whose ids are all listed already add nothing. */
  lemma {:induction false} AddVideosKnown(videos: seq<Video>, rows: seq<VideoRow>)
    requires RowIds(rows) <= Ids(videos)
    ensures AddVideos(videos, rows) == videos
    decreases |rows|
  {
    if rows != [] {
      assert rows[0].videoId in Ids(videos);
      var i :| 0 <= i < |videos| && videos[i].videoId == rows[0].videoId;
      assert videos[i] in videos && SameId(rows[0].videoId)(videos[i]);
      assert RowIds(rows[1..]) <= RowIds(rows) by {
        forall id | id in RowIds(rows[1..]) ensures id in RowIds(rows) {
          var j :| 0 <= j < |rows[1..]| && rows[1..][j].videoId == id;
          assert rows[1..][j] == rows[j + 1];
        }
      }
      AddVideosKnown(videos, rows[1..]);
    }
  }

  /** Merging the same rows again adds nothing. */
  lemma AddVideosIdempotent(videos: seq<Video>, rows: seq<VideoRow>)
    ensures AddVideos(AddVideos(videos, rows), rows) == AddVideos(videos, rows)
  {
    AddVideosIds(videos, rows);
    AddVideosKnown(AddVideos(videos, rows), rows);
  }

  /** An array whose ids are unique lists as many ids as it has elements. */
  lemma {:induction false} UniqueIdsCount(videos: seq<Video>)
    requires UniqueIds(videos)
    ensures |Ids(videos)| == |videos|
    decreases |videos|
  {
    if videos != [] {
      var n := |videos| - 1;
      var init := videos[..n];
      assert UniqueIds(init) by {
        forall i, j | 0 <= i < j < |init| ensures init[i].videoId != init[j].videoId {
          assert init[i] == videos[i] && init[j] == videos[j];
        }
      }
      UniqueIdsCount(init);
      assert Ids(videos) == Ids(init) + {videos[n].videoId} by {
        forall id | id in Ids(videos) ensures id in Ids(init) + {videos[n].videoId} {
          var i :| 0 <= i < |videos| && videos[i].videoId == id;
          if i < n {
            assert init[i] == videos[i];
          }
        }
        forall id | id in Ids(init) ensures id in Ids(videos) {
          var i :| 0 <= i < |init| && init[i].videoId == id;
          assert init[i] == videos[i];
        }
      }
      assert videos[n].videoId !in Ids(init) by {
        forall i | 0 <= i < |init| ensures init[i].videoId != videos[n].videoId {
          assert init[i] == videos[i];
        }
      }
    }
  }

  /** `videosAdded` counts the distinct ids among the verse's matching rows that the verse did
      not list yet (given its ids were unique): a repeated row or an already listed video adds
      nothing. */
  lemma AddedCountsNewIds(videos: seq<Video>, rows: seq<VideoRow>)
    requires UniqueIds(videos)
    ensures Added(videos, rows) == |RowIds(rows) - Ids(videos)|
  {
    var r := AddVideos(videos, rows);
    AddVideosIds(videos, rows);
    AddVideosUnique(videos, rows);
    UniqueIdsCount(videos);
    UniqueIdsCount(r);
    var a, b := Ids(videos), RowIds(rows) - Ids(videos);
    assert Ids(r) == a + b;
    assert a * b == {};
  }

  /** `v.surah === surahNumber && v.verse === ayah.number`; a `NaN` surah number equals nothing. */
  function AtVerseOf(surah: Option<int>, verse: int): VideoRow -> bool {
    (v: VideoRow) => surah == Some(v.surah) && v.verse == verse
  }

  /** `videoMappings.filter(...)` for one verse. */
  function Matching(table: seq<VideoRow>, surah: Option<int>, a: Ayah): seq<VideoRow> {
    Filter(table, AtVerseOf(surah, a.number))
  }

  /** `shehri_videos` after `if (!ayah.shehri_videos) ayah.shehri_videos = []`. */
  function Videos(a: Ayah): seq<Video> {
    if a.shehriVideos.Some? then a.shehriVideos.value else []
  }

  /** One turn of `data.ayat.forEach`: initialise both keys, then append the matching videos.
      Nothing but `gharib` and `shehri_videos` changes. */
  function MergeAyah(table: seq<VideoRow>, surah: Option<int>, a: Ayah): (r: Ayah)
    ensures r.gharib.Some? && r.shehriVideos.Some?
    ensures r.(gharib := a.gharib, shehriVideos := a.shehriVideos) == a
  {
    InitGharib(a).(shehriVideos := Some(AddVideos(Videos(a), Matching(table, surah, a))))
  }

  /** Merging a merged verse again changes nothing. */
  lemma MergeAyahIdempotent(table: seq<VideoRow>, surah: Option<int>, a: Ayah)
    ensures MergeAyah(table, surah, MergeAyah(table, surah, a)) == MergeAyah(table, surah, a)
  {
    var once := MergeAyah(table, surah, a);
    assert Matching(table, surah, once) == Matching(table, surah, a);
    AddVideosIdempotent(Videos(a), Matching(table, surah, a));
  }

  /** The merged verse array. */
  function MergeAyat(table: seq<VideoRow>, surah: Option<int>, ayat: seq<Ayah>): (r: seq<Ayah>)
    ensures |r| == |ayat|
    ensures forall i :: 0 <= i < |r| ==>
      r[i].gharib.Some? && r[i].shehriVideos.Some? &&
      r[i].(gharib := ayat[i].gharib, shehriVideos := ayat[i].shehriVideos) == ayat[i]
  {
    seq(|ayat|, i requires 0 <= i < |ayat| => MergeAyah(table, surah, ayat[i]))
  }

  /** Merging a merged verse array again changes nothing. */
  lemma MergeAyatIdempotent(table: seq<VideoRow>, surah: Option<int>, ayat: seq<Ayah>)
    ensures MergeAyat(table, surah, MergeAyat(table, surah, ayat)) == MergeAyat(table, surah, ayat)
  {
    var merged := MergeAyat(table, surah, ayat);
    forall i | 0 <= i < |merged| ensures MergeAyah(table, surah, merged[i]) == merged[i] {
      MergeAyahIdempotent(table, surah, ayat[i]);
    }
  }

  /** Merging the first `i + 1` verses is merging the first `i` and then verse `i`. */
  lemma MergeAyatStep(table: seq<VideoRow>, surah: Option<int>, ayat: seq<Ayah>, i: nat)
    requires i < |ayat|
    ensures MergeAyat(table, surah, ayat[..i + 1]) ==
      MergeAyat(table, surah, ayat[..i]) + [MergeAyah(table, surah, ayat[i])]
  {
    var l, r := MergeAyat(table, surah, ayat[..i + 1]), MergeAyat(table, surah, ayat[..i]) + [MergeAyah(table, surah, ayat[i])];
    forall k | 0 <= k < |l| ensures l[k] == r[k] {
      assert ayat[..i + 1][k] == ayat[k];
    }
  }

  /** `videosAdded` over the verses of one document. */
  function VideosAdded(table: seq<VideoRow>, surah: Option<int>, ayat: seq<Ayah>): nat
    decreases |ayat|
  {
    if ayat == [] then 0
    else
      var a := ayat[|ayat| - 1];
      VideosAdded(table, surah, ayat[..|ayat| - 1]) + Added(Videos(a), Matching(table, surah, a))
  }

  /** Counting the first `i + 1` verses is counting the first `i` and then verse `i`. */
  lemma VideosAddedStep(table: seq<VideoRow>, surah: Option<int>, ayat: seq<Ayah>, i: nat)
    requires i < |ayat|
    ensures VideosAdded(table, surah, ayat[..i + 1]) ==
      VideosAdded(table, surah, ayat[..i]) + Added(Videos(ayat[i]), Matching(table, surah, ayat[i]))
  {
    assert ayat[..i + 1][..i] == ayat[..i];
  }

  /** Verses that no row matches add no video. */
  lemma {:induction false} NoMatchNoVideos(table: seq<VideoRow>, surah: Option<int>, ayat: seq<Ayah>)
    requires forall i :: 0 <= i < |ayat| ==> Matching(table, surah, ayat[i]) == []
    ensures VideosAdded(table, surah, ayat) == 0
    decreases |ayat|
  {
    if ayat != [] {
      var init := ayat[..|ayat| - 1];
      forall i | 0 <= i < |init| ensures Matching(table, surah, init[i]) == [] {
        assert init[i] == ayat[i];
      }
      NoMatchNoVideos(table, surah, init);
    }
  }

  /** Verses that already list every matching video add none. */
  lemma {:induction false} MergedNoVideos(table: seq<VideoRow>, surah: Option<int>, ayat: seq<Ayah>)
    ensures VideosAdded(table, surah, MergeAyat(table, surah, ayat)) == 0
    decreases |ayat|
  {
    var merged := MergeAyat(table, surah, ayat);
    if ayat != [] {
      var n := |ayat| - 1;
      assert merged[..n] == MergeAyat(table, surah, ayat[..n]);
      MergedNoVideos(table, surah, ayat[..n]);
      var a := ayat[n];
      assert Matching(table, surah, merged[n]) == Matching(table, surah, a);
      AddVideosIdempotent(Videos(a), Matching(table, surah, a));
    }
  }

  /** What the script does with one file: a malformed file throws into the `catch`, a document
      without verses is warned about; neither is written nor counted. Every other file is
      written and counted, whatever its name, unless its write throws (a name in `unwritable`):
      then it keeps its content and is not counted, but its pushes are. */
  function AddFile(table: seq<VideoRow>, unwritable: set<string>, name: string, content: FileContent): (s: Step)
    ensures s.written.Some? <==> content.Parsed? && Load(content.doc).Some? && name !in unwritable
    ensures !(content.Parsed? && Load(content.doc).Some?) ==> s == Skip
    ensures content.Parsed? && Load(content.doc).Some? ==>
      var ayat := Load(content.doc).value;
      (s.written.Some? ==> s.written.value == Store(content.doc, MergeAyat(table, SurahNumber(name), ayat))) &&
      s.tally == Tally(if name in unwritable then 0 else 1, VideosAdded(table, SurahNumber(name), ayat), 0)
  {
    if content.Malformed? || Load(content.doc).None? then Skip
    else
      var ayat := Load(content.doc).value;
      WriteBack(unwritable, name, Store(content.doc, MergeAyat(table, SurahNumber(name), ayat)),
                VideosAdded(table, SurahNumber(name), ayat), 0)
  }

  function AddStep(table: seq<VideoRow>, unwritable: set<string>): (string, FileContent) -> Step {
    (name: string, content: FileContent) => AddFile(table, unwritable, name, content)
  }

  /** A file named `index.json`, say, has a `NaN` surah number: no video matches, yet every verse
      is initialised and the file is written and counted. */
  lemma UnnumberedFileStillWritten(table: seq<VideoRow>, unwritable: set<string>, name: string, doc: Document)
    requires SurahNumber(name).None? && Load(doc).Some? && name !in unwritable
    ensures var s := AddFile(table, unwritable, name, Parsed(doc));
            var ayat := Load(doc).value;
            s.written.Some? && s.tally == Tally(1, 0, 0) &&
            forall i :: 0 <= i < |ayat| ==>
              s.written.value.ayat.value[i].shehriVideos == Some(Videos(ayat[i])) &&
              s.written.value.ayat.value[i] == InitGharib(ayat[i]).(shehriVideos := Some(Videos(ayat[i])))
  {
    var ayat := Load(doc).value;
    NoMatchNoVideos(table, None, ayat);
  }

  /** Running the script on a file it has written writes the same document again and adds no video.
      A file whose write fails was never written, so a rerun pushes (and counts) its videos again. */
  lemma RerunAddsNothing(table: seq<VideoRow>, unwritable: set<string>, name: string, c: FileContent)
    ensures var once := Outcome(c, AddFile(table, unwritable, name, c));
            Outcome(once, AddFile(table, unwritable, name, once)) == once &&
            (name !in unwritable ==> AddFile(table, unwritable, name, once).tally.added == 0)
  {
    var s := AddFile(table, unwritable, name, c);
    if s.written.Some? {
      var surah := SurahNumber(name);
      var ayat := Load(c.doc).value;
      MergeAyatIdempotent(table, surah, ayat);
      MergedNoVideos(table, surah, ayat);
      StoreLoaded(s.written.value);
    }
  }

  /** Running the script twice leaves the files as running it once, and when no listed file's
      write fails, the second run reports no video added. */
  lemma RunTwiceAddsNothing(listing: seq<string>, corpus: Corpus, table: seq<VideoRow>, unwritable: set<string>)
    requires Distinct(listing)
    ensures var once := RunFiles(JsonFiles(listing), corpus, NoTally, AddStep(table, unwritable)).0;
            var twice := RunFiles(JsonFiles(listing), once, NoTally, AddStep(table, unwritable));
            twice.0 == once &&
            ((forall f :: f in JsonFiles(listing) ==> f !in unwritable) ==> twice.1.added == 0)
  {
    var files := JsonFiles(listing);
    var step := AddStep(table, unwritable);
    var once := RunFiles(files, corpus, NoTally, step).0;
    forall f | f in files && f in corpus ensures Settles(step, f, corpus[f]) {
      RerunAddsNothing(table, unwritable, f, corpus[f]);
    }
    RunFilesIdempotent(files, corpus, NoTally, NoTally, step);
    RunFilesKeys(files, corpus, NoTally, step);
    if forall f :: f in files ==> f !in unwritable {
      forall f | f in files && f in once ensures step(f, once[f]).tally.added == 0 {
        RunFilesAt(files, corpus, NoTally, step, f);
        RerunAddsNothing(table, unwritable, f, corpus[f]);
      }
      TallyOfNoneAdded(files, once, step);
      RunFilesTally(files, once, NoTally, step);
    }
  }

  /** The de-duplication is per verse: episodes 27 and 29 share a video, and a verse 4:3
      without videos gets it from episode 27 ... */
  lemma SharedVideoAtFirstVerse(a: Ayah)
    requires a.number == 3 && a.shehriVideos.None?
    ensures Episode27.videoId == Episode29.videoId
    ensures MergeAyah(ScriptExcerpt, Some(4), a).shehriVideos == Some([Entry(Episode27)])
  {
    FilterRange(ScriptExcerpt, AtVerseOf(Some(4), 3), 3, 4);
    assert Matching(ScriptExcerpt, Some(4), a) == [Episode27];
    assert AddVideos([], [Episode27]) == AddVideos([Entry(Episode27)], []);
  }

  /** ... and a verse 75:16 without videos gets the same video from episode 29. */
  lemma SharedVideoAtSecondVerse(b: Ayah)
    requires b.number == 16 && b.shehriVideos.None?
    ensures MergeAyah(ScriptExcerpt, Some(75), b).shehriVideos == Some([Entry(Episode29)])
  {
    FilterRange(ScriptExcerpt, AtVerseOf(Some(75), 16), 5, 6);
    assert Matching(ScriptExcerpt, Some(75), b) == [Episode29];
    assert AddVideos([], [Episode29]) == AddVideos([Entry(Episode29)], []);
  }

  /** `ayah.shehri_videos.some(v => v.videoId === video.videoId)`: a scan of the array. */
  method ListsId(videos: seq<Video>, videoId: string) returns (found: bool)
    ensures found == Any(videos, SameId(videoId))
  {
    found := false;
    var i := 0;
    while i < |videos| && !found
      invariant 0 <= i <= |videos|
      invariant found <==> exists k :: 0 <= k < i && videos[k].videoId == videoId
    {
      found := videos[i].videoId == videoId;
      i := i + 1;
    }
    if found {
      var k :| 0 <= k < i && videos[k].videoId == videoId;
      assert videos[k] in videos && SameId(videoId)(videos[k]);
    } else {
      forall x | x in videos ensures !SameId(videoId)(x) {
        var k :| 0 <= k < |videos| && videos[k] == x;
      }
    }
  }

  /** One verse's `matchingVideos.forEach`: a push per row whose id is not listed yet, and
      `videosAdded++` per push. */
  method AppendVideos(videos: seq<Video>, rows: seq<VideoRow>) returns (r: seq<Video>, added: nat)
    ensures r == AddVideos(videos, rows)
    ensures added == Added(videos, rows)
  {
    r, added := videos, 0;
    var i := 0;
    while i < |rows|
      invariant 0 <= i <= |rows|
      invariant AddVideos(r, rows[i..]) == AddVideos(videos, rows)
      invariant |r| == |videos| + added
    {
      var video := rows[i];
      assert rows[i..][0] == video && rows[i..][1..] == rows[i + 1..];
      var listed := ListsId(r, video.videoId);
      if !listed {
        r := r + [Video(video.videoId, WatchUrl(video.videoId), video.title, video.word)];
        added := added + 1;
      }
      i := i + 1;
    }
  }

  /** One verse: initialise `gharib` and `shehri_videos`, find the matching rows, append. */
  method MergeVerse(table: seq<VideoRow>, surah: Option<int>, a: Ayah) returns (r: Ayah, added: nat)
    ensures r == MergeAyah(table, surah, a)
    ensures added == Added(Videos(a), Matching(table, surah, a))
  {
    r := a;
    if r.gharib.None? {
      r := r.(gharib := Some(EmptyGharib));
    }
    if r.shehriVideos.None? {
      r := r.(shehriVideos := Some([]));
    }
    var matchingVideos := Filter(table, AtVerseOf(surah, r.number));
    var videos;
    videos, added := AppendVideos(r.shehriVideos.value, matchingVideos);
    r := r.(shehriVideos := Some(videos));
  }

  /** `data.ayat.forEach(...)` over one document's verses. */
  method MergeVerses(table: seq<VideoRow>, surah: Option<int>, ayat: seq<Ayah>)
    returns (merged: seq<Ayah>, videosAdded: nat)
    ensures merged == MergeAyat(table, surah, ayat)
    ensures videosAdded == VideosAdded(table, surah, ayat)
  {
    merged, videosAdded := [], 0;
    var i := 0;
    assert ayat[..i] == [];
    while i < |ayat|
      invariant 0 <= i <= |ayat|
      invariant merged == MergeAyat(table, surah, ayat[..i])
      invariant videosAdded == VideosAdded(table, surah, ayat[..i])
    {
      var ayah, added := MergeVerse(table, surah, ayat[i]);
      VideosAddedStep(table, surah, ayat, i);
      MergeAyatStep(table, surah, ayat, i);
      videosAdded := videosAdded + added;
      merged := merged + [ayah];
      i := i + 1;
    }
    assert ayat[..i] == ayat;
  }

  /** One file: skip a malformed file or one without verses; otherwise merge and write back
      unless the write throws. */
  method ProcessFile(table: seq<VideoRow>, unwritable: set<string>, file: string, content: FileContent) returns (s: Step)
    ensures s == AddFile(table, unwritable, file, content)
  {
    var surahNumber := SurahNumber(file);
    if content.Malformed? {
      return Skip;
    }
    var data := content.doc;
    var ayat := Load(data);
    if ayat.None? {
      return Skip;
    }
    var merged, videosAdded := MergeVerses(table, surahNumber, ayat.value);
    if file in unwritable {
      s := Step(None, Tally(0, videosAdded, 0));
    } else {
      s := Step(Some(Store(data, merged)), Tally(1, videosAdded, 0));
    }
  }

  /** The whole script: returns the rewritten files and the two counters. */
  method AddGharibToAllSurahs(listing: seq<string>, corpus: Corpus, table: seq<VideoRow>, unwritable: set<string>)
    returns (result: Corpus, processedCount: nat, videosAdded: nat)
    ensures (result, Tally(processedCount, videosAdded, 0)) ==
      RunFiles(JsonFiles(listing), corpus, NoTally, AddStep(table, unwritable))
  {
    var files := JsonFiles(listing);
    var counts := NoTally;
    result := corpus;
    var i := 0;
    assert files[i..] == files;
    while i < |files|
      invariant 0 <= i <= |files|
      invariant counts.verses == 0
      invariant RunFiles(files[i..], result, counts, AddStep(table, unwritable)) == RunFiles(files, corpus, NoTally, AddStep(table, unwritable))
    {
      var file := files[i];
      if file in result {
        var s := ProcessFile(table, unwritable, file, result[file]);
        RunFilesVisit(files, i, result, counts, AddStep(table, unwritable), s);
        result := result[file := Outcome(result[file], s)];
        counts := counts.Plus(s.tally);
      } else {
        RunFilesPass(files, i, result, counts, AddStep(table, unwritable));
      }
      i := i + 1;
    }
    processedCount, videosAdded := counts.processed, counts.added;
  }
}
