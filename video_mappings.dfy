/** `client/src/data/video-mappings.ts`: the verse-to-video table of the "Ghareeb Al-Quran" series
    and its three lookups. The table is a parameter; `ClientExcerpt` holds some of its rows. */
module VideoMappings {

  import opened Wrappers
  import opened Seqs

  /** A `VideoMapping`; `playlistUrl` is optional. */
  datatype VideoMapping = VideoMapping(
    surah: int,
    verse: int,
    word: string,
    videoTitle: string,
    videoId: string,
    episodeNumber: int,
    playlistUrl: Option<string>)

  function AtVerse(surah: int, verse: int): VideoMapping -> bool {
    (m: VideoMapping) => m.surah == surah && m.verse == verse
  }

  function InSurah(surah: int): VideoMapping -> bool {
    (m: VideoMapping) => m.surah == surah
  }

  /** `getVideoForVerse(surah, verse)`: `videoMappings.find(...)`. */
  function GetVideoForVerse(table: seq<VideoMapping>, surah: int, verse: int): (r: Option<VideoMapping>)
    ensures r.Some? ==> r.value in table && r.value.surah == surah && r.value.verse == verse
    ensures r.None? <==> forall m :: m in table ==> !(m.surah == surah && m.verse == verse)
  {
    Find(table, AtVerse(surah, verse))
  }

  /** `hasVideo(surah, verse)`: `videoMappings.some(...)`. */
  function HasVideo(table: seq<VideoMapping>, surah: int, verse: int): (b: bool)
    ensures b <==> exists m :: m in table && m.surah == surah && m.verse == verse
  {
    Any(table, AtVerse(surah, verse))
  }

  /** `getVersesByVideoInSurah(surah)`: `videoMappings.filter(...)`. */
  function GetVersesByVideoInSurah(table: seq<VideoMapping>, surah: int): (r: seq<VideoMapping>)
    ensures forall m :: m in r <==> m in table && m.surah == surah
    ensures IsSubseq(r, table)
    ensures forall m :: multiset(r)[m] == if m.surah == surah then multiset(table)[m] else 0
  {
    FilterMultiset(table, InSurah(surah));
    Filter(table, InSurah(surah))
  }

  /** The lookup returns the first row of the verse in table order, and nothing when the verse
      has no row. */
  lemma FirstMappingWins(table: seq<VideoMapping>, surah: int, verse: int)
    ensures var r := GetVideoForVerse(table, surah, verse);
            (r.None? <==> forall i :: 0 <= i < |table| ==> !AtVerse(surah, verse)(table[i])) &&
            (r.Some? ==>
               r.value.surah == surah && r.value.verse == verse &&
               exists i :: 0 <= i < |table| && table[i] == r.value &&
                 (forall j :: 0 <= j < i ==> !(table[j].surah == surah && table[j].verse == verse)))
  {
    var r := GetVideoForVerse(table, surah, verse);
    var i := FindIndex(table, AtVerse(surah, verse));
    if r.Some? {
      assert table[i] == r.value && AtVerse(surah, verse)(table[i]);
    } else {
      forall k | 0 <= k < |table| ensures !AtVerse(surah, verse)(table[k]) {
        assert table[k] in table;
      }
    }
  }

  /** `hasVideo` holds exactly when `getVideoForVerse` finds a row. */
  lemma HasVideoIffFound(table: seq<VideoMapping>, surah: int, verse: int)
    ensures HasVideo(table, surah, verse) <==> GetVideoForVerse(table, surah, verse).Some?
  {
  }

  /** The surah lookup returns exactly that surah's rows, in table order. */
  lemma SurahRows(table: seq<VideoMapping>, surah: int)
    ensures forall m :: m in GetVersesByVideoInSurah(table, surah) <==> m in table && m.surah == surah
    ensures IsSubseq(GetVersesByVideoInSurah(table, surah), table)
  {
  }

  /** A row found for a verse is among the rows of its surah. */
  lemma FoundIsListed(table: seq<VideoMapping>, surah: int, verse: int)
    requires GetVideoForVerse(table, surah, verse).Some?
    ensures GetVideoForVerse(table, surah, verse).value in GetVersesByVideoInSurah(table, surah)
  {
    var m := GetVideoForVerse(table, surah, verse).value;
    assert m in table && AtVerse(surah, verse)(m);
  }

  /** Some rows of `videoMappings` (episodes 1, 9, 18, 22, 27, 28, 29 and 30). */
  const ClientExcerpt: seq<VideoMapping> := [Episode1, Episode9, Episode18, Episode22, Episode27, Episode28, Episode29, Episode30]

  const Playlist: string := "https://www.youtube.com/playlist?list=PLoslTfCHb8N9D8iXwxV88DCY3Fic7kd97"

  const Episode1 := VideoMapping(80, 1, "عبس", "برنامج ( غريب القرآن ) || الحلقة 01 - { غثاءً أحوى}", "b7MEB7iOSfI", 1, Some(Playlist))
  const Episode9 := VideoMapping(78, 24, "ماءً ثجاجًا", "برنامج ( غريب القرآن ) || الحلقة 09 - { ماءً ثجاجًا }", "7n-2DSPb8a4", 9, None)
  const Episode18 := VideoMapping(78, 34, "دِهَاقًا", "برنامج ( غريب القرآن ) || الحلقة 18 - { و كأسًا دهاقًا }", "bnNG9D3hZSo", 18, None)
  const Episode22 := VideoMapping(75, 24, "وجوه يومئذ باسرة", "برنامج ( غريب القرآن ) || الحلقة 22 - { وجوه يومئذ باسرة }", "vREEv0mjxFI", 22, None)
  const Episode27 := VideoMapping(4, 3, "قسمة ضيزى", "برنامج ( غريب القرآن ) || الحلقة 27 - { قسمة ضيزى }", "zODfN7wICGQ", 27, None)
  const Episode28 := VideoMapping(16, 71, "أولي النعمة", "برنامج ( غريب القرآن ) || الحلقة 28 - { أولي النعمة }", "Ut-Zkxd6MPQ", 28, None)
  const Episode29 := VideoMapping(75, 16, "مهطعين", "برنامج ( غريب القرآن ) || الحلقة 29 - { مهطعين } ، { عزين }", "zODfN7wICGQ", 29, None)
  const Episode30 := VideoMapping(12, 80, "وشددنا أسرهم", "برنامج ( غريب القرآن ) || الحلقة 30 - { وشددنا أسرهم }", "Ut-Zkxd6MPQ", 30, None)

  /** `videoId` is not a key: verses 4:3 and 75:16 both map to video `zODfN7wICGQ`. */
  lemma VideoIdNotUnique()
    ensures GetVideoForVerse(ClientExcerpt, 4, 3) == Some(Episode27)
    ensures GetVideoForVerse(ClientExcerpt, 75, 16) == Some(Episode29)
    ensures Episode27.videoId == Episode29.videoId && Episode27.surah != Episode29.surah
  {
    FindIndexAt(ClientExcerpt, AtVerse(4, 3), 4);
    FindIndexAt(ClientExcerpt, AtVerse(75, 16), 6);
  }

  /** The surah lookup keeps table order, not verse order: 75:24 comes before 75:16. */
  lemma SurahRowsInTableOrder()
    ensures GetVersesByVideoInSurah(ClientExcerpt, 75) == [Episode22, Episode29]
  {
    var t := ClientExcerpt;
    assert t == t[..4] + t[4..];
    FilterAppend(t[..4], t[4..], InSurah(75));
    HeadRowsOfSurah75();
    TailRowsOfSurah75();
  }

  lemma HeadRowsOfSurah75()
    ensures Filter(ClientExcerpt[..4], InSurah(75)) == [Episode22]
  {
    FilterRange(ClientExcerpt[..4], InSurah(75), 3, 4);
  }

  lemma TailRowsOfSurah75()
    ensures Filter(ClientExcerpt[4..], InSurah(75)) == [Episode29]
  {
    FilterRange(ClientExcerpt[4..], InSurah(75), 2, 3);
  }
}
