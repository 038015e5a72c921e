/** The rare-word reference tables (`gharibQuranExtended`, `gharibQuranDatabase`) and their
    two lookups, `getGharibForVerse` and `getGharibForSurah`. Both modules of the source
    define the same two `filter` expressions over their own table; here the table is a parameter. */
module GharibTables {

  import opened Seqs

  /** One table row: a rare word of verse `surah:verse` and its gloss in each reference. */
  datatype GharibRow = GharibRow(surah: int, verse: int, word: string, muyassar: string, siraj: string)

  function AtSurah(surah: int): GharibRow -> bool {
    (g: GharibRow) => g.surah == surah
  }

  function AtVerse(surah: int, verse: int): GharibRow -> bool {
    (g: GharibRow) => g.surah == surah && g.verse == verse
  }

  function VerseIs(verse: int): GharibRow -> bool {
    (g: GharibRow) => g.verse == verse
  }

  /** `getGharibForVerse(surah, verse)`: exactly the rows of that verse, in table order. */
  function GetGharibForVerse(table: seq<GharibRow>, surah: int, verse: int): (rows: seq<GharibRow>)
    ensures forall g :: g in rows <==> g in table && g.surah == surah && g.verse == verse
    ensures IsSubseq(rows, table)
    ensures forall g :: multiset(rows)[g] == if g.surah == surah && g.verse == verse then multiset(table)[g] else 0
  {
    FilterMultiset(table, AtVerse(surah, verse));
    Filter(table, AtVerse(surah, verse))
  }

  /** `getGharibForSurah(surah)`: exactly the rows of that surah, in table order; nothing for a
      surah the table does not cover. */
  function GetGharibForSurah(table: seq<GharibRow>, surah: int): (rows: seq<GharibRow>)
    ensures forall g :: g in rows <==> g in table && g.surah == surah
    ensures IsSubseq(rows, table)
    ensures forall g :: multiset(rows)[g] == if g.surah == surah then multiset(table)[g] else 0
    ensures (forall g :: g in table ==> g.surah != surah) ==> rows == []
  {
    FilterMultiset(table, AtSurah(surah));
    var r := Filter(table, AtSurah(surah));
    assert r != [] ==> r[0] in r;
    r
  }

  /** The verse lookup is the surah lookup narrowed to the verse, so it is contained in it, in order. */
  lemma VerseWithinSurah(table: seq<GharibRow>, surah: int, verse: int)
    ensures GetGharibForVerse(table, surah, verse) == Filter(GetGharibForSurah(table, surah), VerseIs(verse))
    ensures IsSubseq(GetGharibForVerse(table, surah, verse), GetGharibForSurah(table, surah))
  {
    FilterFilter(table, AtSurah(surah), VerseIs(verse), AtVerse(surah, verse));
  }

  /** The source's tables only hold surah numbers of the Quran's 114 surahs. */
  predicate SurahsInRange(table: seq<GharibRow>) {
    forall i :: 0 <= i < |table| ==> 1 <= table[i].surah <= 114
  }

  /** An excerpt of `gharibQuranExtended` (rows of 1:1, 3:7, 4:3, 5:3, 78:1 and 114:1). */
  const ExtendedExcerpt: seq<GharibRow> := [
    Extended1v1, Extended3v7a, Extended3v7b, Extended4v3, Extended5v3a, Extended5v3b, Extended5v3c,
    Extended78v1, Extended114v1
  ]

  const Extended1v1 := GharibRow(1, 1, "الحمد", "الشكر والثناء", "الثناء الجميل على الإنعام")
  const Extended3v7a := GharibRow(3, 7, "محكمات", "واضحات المعنى", "الآيات الواضحة الدلالة")
  const Extended3v7b := GharibRow(3, 7, "متشابهات", "متشابهة الألفاظ", "الآيات التي تحتاج إلى تفسير")
  const Extended4v3 := GharibRow(4, 3, "قسمة ضيزى", "قسمة جائرة", "قسمة ظالمة غير عادلة")
  const Extended5v3a := GharibRow(5, 3, "ميتة", "ما مات بغير ذكاة", "ما مات حتف أنفه")
  const Extended5v3b := GharibRow(5, 3, "دم", "المسفوح", "الدم المصبوب")
  const Extended5v3c := GharibRow(5, 3, "خنزير", "الحيوان المحرم", "حيوان نجس محرم الأكل")
  const Extended78v1 := GharibRow(78, 1, "عَمَّ", "عن أي شيء", "استفهام للتفخيم")
  const Extended114v1 := GharibRow(114, 1, "الناس", "البشر", "جميع الناس")

  /** An excerpt of `gharibQuranDatabase`, which covers only surahs 1, 2, 78 and 96. */
  const DatabaseExcerpt: seq<GharibRow> := [Database1v1, Database78v1, Database78v34, Database96v19]

  const Database1v1 := GharibRow(1, 1, "الحمد", "الشكر والثناء", "الثناء الجميل على الإنعام")
  const Database78v1 := GharibRow(78, 1, "عَمَّ", "عن أي شيء", "استفهام للتفخيم والتعظيم")
  const Database78v34 := GharibRow(78, 34, "دِهَاقًا", "مملوءة", "كأسًا مملوءة")
  const Database96v19 := GharibRow(96, 19, "كَلَّا", "حقاً", "حقاً وتأكيداً")

  /** Every excerpted row names one of the 114 surahs. */
  lemma ExtendedSurahsInRange()
    ensures SurahsInRange(ExtendedExcerpt)
  {
  }

  /** `(surah, verse)` is not a key: verse 3:7 has two rows and the lookup returns both, in order. */
  lemma ExtendedTwoRowVerse()
    ensures GetGharibForVerse(ExtendedExcerpt, 3, 7) == ExtendedExcerpt[1..3]
  {
    FilterRange(ExtendedExcerpt, AtVerse(3, 7), 1, 3);
  }

  /** Verse 5:3 has three rows, and the lookup returns all three, in order. */
  lemma ExtendedThreeRowVerse()
    ensures GetGharibForVerse(ExtendedExcerpt, 5, 3) == ExtendedExcerpt[4..7]
  {
    FilterRange(ExtendedExcerpt, AtVerse(5, 3), 4, 7);
  }

  /** The database rows of verses 78:1 and 78:34. */
  lemma DatabaseRows()
    ensures GetGharibForVerse(DatabaseExcerpt, 78, 1) == [DatabaseExcerpt[1]]
    ensures GetGharibForVerse(DatabaseExcerpt, 78, 34) == [DatabaseExcerpt[2]]
  {
    FilterRange(DatabaseExcerpt, AtVerse(78, 1), 1, 2);
    FilterRange(DatabaseExcerpt, AtVerse(78, 34), 2, 3);
  }

  /** A surah the database does not cover yields nothing. */
  lemma DatabaseUncoveredSurah()
    ensures SurahsInRange(DatabaseExcerpt)
    ensures GetGharibForSurah(DatabaseExcerpt, 3) == []
  {
  }
}
