/** `client/src/hooks/useExportAyahs.ts`: the text the CSV, JSON and TXT exports of saved verses
    put in their download. The CSV and JSON contents are built by `map` and `join`; the TXT content
    is accumulated line by line in a loop. */
module ExportAyahs {

  import opened Wrappers
  import opened Text
  import opened SavedAyahs

  /** `ayah.translations?.en || ''` and its French and Spanish twins. */
  function En(a: SavedAyah): string {
    if a.translations.Some? then a.translations.value.en else ""
  }

  function Fr(a: SavedAyah): string {
    if a.translations.Some? then a.translations.value.fr else ""
  }

  function Es(a: SavedAyah): string {
    if a.translations.Some? then a.translations.value.es else ""
  }

  /** None of the verse's own texts contains `c`. */
  predicate FieldsAvoid(a: SavedAyah, c: char) {
    c !in a.surahName && c !in a.text && c !in En(a) && c !in Fr(a) && c !in Es(a)
  }

  // CSV

  const CsvHeaders: seq<string> :=
    ["السورة", "رقم الآية", "النص", "الترجمة الإنجليزية", "الترجمة الفرنسية", "الترجمة الإسبانية"]

  /** `"${s}"`: wrapped in double quotes, with no escaping. */
  function Quoted(s: string): string {
    "\"" + s + "\""
  }

  /** One CSV row before joining. */
  function CsvCells(a: SavedAyah): seq<string> {
    [a.surahName, Decimal(a.ayahNumber), Quoted(a.text), Quoted(En(a)), Quoted(Fr(a)), Quoted(Es(a))]
  }

  function CsvRow(a: SavedAyah): string {
    Join(CsvCells(a), ",")
  }

  /** `[headers.join(','), ...rows.map(row => row.join(','))].join('\n')`. */
  function CsvContent(ayahs: seq<SavedAyah>): string {
    Join([Join(CsvHeaders, ",")] + seq(|ayahs|, i requires 0 <= i < |ayahs| => CsvRow(ayahs[i])), "\n")
  }

  /** A character that no field, no digit, no sign and neither `"` nor `,` is stays out of a row. */
  lemma RowAvoids(a: SavedAyah, c: char)
    requires FieldsAvoid(a, c) && c != '"' && c != ',' && c != '-' && DigitValue(c, 10).None?
    ensures c !in CsvRow(a)
  {
    DecimalAvoids(a.ayahNumber, c);
    JoinAvoids(CsvCells(a), ",", c);
  }

  lemma HeadersAvoid(c: char)
    requires c == '\n' || c == ','
    ensures forall i :: 0 <= i < |CsvHeaders| ==> c !in CsvHeaders[i]
  {
  }

  /** The CSV has the header line and then one line per verse, in input order, when no field
      holds a line break. */
  lemma CsvLines(ayahs: seq<SavedAyah>)
    requires forall i :: 0 <= i < |ayahs| ==> FieldsAvoid(ayahs[i], '\n')
    ensures var lines := Split(CsvContent(ayahs), '\n');
            |lines| == |ayahs| + 1 && lines[0] == Join(CsvHeaders, ",") &&
            forall i :: 0 <= i < |ayahs| ==> lines[i + 1] == CsvRow(ayahs[i])
  {
    var lines := [Join(CsvHeaders, ",")] + seq(|ayahs|, i requires 0 <= i < |ayahs| => CsvRow(ayahs[i]));
    forall i | 0 <= i < |lines| ensures '\n' !in lines[i] {
      if i == 0 {
        HeadersAvoid('\n');
        JoinAvoids(CsvHeaders, ",", '\n');
      } else {
        RowAvoids(ayahs[i - 1], '\n');
      }
    }
    SplitJoin(lines, '\n');
  }

  /** The header line splits into the six headers. */
  lemma CsvHeaderCells()
    ensures Split(Join(CsvHeaders, ","), ',') == CsvHeaders && |CsvHeaders| == 6
  {
    HeadersAvoid(',');
    SplitJoin(CsvHeaders, ',');
  }

  /** A row splits into its six cells when no field holds a comma: the name, the verse number,
      and the text and the three translations, each in double quotes, a missing translation
      becoming `""`. */
  lemma CsvRowCells(a: SavedAyah)
    requires FieldsAvoid(a, ',')
    ensures Split(CsvRow(a), ',') == CsvCells(a)
    ensures a.translations.None? ==> CsvCells(a)[3..] == ["\"\"", "\"\"", "\"\""]
  {
    DecimalAvoids(a.ayahNumber, ',');
    SplitJoin(CsvCells(a), ',');
    assert Quoted("") == "\"\"";
  }

  // JSON

  /** The object `exportToJSON` serialises. */
  datatype ExportPayload = ExportPayload(exportDate: string, totalAyahs: int, ayahs: seq<SavedAyah>)

  /** `{ exportDate, totalAyahs: ayahs.length, ayahs }`, the date text given. */
  function JsonPayload(ayahs: seq<SavedAyah>, exportDate: string): (p: ExportPayload)
    ensures p.ayahs == ayahs && p.totalAyahs == |p.ayahs| && p.exportDate == exportDate
  {
    ExportPayload(exportDate, |ayahs|, ayahs)
  }

  // TXT

  const TxtTitle: string := "الآيات المحفوظة من تطبيق رؤى قرآنية"
  const DateLabel: string := "تاريخ التصدير: "
  const CountLabel: string := "عدد الآيات: "

  /** `سورة ${surahName} - الآية ${ayahNumber}`. */
  function Heading(a: SavedAyah): string {
    "سورة " + a.surahName + " - الآية " + Decimal(a.ayahNumber)
  }

  /** The lines each `content +=` of the header writes, given the locale's rendering of the date:
      the title, the date, the count, and the 80-character `=` rule followed by an empty line. */
  function HeaderGroups(date: string, count: nat): seq<seq<string>> {
    [[TxtTitle], [DateLabel + date], [CountLabel + Decimal(count)], [Rule('=', 80), ""]]
  }

  /** `EN: ${en}` and its twins, written only for a non-empty translation. */
  function TranslationGroups(tag: string, s: string): seq<seq<string>> {
    if s != "" then [[tag + ": " + s]] else []
  }

  /** The lines each `content +=` of one verse writes: its heading, its text, the non-empty
      translations, and the 80-character `-` separator between empty lines. */
  function BlockGroups(a: SavedAyah): seq<seq<string>> {
    [[Heading(a)], [a.text]] + TranslationGroups("EN", En(a)) + TranslationGroups("FR", Fr(a))
      + TranslationGroups("ES", Es(a)) + [["", Rule('-', 80), ""]]
  }

  function AllBlockGroups(ayahs: seq<SavedAyah>): seq<seq<string>>
    decreases |ayahs|
  {
    if ayahs == [] then [] else AllBlockGroups(ayahs[..|ayahs| - 1]) + BlockGroups(ayahs[|ayahs| - 1])
  }

  /** The content of the TXT export. */
  function TxtContent(ayahs: seq<SavedAyah>, date: string): string {
    Paragraphs(HeaderGroups(date, |ayahs|) + AllBlockGroups(ayahs))
  }

  /** `content +=` for one verse's translation: nothing for an empty one. */
  lemma AddTranslation(gs: seq<seq<string>>, tag: string, s: string)
    ensures Paragraphs(gs + TranslationGroups(tag, s)) ==
      if s != "" then Paragraphs(gs) + (tag + ": " + s + "\n") else Paragraphs(gs)
  {
    if s != "" {
      AddLine(gs, tag + ": " + s);
    } else {
      assert gs + [] == gs;
    }
  }

  lemma BlockOrder<T>(g: seq<T>, h: T, t: T, en: seq<T>, fr: seq<T>, es: seq<T>, sep: T)
    ensures g + [h] + [t] + en + fr + es + [sep] == g + ([h, t] + en + fr + es + [sep])
  {
  }

  lemma HeaderOrder<T>(a: T, b: T, c: T, d: T)
    ensures [] + [a] + [b] + [c] + [d] == [a, b, c, d]
  {
  }

  /** `content +=` for one translation line, skipped when the translation is empty. */
  method AppendTranslation(content: string, ghost groups: seq<seq<string>>, tag: string, s: string)
    returns (r: string, ghost groups': seq<seq<string>>)
    requires content == Paragraphs(groups)
    ensures r == Paragraphs(groups') && groups' == groups + TranslationGroups(tag, s)
  {
    AddTranslation(groups, tag, s);
    r, groups' := content, groups + TranslationGroups(tag, s);
    if s != "" {
      r := r + (tag + ": " + s + "\n");
    }
  }

  /** `content +=` for one verse, in the order of the template. */
  method AppendBlock(content: string, ghost groups: seq<seq<string>>, ayah: SavedAyah)
    returns (r: string, ghost groups': seq<seq<string>>)
    requires content == Paragraphs(groups)
    ensures r == Paragraphs(groups') && groups' == groups + BlockGroups(ayah)
  {
    var heading, rule := Heading(ayah), Rule('-', 80);
    AddLine(groups, heading);
    r, groups' := content + (heading + "\n"), groups + [[heading]];
    AddLine(groups', ayah.text);
    r, groups' := r + (ayah.text + "\n"), groups' + [[ayah.text]];
    r, groups' := AppendTranslation(r, groups', "EN", En(ayah));
    r, groups' := AppendTranslation(r, groups', "FR", Fr(ayah));
    r, groups' := AppendTranslation(r, groups', "ES", Es(ayah));
    AddBetweenEmpty(groups', rule);
    r, groups' := r + ("\n" + rule + "\n\n"), groups' + [["", rule, ""]];
    BlockOrder(groups, [heading], [ayah.text], TranslationGroups("EN", En(ayah)), TranslationGroups("FR", Fr(ayah)),
               TranslationGroups("ES", Es(ayah)), ["", rule, ""]);
  }

  /** The header `exportToTXT` writes before the verses. */
  method AppendHeader(date: string, count: nat) returns (content: string, ghost groups: seq<seq<string>>)
    ensures content == Paragraphs(groups) && groups == HeaderGroups(date, count)
  {
    var title, dateLine, countLine, rule := TxtTitle, DateLabel + date, CountLabel + Decimal(count), Rule('=', 80);
    AddLine([], title);
    content, groups := "" + (title + "\n"), [] + [[title]];
    AddLine(groups, dateLine);
    content, groups := content + (dateLine + "\n"), groups + [[dateLine]];
    AddLine(groups, countLine);
    content, groups := content + (countLine + "\n"), groups + [[countLine]];
    AddLineThenEmpty(groups, rule);
    content, groups := content + (rule + "\n\n"), groups + [[rule, ""]];
    HeaderOrder([title], [dateLine], [countLine], [rule, ""]);
  }

  /** The content `exportToTXT` accumulates, the date text given. */
  method ExportToTxt(ayahs: seq<SavedAyah>, date: string) returns (content: string)
    ensures content == TxtContent(ayahs, date)
  {
    ghost var groups;
    content, groups := AppendHeader(date, |ayahs|);
    var i := 0;
    assert ayahs[..i] == [];
    assert groups + [] == groups;
    while i < |ayahs|
      invariant 0 <= i <= |ayahs|
      invariant content == Paragraphs(groups)
      invariant groups == HeaderGroups(date, |ayahs|) + AllBlockGroups(ayahs[..i])
    {
      content, groups := AppendBlock(content, groups, ayahs[i]);
      AllBlockGroupsSnoc(ayahs, i);
      i := i + 1;
    }
    assert ayahs[..i] == ayahs;
  }

  lemma AllBlockGroupsSnoc(ayahs: seq<SavedAyah>, i: nat)
    requires i < |ayahs|
    ensures forall hs :: (hs + AllBlockGroups(ayahs[..i])) + BlockGroups(ayahs[i]) == hs + AllBlockGroups(ayahs[..i + 1])
  {
    assert ayahs[..i + 1][..i] == ayahs[..i];
  }

  function TranslationLines(tag: string, s: string): seq<string> {
    if s != "" then [tag + ": " + s] else []
  }

  /** The lines of one verse's block, as a reader of the file sees them. */
  function BlockLines(a: SavedAyah): seq<string> {
    [Heading(a), a.text] + TranslationLines("EN", En(a)) + TranslationLines("FR", Fr(a))
      + TranslationLines("ES", Es(a)) + ["", Rule('-', 80), ""]
  }

  function AllBlockLines(ayahs: seq<SavedAyah>): seq<string>
    decreases |ayahs|
  {
    if ayahs == [] then [] else AllBlockLines(ayahs[..|ayahs| - 1]) + BlockLines(ayahs[|ayahs| - 1])
  }

  lemma FlatOne(g: seq<string>)
    ensures Flat([g]) == g
  {
    assert [g][..0] == [];
  }

  lemma TranslationGroupLines(tag: string, s: string)
    ensures Flat(TranslationGroups(tag, s)) == TranslationLines(tag, s)
  {
    if s != "" {
      FlatOne([tag + ": " + s]);
    }
  }

  lemma FlatFive(a: seq<seq<string>>, b: seq<seq<string>>, c: seq<seq<string>>, d: seq<seq<string>>, e: seq<seq<string>>)
    ensures Flat(a + b + c + d + e) == Flat(a) + Flat(b) + Flat(c) + Flat(d) + Flat(e)
  {
    FlatAppend(a + b + c + d, e);
    FlatAppend(a + b + c, d);
    FlatAppend(a + b, c);
    FlatAppend(a, b);
  }

  lemma FlatTwo(x: string, y: string)
    ensures Flat([[x], [y]]) == [x, y]
  {
    FlatOne([x]);
    ParagraphsSnoc([[x]], [y]);
    assert [[x]] + [[y]] == [[x], [y]];
  }

  lemma BlockGroupLines(a: SavedAyah)
    ensures Flat(BlockGroups(a)) == BlockLines(a)
  {
    FlatFive([[Heading(a)], [a.text]], TranslationGroups("EN", En(a)), TranslationGroups("FR", Fr(a)),
             TranslationGroups("ES", Es(a)), [["", Rule('-', 80), ""]]);
    FlatTwo(Heading(a), a.text);
    FlatOne(["", Rule('-', 80), ""]);
    TranslationGroupLines("EN", En(a));
    TranslationGroupLines("FR", Fr(a));
    TranslationGroupLines("ES", Es(a));
  }

  lemma {:induction false} AllBlockGroupLines(ayahs: seq<SavedAyah>)
    ensures Flat(AllBlockGroups(ayahs)) == AllBlockLines(ayahs)
    decreases |ayahs|
  {
    if ayahs != [] {
      var init, last := ayahs[..|ayahs| - 1], ayahs[|ayahs| - 1];
      AllBlockGroupLines(init);
      FlatAppend(AllBlockGroups(init), BlockGroups(last));
      BlockGroupLines(last);
    }
  }

  lemma FlatFour(a: seq<string>, b: seq<string>, c: seq<string>, d: seq<string>)
    ensures Flat([a, b, c, d]) == a + b + c + d
  {
    FlatOne(a);
    ParagraphsSnoc([a], b);
    assert [a] + [b] == [a, b];
    ParagraphsSnoc([a, b], c);
    assert [a, b] + [c] == [a, b, c];
    ParagraphsSnoc([a, b, c], d);
    assert [a, b, c] + [d] == [a, b, c, d];
  }

  /** The header's lines: the title, the date, the number of verses, the 80-character `=` rule
      and an empty line. */
  lemma HeaderGroupLines(date: string, count: nat)
    ensures Flat(HeaderGroups(date, count)) == [TxtTitle, DateLabel + date, CountLabel + Decimal(count), Rule('=', 80), ""]
  {
    FlatFour([TxtTitle], [DateLabel + date], [CountLabel + Decimal(count)], [Rule('=', 80), ""]);
  }

  lemma HeaderAvoids(date: string, count: nat)
    requires '\n' !in date
    ensures LinesAvoid(HeaderGroups(date, count), '\n')
  {
    DecimalAvoids(count, '\n');
  }

  lemma BlockAvoids(a: SavedAyah)
    requires FieldsAvoid(a, '\n')
    ensures LinesAvoid(BlockGroups(a), '\n')
  {
    DecimalAvoids(a.ayahNumber, '\n');
    var p0 := [[Heading(a)], [a.text]];
    var en, fr, es := TranslationGroups("EN", En(a)), TranslationGroups("FR", Fr(a)), TranslationGroups("ES", Es(a));
    var sep := [["", Rule('-', 80), ""]];
    LinesAvoidAppend(p0, en, '\n');
    LinesAvoidAppend(p0 + en, fr, '\n');
    LinesAvoidAppend(p0 + en + fr, es, '\n');
    LinesAvoidAppend(p0 + en + fr + es, sep, '\n');
  }

  lemma {:induction false} BlocksAvoid(ayahs: seq<SavedAyah>)
    requires forall i :: 0 <= i < |ayahs| ==> FieldsAvoid(ayahs[i], '\n')
    ensures LinesAvoid(AllBlockGroups(ayahs), '\n')
    decreases |ayahs|
  {
    if ayahs != [] {
      var init, last := ayahs[..|ayahs| - 1], ayahs[|ayahs| - 1];
      assert forall i :: 0 <= i < |init| ==> init[i] == ayahs[i];
      BlocksAvoid(init);
      BlockAvoids(last);
      LinesAvoidAppend(AllBlockGroups(init), BlockGroups(last), '\n');
    }
  }

  /** Read back line by line, the TXT content is the title, the export date, the number of
      verses, the 80-character `=` rule and an empty line, then each verse's block in input
      order, when neither the date nor any field holds a line break. */
  lemma TxtLinesRead(ayahs: seq<SavedAyah>, date: string)
    requires '\n' !in date
    requires forall i :: 0 <= i < |ayahs| ==> FieldsAvoid(ayahs[i], '\n')
    ensures Split(TxtContent(ayahs, date), '\n') ==
      [TxtTitle, DateLabel + date, CountLabel + Decimal(|ayahs|), Rule('=', 80), ""] + AllBlockLines(ayahs) + [""]
  {
    var hs, bs := HeaderGroups(date, |ayahs|), AllBlockGroups(ayahs);
    HeaderAvoids(date, |ayahs|);
    BlocksAvoid(ayahs);
    LinesAvoidAppend(hs, bs, '\n');
    ParagraphsRead(hs + bs);
    FlatAppend(hs, bs);
    HeaderGroupLines(date, |ayahs|);
    AllBlockGroupLines(ayahs);
  }
}
