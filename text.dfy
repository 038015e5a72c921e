/** String operations the source relies on: `String(n)` for integers, `parseInt`, `join`, `split`, `repeat`. */
module Text {

  import opened Wrappers

  /** The character of a decimal digit. */
  function DigitChar(d: nat): char
    requires d < 10
  {
    "0123456789"[d]
  }

  /** The decimal digits of `n`, most significant first, without leading zeros. */
  function NatDigits(n: nat): (s: string)
    ensures |s| > 0
    decreases n
  {
    if n < 10 then [DigitChar(n)] else NatDigits(n / 10) + [DigitChar(n % 10)]
  }

  /** `String(n)` / template interpolation of an integer-valued JavaScript number. */
  function Decimal(n: int): string {
    if n < 0 then ['-'] + NatDigits(-n) else NatDigits(n)
  }

  /** StrWhiteSpaceChar of ECMAScript: the characters `parseInt` skips at the start. */
  predicate IsStrWhiteSpace(c: char) {
    c == ' ' || c == '\t' || c == '\n' || c == '\r' || c == '\U{000B}' || c == '\U{000C}'
    || c == '\U{00A0}' || c == '\U{FEFF}' || c == '\U{1680}' || ('\U{2000}' <= c <= '\U{200A}')
    || c == '\U{2028}' || c == '\U{2029}' || c == '\U{202F}' || c == '\U{205F}' || c == '\U{3000}'
  }

  /** `s` without its leading white space. */
  function TrimStart(s: string): (r: string)
    ensures |r| <= |s| && r == s[|s| - |r|..]
    ensures r == [] || !IsStrWhiteSpace(r[0])
    decreases |s|
  {
    if s != [] && IsStrWhiteSpace(s[0]) then TrimStart(s[1..]) else s
  }

  /** The value of `c` as a digit in base `radix` (10 or 16), if it is one. */
  function DigitValue(c: char, radix: nat): Option<nat> {
    var v: int :=
      if '0' <= c <= '9' then c as int - '0' as int
      else if 'a' <= c <= 'z' then c as int - 'a' as int + 10
      else if 'A' <= c <= 'Z' then c as int - 'A' as int + 10
      else radix;
    if v < radix then Some(v) else None
  }

  predicate AllDigits(s: string, radix: nat) {
    forall i :: 0 <= i < |s| ==> DigitValue(s[i], radix).Some?
  }

  /** The length of the longest prefix of `s` made of base-`radix` digits. */
  function DigitPrefixLength(s: string, radix: nat): (k: nat)
    ensures k <= |s| && AllDigits(s[..k], radix)
    ensures k < |s| ==> DigitValue(s[k], radix).None?
    decreases |s|
  {
    if s == [] || DigitValue(s[0], radix).None? then 0
    else 1 + DigitPrefixLength(s[1..], radix)
  }

  /** The number a string of base-`radix` digits denotes. */
  function DigitsValue(s: string, radix: nat): nat
    requires AllDigits(s, radix)
    decreases |s|
  {
    if s == [] then 0
    else DigitsValue(s[..|s| - 1], radix) * radix + DigitValue(s[|s| - 1], radix).value
  }

  /** The magnitude `parseInt` reads after the sign: a `0x`/`0X` prefix switches to base 16,
      then the longest digit prefix counts; `None` when there is no digit. */
  function ParseMagnitude(u: string): Option<nat> {
    var hex := |u| >= 2 && u[0] == '0' && (u[1] == 'x' || u[1] == 'X');
    var radix := if hex then 16 else 10;
    var v := if hex then u[2..] else u;
    var k := DigitPrefixLength(v, radix);
    if k == 0 then None else Some(DigitsValue(v[..k], radix))
  }

  /** JavaScript's `parseInt(s)` with no radix argument, on strings whose value is an integer:
      skip leading white space, take one optional sign, then the magnitude; `None` stands for `NaN`. */
  function ParseInt(s: string): (r: Option<int>)
    ensures TrimStart(s) == [] ==> r.None?
    ensures (TrimStart(s) != [] && TrimStart(s)[0] != '-' && TrimStart(s)[0] != '+' &&
             DigitValue(TrimStart(s)[0], 10).None?) ==> r.None?
    ensures r.Some? && r.value < 0 ==> TrimStart(s)[0] == '-'
  {
    var t := TrimStart(s);
    var negative := |t| > 0 && t[0] == '-';
    var u := if |t| > 0 && (t[0] == '-' || t[0] == '+') then t[1..] else t;
    var m := ParseMagnitude(u);
    if m.None? then None
    else Some(if negative then -(m.value as int) else m.value as int)
  }

  lemma {:induction false} NatDigitsAreDigits(n: nat)
    ensures AllDigits(NatDigits(n), 10)
    ensures DigitsValue(NatDigits(n), 10) == n
    decreases n
  {
    var s := NatDigits(n);
    if n >= 10 {
      NatDigitsAreDigits(n / 10);
      assert s[..|s| - 1] == NatDigits(n / 10);
    }
  }

  lemma {:induction false} AllDigitsPrefixLength(s: string, radix: nat)
    requires AllDigits(s, radix)
    ensures DigitPrefixLength(s, radix) == |s|
    decreases |s|
  {
    if s != [] {
      AllDigitsPrefixLength(s[1..], radix);
    }
  }

  lemma MagnitudeOfDigits(d: string)
    requires d != [] && AllDigits(d, 10)
    ensures ParseMagnitude(d) == Some(DigitsValue(d, 10))
    ensures '0' <= d[0] <= '9'
  {
    AllDigitsPrefixLength(d, 10);
    assert d[..|d|] == d;
    assert DigitValue(d[0], 10).Some?;
    assert |d| >= 2 ==> DigitValue(d[1], 10).Some?;
  }

  /** A string that starts with neither white space nor a sign is read as its magnitude. */
  lemma ParseUnsigned(d: string)
    requires d != [] && !IsStrWhiteSpace(d[0]) && d[0] != '-' && d[0] != '+'
    ensures ParseInt(d) == (if ParseMagnitude(d).None? then None else Some(ParseMagnitude(d).value as int))
  {
    assert TrimStart(d) == d;
  }

  lemma ParseSigned(d: string, v: nat)
    requires d != [] && '0' <= d[0] <= '9' && ParseMagnitude(d) == Some(v)
    ensures ParseInt(d) == Some(v)
  {
    assert !IsStrWhiteSpace(d[0]);
    ParseUnsigned(d);
  }

  lemma ParseMinus(d: string, v: nat)
    requires d != [] && '0' <= d[0] <= '9' && ParseMagnitude(d) == Some(v)
    ensures ParseInt(['-'] + d) == Some(-(v as int))
  {
    var s := ['-'] + d;
    assert s[0] == '-' && s[1..] == d;
    assert TrimStart(s) == s by {
      assert !IsStrWhiteSpace(s[0]);
    }
  }

  /** The digits of `m` start with a digit and read back as `m`. */
  lemma MagnitudeOfNatDigits(m: nat)
    ensures '0' <= NatDigits(m)[0] <= '9'
    ensures ParseMagnitude(NatDigits(m)) == Some(m)
  {
    NatDigitsAreDigits(m);
    MagnitudeOfDigits(NatDigits(m));
  }

  /** The rendering of a natural number parses back to it. */
  lemma ParseNatDecimal(n: int)
    requires n >= 0
    ensures ParseInt(Decimal(n)) == Some(n)
  {
    MagnitudeOfNatDigits(n);
    ParseSigned(NatDigits(n), n);
  }

  /** The rendering of a negative number, a minus sign and digits, parses back to it. */
  lemma ParseNegDecimal(n: int)
    requires n < 0
    ensures ParseInt(Decimal(n)) == Some(n)
  {
    var m: nat := -n;
    MagnitudeOfNatDigits(m);
    ParseMinus(NatDigits(m), m);
  }

  /** `parseInt` reads back what `String(n)` writes: the decimal rendering round-trips. */
  lemma ParseDecimal(n: int)
    ensures ParseInt(Decimal(n)) == Some(n)
  {
    if n < 0 {
      ParseNegDecimal(n);
    } else {
      ParseNatDecimal(n);
    }
  }

  /** Distinct integers have distinct renderings. */
  lemma DecimalInjective(m: int, n: int)
    requires Decimal(m) == Decimal(n)
    ensures m == n
  {
    ParseDecimal(m);
    ParseDecimal(n);
  }

  /** A rendering is a `-` and digits, so it never contains `c` when `c` is neither. */
  lemma DecimalAvoids(n: int, c: char)
    requires c != '-' && DigitValue(c, 10).None?
    ensures c !in Decimal(n)
  {
    var m: nat := if n < 0 then -n else n;
    NatDigitsAreDigits(m);
  }

  /** The rendering of a non-negative integer has no sign. */
  lemma NatDecimalUnsigned(n: int)
    requires n >= 0
    ensures '-' !in Decimal(n)
  {
    NatDigitsAreDigits(n);
    assert DigitValue('-', 10).None?;
  }

  /** `a + [c] + b` with `c` absent from `a` splits uniquely at its first `c`. */
  lemma SplitAtFirst(a: string, b: string, a': string, b': string, c: char)
    requires c !in a && c !in a'
    requires a + [c] + b == a' + [c] + b'
    ensures a == a' && b == b'
  {
    var s := a + [c] + b;
    assert forall i :: 0 <= i < |a| ==> s[i] == a[i];
    assert forall i :: 0 <= i < |a'| ==> s[i] == a'[i];
    assert s[|a|] == c && s[|a'|] == c;
    assert a == s[..|a|] == a';
    assert b == s[|a| + 1..] == b';
  }

  /** `Array.prototype.join(sep)` on strings. */
  function Join(xs: seq<string>, sep: string): string
    decreases |xs|
  {
    if xs == [] then ""
    else if |xs| == 1 then xs[0]
    else xs[0] + sep + Join(xs[1..], sep)
  }

  /** A joined string holds a character only if a piece or the separator does. */
  lemma {:induction false} JoinAvoids(xs: seq<string>, sep: string, c: char)
    requires c !in sep && forall i :: 0 <= i < |xs| ==> c !in xs[i]
    ensures c !in Join(xs, sep)
    decreases |xs|
  {
    if |xs| > 1 {
      JoinAvoids(xs[1..], sep, c);
    }
  }

  /** Joining two non-empty lists is joining each and putting the separator between. */
  lemma {:induction false} JoinAppend(xs: seq<string>, ys: seq<string>, sep: string)
    requires xs != [] && ys != []
    ensures Join(xs + ys, sep) == Join(xs, sep) + sep + Join(ys, sep)
    decreases |xs|
  {
    var zs := xs + ys;
    assert zs[0] == xs[0];
    if |xs| == 1 {
      assert zs[1..] == ys;
    } else {
      assert zs[1..] == xs[1..] + ys;
      JoinAppend(xs[1..], ys, sep);
    }
  }

  /** `s.split(c)` for a one-character separator: the pieces between the occurrences of `c`. */
  function Split(s: string, c: char): (r: seq<string>)
    ensures |r| > 0
    decreases |s|
  {
    if s == [] then [""]
    else
      var rest := Split(s[1..], c);
      if s[0] == c then [""] + rest else [[s[0]] + rest[0]] + rest[1..]
  }

  lemma {:induction false} SplitFree(s: string, c: char)
    requires c !in s
    ensures Split(s, c) == [s]
    decreases |s|
  {
    if s != [] {
      SplitFree(s[1..], c);
      assert [s[0]] + s[1..] == s;
    }
  }

  lemma {:induction false} SplitPrefix(a: string, b: string, c: char)
    requires c !in a
    ensures Split(a + [c] + b, c) == [a] + Split(b, c)
    decreases |a|
  {
    var s := a + [c] + b;
    if a == [] {
      assert s[1..] == b;
    } else {
      assert s[1..] == a[1..] + [c] + b;
      SplitPrefix(a[1..], b, c);
      assert [a[0]] + a[1..] == a;
    }
  }

  /** Splitting what `join` built gives back the pieces, provided none contains the separator. */
  lemma {:induction false} SplitJoin(xs: seq<string>, c: char)
    requires xs != []
    requires forall i :: 0 <= i < |xs| ==> c !in xs[i]
    ensures Split(Join(xs, [c]), c) == xs
    decreases |xs|
  {
    if |xs| == 1 {
      SplitFree(xs[0], c);
    } else {
      SplitJoin(xs[1..], c);
      SplitPrefix(xs[0], Join(xs[1..], [c]), c);
    }
  }

  /** Lines, each followed by a line break. */
  function LinesText(lines: seq<string>): string {
    Join(lines, "\n") + "\n"
  }

  /** Text appended group of lines by group of lines, each line followed by a line break. */
  function Paragraphs(groups: seq<seq<string>>): string
    decreases |groups|
  {
    if groups == [] then "" else Paragraphs(groups[..|groups| - 1]) + LinesText(groups[|groups| - 1])
  }

  /** All the lines of the groups, in order. */
  function Flat(groups: seq<seq<string>>): seq<string>
    decreases |groups|
  {
    if groups == [] then [] else Flat(groups[..|groups| - 1]) + groups[|groups| - 1]
  }

  lemma ParagraphsSnoc(groups: seq<seq<string>>, g: seq<string>)
    ensures Paragraphs(groups + [g]) == Paragraphs(groups) + LinesText(g)
    ensures Flat(groups + [g]) == Flat(groups) + g
  {
    assert (groups + [g])[..|groups|] == groups;
  }

  lemma LinesTextAppend(xs: seq<string>, ys: seq<string>)
    requires xs != [] && ys != []
    ensures LinesText(xs + ys) == LinesText(xs) + LinesText(ys)
  {
    JoinAppend(xs, ys, "\n");
    var a, b := Join(xs, "\n"), Join(ys, "\n");
    assert (a + "\n") + (b + "\n") == (a + "\n" + b) + "\n";
  }

  /** Appending the groups is writing all their lines, each followed by a line break. */
  lemma {:induction false} ParagraphsLines(groups: seq<seq<string>>)
    requires groups != [] && forall k :: 0 <= k < |groups| ==> groups[k] != []
    ensures Paragraphs(groups) == LinesText(Flat(groups))
    decreases |groups|
  {
    var init, last := groups[..|groups| - 1], groups[|groups| - 1];
    if init == [] {
      assert Flat(groups) == last;
    } else {
      assert forall k :: 0 <= k < |init| ==> init[k] == groups[k];
      ParagraphsLines(init);
      assert Flat(init) == Flat(init[..|init| - 1]) + groups[|init| - 1];
      LinesTextAppend(Flat(init), last);
      assert Paragraphs(groups) == Paragraphs(init) + LinesText(last);
      assert Flat(groups) == Flat(init) + last;
    }
  }

  lemma {:induction false} FlatAppend(gs: seq<seq<string>>, hs: seq<seq<string>>)
    ensures Flat(gs + hs) == Flat(gs) + Flat(hs)
    decreases |hs|
  {
    if hs == [] {
      assert gs + hs == gs;
    } else {
      var init, last := hs[..|hs| - 1], hs[|hs| - 1];
      FlatAppend(gs, init);
      assert (gs + hs)[..|gs + hs| - 1] == gs + init;
    }
  }

  /** A character no line of any group holds is in no line of all of them. */
  lemma {:induction false} FlatAvoids(gs: seq<seq<string>>, c: char)
    requires forall k, j :: 0 <= k < |gs| && 0 <= j < |gs[k]| ==> c !in gs[k][j]
    ensures forall i :: 0 <= i < |Flat(gs)| ==> c !in Flat(gs)[i]
    decreases |gs|
  {
    if gs != [] {
      var init, last := gs[..|gs| - 1], gs[|gs| - 1];
      FlatAvoids(init, c);
      assert forall j :: 0 <= j < |last| ==> c !in last[j];
    }
  }

  /** Every group holds a line, and no line holds `c`. */
  predicate LinesAvoid(gs: seq<seq<string>>, c: char) {
    forall k :: 0 <= k < |gs| ==> gs[k] != [] && forall j :: 0 <= j < |gs[k]| ==> c !in gs[k][j]
  }

  lemma LinesAvoidAppend(gs: seq<seq<string>>, hs: seq<seq<string>>, c: char)
    requires LinesAvoid(gs, c) && LinesAvoid(hs, c)
    ensures LinesAvoid(gs + hs, c)
  {
    forall k | 0 <= k < |gs + hs| ensures (gs + hs)[k] == if k < |gs| then gs[k] else hs[k - |gs|] {
    }
  }

  /** Read back line by line, the groups give all their lines and then the empty text after the
      last line break, when no line holds a line break. */
  lemma ParagraphsRead(gs: seq<seq<string>>)
    requires gs != [] && LinesAvoid(gs, '\n')
    ensures Split(Paragraphs(gs), '\n') == Flat(gs) + [""]
  {
    ParagraphsLines(gs);
    FlatAvoids(gs, '\n');
    var lines := Flat(gs);
    assert lines != [] by {
      FlatAppend(gs[..|gs| - 1], [gs[|gs| - 1]]);
      assert gs[..|gs| - 1] + [gs[|gs| - 1]] == gs;
      assert Flat([gs[|gs| - 1]]) == Flat([]) + gs[|gs| - 1];
    }
    JoinAppend(lines, [""], "\n");
    var a := Join(lines, "\n");
    assert a + "\n" + "" == a + "\n";
    forall i | 0 <= i < |lines + [""]| ensures '\n' !in (lines + [""])[i] {
      if i < |lines| {
        assert (lines + [""])[i] == lines[i];
      }
    }
    SplitJoin(lines + [""], '\n');
  }

  /** `content += `${x}\n``. */
  lemma AddLine(gs: seq<seq<string>>, x: string)
    ensures Paragraphs(gs + [[x]]) == Paragraphs(gs) + (x + "\n")
  {
    ParagraphsSnoc(gs, [x]);
  }

  /** `content += `${x}\n\n``: the line and an empty one. */
  lemma AddLineThenEmpty(gs: seq<seq<string>>, x: string)
    ensures Paragraphs(gs + [[x, ""]]) == Paragraphs(gs) + (x + "\n\n")
  {
    ParagraphsSnoc(gs, [x, ""]);
    assert Join([x, ""], "\n") == x + "\n" + Join([""], "\n");
    assert x + "\n" + "" + "\n" == x + "\n\n";
  }

  /** `content += `\n${x}\n\n``: the line between two empty ones. */
  lemma AddBetweenEmpty(gs: seq<seq<string>>, x: string)
    ensures Paragraphs(gs + [["", x, ""]]) == Paragraphs(gs) + ("\n" + x + "\n\n")
  {
    ParagraphsSnoc(gs, ["", x, ""]);
    assert Join(["", x, ""], "\n") == "" + "\n" + Join([x, ""], "\n");
    assert Join([x, ""], "\n") == x + "\n" + Join([""], "\n");
    assert "" + "\n" + (x + "\n" + "") + "\n" == "\n" + x + "\n\n";
  }

  /** `c.repeat(n)`. */
  function Rule(c: char, n: nat): (r: string)
    ensures |r| == n && forall i :: 0 <= i < n ==> r[i] == c
  {
    seq(n, _ => c)
  }
}
