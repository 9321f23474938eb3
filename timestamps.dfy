/** The timestamp format `%Y-%m-%dT%H:%M:%SZ` as Python's `datetime.strptime`
    reads it (lambda_function_storing.py, lines 46 and 56), the naive-datetime
    order it compares with, and the fixed-width layout `YYYY-MM-DDTHH:MM:SSZ`
    for which string order and datetime order agree. */
module Timestamps {
  import opened Wrappers
  import opened Strings

  /** A naive `datetime` without microseconds. */
  datatype DateTime = DateTime(year: nat, month: nat, day: nat, hour: nat, minute: nat, second: nat)

  predicate IsLeapYear(y: int)
  {
    y % 4 == 0 && (y % 100 != 0 || y % 400 == 0)
  }

  function DaysInMonth(y: int, m: int): (n: int)
    requires 1 <= m <= 12
    ensures 28 <= n <= 31
    ensures n == 29 <==> m == 2 && IsLeapYear(y)
  {
    if m == 2 then (if IsLeapYear(y) then 29 else 28)
    else if m == 4 || m == 6 || m == 9 || m == 11 then 30
    else 31
  }

  /** The range checks of the `datetime` constructor. */
  predicate Valid(d: DateTime)
  {
    1 <= d.year <= 9999 && 1 <= d.month <= 12 && 1 <= d.day <= DaysInMonth(d.year, d.month) &&
    d.hour < 24 && d.minute < 60 && d.second < 60
  }

  /** The fields, most significant first. */
  function Fields(d: DateTime): (v: seq<nat>)
    ensures |v| == 6
  {
    [d.year, d.month, d.day, d.hour, d.minute, d.second]
  }

  /** Lexicographic order on sequences of numbers, as Python compares tuples. */
  predicate SeqLess(v: seq<nat>, w: seq<nat>)
  {
    if w == [] then false
    else if v == [] then true
    else if v[0] != w[0] then v[0] < w[0]
    else SeqLess(v[1..], w[1..])
  }

  lemma {:induction false} SeqLessIsStrictTotalOrder(u: seq<nat>, v: seq<nat>, w: seq<nat>)
    ensures !SeqLess(u, u)
    ensures |u| == |v| ==> SeqLess(u, v) || u == v || SeqLess(v, u)
    ensures SeqLess(u, v) && SeqLess(v, w) ==> SeqLess(u, w)
  {
    if u != [] && v != [] && w != [] {
      SeqLessIsStrictTotalOrder(u[1..], v[1..], w[1..]);
      assert u == [u[0]] + u[1..] && v == [v[0]] + v[1..];
    } else if u != [] && v != [] {
      SeqLessIsStrictTotalOrder(u[1..], v[1..], []);
      assert u == [u[0]] + u[1..] && v == [v[0]] + v[1..];
    } else if u != [] {
      SeqLessIsStrictTotalOrder(u[1..], [], []);
    }
  }

  /** `a < b` on naive datetimes: the field tuples compared lexicographically. */
  predicate Before(a: DateTime, b: DateTime)
  {
    SeqLess(Fields(a), Fields(b))
  }

  lemma BeforeIsStrictTotalOrder(a: DateTime, b: DateTime, c: DateTime)
    ensures !Before(a, a)
    ensures Before(a, b) || a == b || Before(b, a)
    ensures Before(a, b) && Before(b, c) ==> Before(a, c)
  {
    SeqLessIsStrictTotalOrder(Fields(a), Fields(b), Fields(c));
  }

  // ---------------------------------------------------------------------------
  // Decimal digits

  predicate IsDigit(c: char)
  {
    '0' <= c <= '9'
  }

  function DigitValue(c: char): (n: nat)
    requires IsDigit(c)
    ensures n < 10
  {
    c as int - '0' as int
  }

  function DigitChar(n: nat): (c: char)
    requires n < 10
    ensures IsDigit(c) && DigitValue(c) == n
  {
    ('0' as int + n) as char
  }

  predicate AllDigits(s: string)
  {
    forall i :: 0 <= i < |s| ==> IsDigit(s[i])
  }

  function Pow10(n: nat): (p: nat)
    ensures p >= 1
  {
    if n == 0 then 1 else 10 * Pow10(n - 1)
  }

  /** The number a run of ASCII digits spells, as `int` reads it. */
  function Value(s: string): nat
    requires AllDigits(s)
  {
    if s == [] then 0 else Value(s[..|s| - 1]) * 10 + DigitValue(s[|s| - 1])
  }

  lemma {:induction false} ValueBound(s: string)
    requires AllDigits(s)
    ensures Value(s) < Pow10(|s|)
  {
    if s != [] {
      ValueBound(s[..|s| - 1]);
    }
  }

  /** `x` written with exactly `width` digits, zero-padded on the left
      (`%Y` with width 4, the other fields with width 2). */
  function Pad(x: nat, width: nat): (s: string)
    requires x < Pow10(width)
    ensures |s| == width && AllDigits(s)
  {
    if width == 0 then [] else Pad(x / 10, width - 1) + [DigitChar(x % 10)]
  }

  lemma {:induction false} ValuePad(x: nat, width: nat)
    requires x < Pow10(width)
    ensures Value(Pad(x, width)) == x
  {
    if width > 0 {
      ValuePad(x / 10, width - 1);
      var s := Pad(x, width);
      assert s[..|s| - 1] == Pad(x / 10, width - 1);
    }
  }

  lemma AppendDigit(a: nat, d: nat)
    requires d < 10
    ensures (a * 10 + d) / 10 == a && (a * 10 + d) % 10 == d
  {
  }

  lemma DigitRoundTrip(c: char)
    requires IsDigit(c)
    ensures DigitChar(DigitValue(c)) == c
  {
  }

  /** Appending a digit to a numeral appends it to the padded value. */
  lemma PadAppend(a: nat, d: nat, n: nat)
    requires a < Pow10(n) && d < 10
    ensures a * 10 + d < Pow10(n + 1) && Pad(a * 10 + d, n + 1) == Pad(a, n) + [DigitChar(d)]
  {
    AppendDigit(a, d);
  }

  lemma {:induction false} PadValue(s: string)
    requires AllDigits(s)
    ensures Value(s) < Pow10(|s|) && Pad(Value(s), |s|) == s
  {
    if s != [] {
      var n := |s| - 1;
      var init := s[..n];
      PadValue(init);
      PadAppend(Value(init), DigitValue(s[n]), n);
      DigitRoundTrip(s[n]);
      assert s == init + [s[n]];
    }
  }

  /** Numbers compare as their tens and then their last digits compare. */
  lemma DecimalOrder(x: nat, y: nat)
    ensures x < y <==> x / 10 < y / 10 || (x / 10 == y / 10 && x % 10 < y % 10)
    ensures x == y <==> x / 10 == y / 10 && x % 10 == y % 10
  {
  }

  lemma TensBound(x: nat, width: nat)
    requires width > 0 && x < Pow10(width)
    ensures x / 10 < Pow10(width - 1)
  {
  }

  /** Zero-padded numerals of one width are equal only for equal values. */
  lemma PadInjective(x: nat, y: nat, width: nat)
    requires x < Pow10(width) && y < Pow10(width)
    ensures Pad(x, width) == Pad(y, width) <==> x == y
  {
    ValuePad(x, width);
    ValuePad(y, width);
  }

  /** Zero-padded numerals of one width compare as strings as their values compare. */
  lemma {:induction false} PadLess(x: nat, y: nat, width: nat)
    requires x < Pow10(width) && y < Pow10(width)
    ensures Less(Pad(x, width), Pad(y, width)) <==> x < y
    ensures Pad(x, width) == Pad(y, width) <==> x == y
  {
    PadInjective(x, y, width);
    if width > 0 {
      TensBound(x, width);
      TensBound(y, width);
      PadLess(x / 10, y / 10, width - 1);
      DecimalOrder(x, y);
      LessConcat(Pad(x / 10, width - 1), [DigitChar(x % 10)], Pad(y / 10, width - 1), [DigitChar(y % 10)]);
    }
  }

  // ---------------------------------------------------------------------------
  // The format and how `_strptime` matches it

  /** The directives of the format. */
  datatype Directive = Year | Month | Day | Hour | Minute | Second

  /** `%Y-%m-%dT%H:%M:%SZ`: each directive with the literal that follows it. */
  const Layout: seq<(Directive, char)> :=
    [(Year, '-'), (Month, '-'), (Day, 'T'), (Hour, ':'), (Minute, ':'), (Second, 'Z')]

  /** The number of leading ASCII digits of `s`, at most `max`. */
  function DigitRun(s: string, max: nat): (n: nat)
    ensures n <= max && n <= |s|
    ensures AllDigits(s[..n])
    ensures n < max && n < |s| ==> !IsDigit(s[n])
  {
    if max == 0 || s == [] || !IsDigit(s[0]) then 0
    else 1 + DigitRun(s[1..], max - 1)
  }

  /** A numeric field of `min` to `max` digits. Every field of the format is
      followed by a non-digit literal, so the alternatives of `_strptime`'s
      regular expression for the field match exactly the whole run of digits
      before it; reading greedily and then demanding the literal is the same. */
  function Field(s: string, min: nat, max: nat): Option<(nat, string)>
  {
    var n := DigitRun(s, max);
    if n == 0 || n < min then None else Some((Value(s[..n]), s[n..]))
  }

  /** A field consumes between `min` and `max` characters from the front,
      all of them digits. */
  lemma FieldConsumes(s: string, min: nat, max: nat)
    ensures var r := Field(s, min, max);
            r.Some? ==> min <= |s| - |r.value.1| <= max && r.value.1 == s[|s| - |r.value.1|..] &&
                        AllDigits(s[..|s| - |r.value.1|])
  {
  }

  /** One literal character of the format; the pattern is compiled with
      IGNORECASE, so `t` and `z` match `T` and `Z`. */
  function Literal(s: string, c: char): Option<string>
  {
    if s != [] && LowerChar(s[0]) == LowerChar(c) then Some(s[1..]) else None
  }

  /** The literals of the format: `-` and `:` accept only themselves, while
      `T` and `Z` accept either case; a match consumes that one character. */
  lemma LiteralMatches(s: string)
    ensures Literal(s, '-').Some? <==> s != [] && s[0] == '-'
    ensures Literal(s, ':').Some? <==> s != [] && s[0] == ':'
    ensures Literal(s, 'T').Some? <==> s != [] && (s[0] == 'T' || s[0] == 't')
    ensures Literal(s, 'Z').Some? <==> s != [] && (s[0] == 'Z' || s[0] == 'z')
    ensures forall c :: Literal(s, c).Some? ==> |Literal(s, c).value| == |s| - 1
  {
  }

  /** `%d` also accepts a space-padded single digit. */
  function DayField(s: string): Option<(nat, string)>
  {
    if s != [] && s[0] == ' ' then Field(s[1..], 1, 1) else Field(s, 1, 2)
  }

  /** One directive as `_strptime`'s regular expression reads it: `%Y` is
      exactly four digits, `%d` one or two digits or a space and one digit,
      the others one or two digits. Range checks come later. */
  function ReadDirective(s: string, k: Directive): Option<(nat, string)>
  {
    match k
    case Year => Field(s, 4, 4)
    case Day => DayField(s)
    case _ => Field(s, 1, 2)
  }

  /** Matches `s` against a layout; the whole string must be consumed
      (otherwise Python reports "unconverted data remains"). */
  function Match(s: string, layout: seq<(Directive, char)>): (r: Option<seq<nat>>)
    ensures r.Some? ==> |r.value| == |layout|
  {
    if layout == [] then (if s == [] then Some([]) else None)
    else
      var f :- ReadDirective(s, layout[0].0);
      var rest :- Literal(f.1, layout[0].1);
      var tail :- Match(rest, layout[1..]);
      Some([f.0] + tail)
  }

  /** `datetime.strptime(s, "%Y-%m-%dT%H:%M:%SZ")`: None where Python raises
      ValueError (no match, unconverted data left, or a date the `datetime`
      constructor rejects). */
  function Parse(s: string): (r: Option<DateTime>)
    ensures r.Some? ==> Valid(r.value)
  {
    var v :- Match(s, Layout);
    var d := DateTime(v[0], v[1], v[2], v[3], v[4], v[5]);
    if Valid(d) then Some(d) else None
  }

  // ---------------------------------------------------------------------------
  // The canonical layout

  /** The widths `_strptime` accepts for a directive's digits: four for
      `%Y`, one or two for the others. */
  predicate Accepts(k: Directive, width: nat)
  {
    if k == Year then width == 4 else 1 <= width <= 2
  }

  /** The widths of `strftime`'s zero-padded output. */
  const FixedWidths: seq<nat> := [4, 2, 2, 2, 2, 2]

  /** Values printable in a layout with the given widths. */
  predicate Fits(v: seq<nat>, ws: seq<nat>, layout: seq<(Directive, char)>)
  {
    |v| == |ws| == |layout| &&
    forall i :: 0 <= i < |v| ==> Accepts(layout[i].0, ws[i]) && v[i] < Pow10(ws[i])
  }

  /** Prints values in a layout, each zero-padded to its width. */
  function Render(v: seq<nat>, ws: seq<nat>, layout: seq<(Directive, char)>): (s: string)
    requires Fits(v, ws, layout)
  {
    if layout == [] then []
    else Pad(v[0], ws[0]) + ([layout[0].1] + Render(v[1..], ws[1..], layout[1..]))
  }

  lemma ValidFits(d: DateTime)
    requires Valid(d)
    ensures Fits(Fields(d), FixedWidths, Layout)
  {
    assert Pow10(4) == 10000 && Pow10(2) == 100;
  }

  /** `d.strftime("%Y-%m-%dT%H:%M:%SZ")`. */
  function Format(d: DateTime): string
    requires Fits(Fields(d), FixedWidths, Layout)
  {
    Render(Fields(d), FixedWidths, Layout)
  }

  /** Digits of exactly the given widths, each run followed by exactly its
      literal (upper-case `T` and `Z`). */
  predicate Shaped(s: string, ws: seq<nat>, layout: seq<(Directive, char)>)
    requires |ws| == |layout|
  {
    if layout == [] then s == []
    else
      var w := ws[0];
      |s| > w && AllDigits(s[..w]) && s[w] == layout[0].1 && Shaped(s[w + 1..], ws[1..], layout[1..])
  }

  /** A well-formed timestamp: the layout `YYYY-MM-DDTHH:MM:SSZ`, twenty
      characters, and a real date and time. */
  predicate WellFormed(s: string)
  {
    Shaped(s, FixedWidths, Layout) && Parse(s).Some?
  }

  lemma {:induction false} DigitRunOfDigits(p: string, rest: string, max: nat)
    requires AllDigits(p) && |p| <= max
    requires |p| < max ==> rest == [] || !IsDigit(rest[0])
    ensures DigitRun(p + rest, max) == |p|
  {
    if p != [] {
      assert (p + rest)[1..] == p[1..] + rest;
      DigitRunOfDigits(p[1..], rest, max - 1);
    } else {
      assert p + rest == rest;
    }
  }

  lemma FieldOfDigits(p: string, min: nat, max: nat, rest: string)
    requires 1 <= min <= |p| <= max && AllDigits(p)
    requires |p| < max ==> rest != [] && !IsDigit(rest[0])
    ensures Field(p + rest, min, max) == Some((Value(p), rest))
  {
    DigitRunOfDigits(p, rest, max);
    assert (p + rest)[..|p|] == p;
    assert (p + rest)[|p|..] == rest;
  }

  lemma ReadPadded(p: string, k: Directive, sep: char, rest: string)
    requires Accepts(k, |p|) && AllDigits(p) && !IsDigit(sep)
    ensures ReadDirective(p + ([sep] + rest), k) == Some((Value(p), [sep] + rest))
  {
    FieldOfDigits(p, if k == Year then 4 else 1, if k == Year then 4 else 2, [sep] + rest);
    assert (p + ([sep] + rest))[0] == p[0];
  }

  predicate LiteralsAreNotDigits(layout: seq<(Directive, char)>)
  {
    forall i :: 0 <= i < |layout| ==> !IsDigit(layout[i].1)
  }

  /** Matching printed values gives them back, whatever accepted widths they
      were printed with. */
  lemma {:induction false} MatchRender(v: seq<nat>, ws: seq<nat>, layout: seq<(Directive, char)>)
    requires Fits(v, ws, layout) && LiteralsAreNotDigits(layout)
    ensures Match(Render(v, ws, layout), layout) == Some(v)
  {
    if layout != [] {
      var k, sep := layout[0].0, layout[0].1;
      var tail := Render(v[1..], ws[1..], layout[1..]);
      ValuePad(v[0], ws[0]);
      ReadPadded(Pad(v[0], ws[0]), k, sep, tail);
      MatchRender(v[1..], ws[1..], layout[1..]);
      assert v == [v[0]] + v[1..];
    }
  }

  /** Parsing what `strftime` prints gives the datetime back. */
  lemma ParseFormat(d: DateTime)
    requires Valid(d)
    ensures Fits(Fields(d), FixedWidths, Layout) && Parse(Format(d)) == Some(d)
  {
    ValidFits(d);
    MatchRender(Fields(d), FixedWidths, Layout);
  }

  /** Rendering a head value and a tail. */
  lemma RenderCons(x: nat, tail: seq<nat>, ws: seq<nat>, layout: seq<(Directive, char)>)
    requires layout != [] && |ws| == |layout|
    requires Accepts(layout[0].0, ws[0]) && x < Pow10(ws[0]) && Fits(tail, ws[1..], layout[1..])
    ensures Fits([x] + tail, ws, layout)
    ensures Render([x] + tail, ws, layout) == Pad(x, ws[0]) + ([layout[0].1] + Render(tail, ws[1..], layout[1..]))
  {
    var v := [x] + tail;
    assert v[1..] == tail;
    forall i | 0 <= i < |v| ensures Accepts(layout[i].0, ws[i]) && v[i] < Pow10(ws[i]) {
      if i > 0 {
        assert v[i] == tail[i - 1];
      }
    }
  }

  /** A shaped string splits into its first digit run, that run's literal
      and a rest shaped by the rest of the layout. */
  lemma ShapedHead(s: string, ws: seq<nat>, layout: seq<(Directive, char)>)
    requires layout != [] && |ws| == |layout| && Shaped(s, ws, layout)
    ensures |s| > ws[0] && AllDigits(s[..ws[0]]) && s[ws[0]] == layout[0].1
    ensures Shaped(s[ws[0] + 1..], ws[1..], layout[1..])
  {
  }

  lemma SplitAround(s: string, w: nat, c: char)
    requires w < |s| && s[w] == c
    ensures s == s[..w] + ([c] + s[w + 1..])
  {
  }

  /** The rest of a layout keeps its accepted widths and its literals. */
  lemma LayoutTail(ws: seq<nat>, layout: seq<(Directive, char)>)
    requires layout != [] && |ws| == |layout| && LiteralsAreNotDigits(layout)
    requires forall i :: 0 <= i < |layout| ==> Accepts(layout[i].0, ws[i])
    ensures Accepts(layout[0].0, ws[0]) && !IsDigit(layout[0].1) && LiteralsAreNotDigits(layout[1..])
    ensures forall i :: 0 <= i < |layout[1..]| ==> Accepts(layout[1..][i].0, ws[1..][i])
  {
    forall i | 0 <= i < |layout[1..]| ensures Accepts(layout[1..][i].0, ws[1..][i]) && !IsDigit(layout[1..][i].1) {
      assert layout[1..][i] == layout[i + 1] && ws[1..][i] == ws[i + 1];
    }
  }

  /** The values of the digit runs of a shaped string. */
  function Runs(s: string, ws: seq<nat>, layout: seq<(Directive, char)>): seq<nat>
    requires |ws| == |layout| && Shaped(s, ws, layout)
    decreases |layout|
  {
    if layout == [] then [] else [Value(s[..ws[0]])] + Runs(s[ws[0] + 1..], ws[1..], layout[1..])
  }

  lemma {:induction false} RenderRuns(s: string, ws: seq<nat>, layout: seq<(Directive, char)>)
    requires |ws| == |layout| && Shaped(s, ws, layout) && LiteralsAreNotDigits(layout)
    requires forall i :: 0 <= i < |layout| ==> Accepts(layout[i].0, ws[i])
    ensures Fits(Runs(s, ws, layout), ws, layout) && Render(Runs(s, ws, layout), ws, layout) == s
  {
    if layout != [] {
      ShapedHead(s, ws, layout);
      SplitAround(s, ws[0], layout[0].1);
      LayoutTail(ws, layout);
      var p, rest := s[..ws[0]], s[ws[0] + 1..];
      RenderRuns(rest, ws[1..], layout[1..]);
      PadValue(p);
      RenderCons(Value(p), Runs(rest, ws[1..], layout[1..]), ws, layout);
    }
  }

  /** A string of the fixed shape is the rendering of what it matches to. */
  lemma MatchShaped(s: string, ws: seq<nat>, layout: seq<(Directive, char)>)
    requires |ws| == |layout| && Shaped(s, ws, layout) && LiteralsAreNotDigits(layout)
    requires forall i :: 0 <= i < |layout| ==> Accepts(layout[i].0, ws[i])
    ensures Match(s, layout).Some?
    ensures Fits(Match(s, layout).value, ws, layout) && Render(Match(s, layout).value, ws, layout) == s
  {
    RenderRuns(s, ws, layout);
    MatchRender(Runs(s, ws, layout), ws, layout);
  }

  /** Every well-formed timestamp is what `strftime` prints for the datetime
      it parses to. */
  lemma FormatOfWellFormed(s: string)
    requires WellFormed(s)
    ensures Fits(Fields(Parse(s).value), FixedWidths, Layout) && Format(Parse(s).value) == s
  {
    FixedLayout();
    MatchShaped(s, FixedWidths, Layout);
    ParsedFields(s);
  }

  /** The fixed layout's literals are not digits and its widths are accepted. */
  lemma FixedLayout()
    ensures |FixedWidths| == |Layout| && LiteralsAreNotDigits(Layout)
    ensures forall i :: 0 <= i < |Layout| ==> Accepts(Layout[i].0, FixedWidths[i])
  {
  }

  /** A parsed datetime's fields are the matched values. */
  lemma ParsedFields(s: string)
    requires Parse(s).Some?
    ensures Fields(Parse(s).value) == Match(s, Layout).value
  {
  }

  /** One field followed by a separator: the field decides, the rest breaks ties. */
  lemma {:induction false} FieldThenLess(x: nat, y: nat, width: nat, sep: char, ra: string, rb: string)
    requires x < Pow10(width) && y < Pow10(width)
    ensures Less(Pad(x, width) + ([sep] + ra), Pad(y, width) + ([sep] + rb)) <==> x < y || (x == y && Less(ra, rb))
  {
    PadLess(x, y, width);
    LessConcat(Pad(x, width), [sep] + ra, Pad(y, width), [sep] + rb);
    LessConcat([sep], ra, [sep], rb);
    LessIrreflexive([sep]);
  }

  /** Values rendered with the same widths compare as strings exactly as
      they compare as tuples. */
  lemma {:induction false} RenderOrder(v: seq<nat>, w: seq<nat>, ws: seq<nat>, layout: seq<(Directive, char)>)
    requires Fits(v, ws, layout) && Fits(w, ws, layout)
    ensures Less(Render(v, ws, layout), Render(w, ws, layout)) <==> SeqLess(v, w)
  {
    if layout != [] {
      var sep := layout[0].1;
      FieldThenLess(v[0], w[0], ws[0], sep, Render(v[1..], ws[1..], layout[1..]), Render(w[1..], ws[1..], layout[1..]));
      RenderOrder(v[1..], w[1..], ws[1..], layout[1..]);
    }
  }

  /** For well-formed timestamps, the descending string sort that picks the
      latest stored document and the datetime comparison of the ingestion loop
      agree, and equal strings are equal instants. */
  lemma WellFormedOrder(a: string, b: string)
    requires WellFormed(a) && WellFormed(b)
    ensures Less(a, b) <==> Before(Parse(a).value, Parse(b).value)
    ensures a == b <==> Parse(a).value == Parse(b).value
  {
    FormatOfWellFormed(a);
    FormatOfWellFormed(b);
    RenderOrder(Fields(Parse(a).value), Fields(Parse(b).value), FixedWidths, Layout);
  }

  /** `%m` also accepts a one-digit month. */
  const OneDigitMonthWidths: seq<nat> := [4, 1, 2, 2, 2, 2]

  lemma MonthDigitDecides(two: nat, one: nat, ra: string, rb: string)
    requires 10 <= two < 20 && 2 <= one <= 9
    ensures Less(Pad(two, 2) + ra, Pad(one, 1) + rb)
  {
    assert Pow10(2) == 100 && Pow10(1) == 10;
    assert Pad(two, 2) == Pad(two / 10, 1) + [DigitChar(two % 10)];
    assert Pad(two / 10, 1) == [DigitChar(1)];
    assert Pad(one, 1) == [DigitChar(one)];
  }

  /** Two renderings that agree on the first field are ordered by the second. */
  lemma SecondFieldDecides(v: seq<nat>, w: seq<nat>, vs: seq<nat>, ws: seq<nat>, layout: seq<(Directive, char)>)
    requires Fits(v, vs, layout) && Fits(w, ws, layout) && |layout| >= 2
    requires v[0] == w[0] && vs[0] == ws[0]
    requires 10 <= v[1] < 20 && vs[1] == 2 && 2 <= w[1] <= 9 && ws[1] == 1
    ensures Less(Render(v, vs, layout), Render(w, ws, layout))
  {
    var y := Pad(v[0], vs[0]);
    var sep := layout[0].1;
    var mv := Render(v[1..], vs[1..], layout[1..]);
    var mw := Render(w[1..], ws[1..], layout[1..]);
    MonthDigitDecides(v[1], w[1], [layout[1].1] + Render(v[2..], vs[2..], layout[2..]),
                                 [layout[1].1] + Render(w[2..], ws[2..], layout[2..]));
    LessConcat([sep], mv, [sep], mw);
    LessConcat(y, [sep] + mv, y, [sep] + mw);
    LessIrreflexive(y);
  }

  lemma OneDigitMonthFits(d: DateTime)
    requires Valid(d) && d.month <= 9
    ensures Fits(Fields(d), OneDigitMonthWidths, Layout)
  {
    assert Pow10(4) == 10000 && Pow10(2) == 100 && Pow10(1) == 10;
  }

  /** Outside the fixed layout the two orders part: a timestamp written with
      a one-digit month (say "2024-9-30T00:00:00Z") parses, and sorts as a
      string after a later one in October to December of the same year
      ("2024-10-01T00:00:00Z"), although it is the earlier instant. */
  lemma MixedWidthOrderDisagrees(early: DateTime, late: DateTime)
    requires Valid(early) && Valid(late)
    requires early.year == late.year && 2 <= early.month <= 9 && 10 <= late.month
    ensures Fits(Fields(early), OneDigitMonthWidths, Layout) && Fits(Fields(late), FixedWidths, Layout)
    ensures Parse(Render(Fields(early), OneDigitMonthWidths, Layout)) == Some(early)
    ensures Parse(Format(late)) == Some(late)
    ensures Before(early, late)
    ensures Less(Format(late), Render(Fields(early), OneDigitMonthWidths, Layout))
  {
    var ve, vl := Fields(early), Fields(late);
    OneDigitMonthFits(early);
    MatchRender(ve, OneDigitMonthWidths, Layout);
    ParseFormat(late);
    SecondFieldDecides(vl, ve, FixedWidths, OneDigitMonthWidths, Layout);
  }
}
