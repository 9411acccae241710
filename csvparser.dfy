/**
 * The record normaliser of `src/utils/csvParser.ts`: from the header → cell
 * rows the CSV tokeniser delivers (`header: true`, `;`-separated, names
 * trimmed) to `Transaction` values, most recent first.
 */
module CsvParser {
  import opened Wrappers
  import opened Text
  import opened Dates
  import opened Seqs
  import opened Transactions

  // ---------------------------------------------------------------------------
  // Rows

  /** One data row: header name → cell text. An absent key is `undefined`. */
  type RawRow = map<string, string>

  /** `transformHeader: (header) => header.trim()` applied to the header line. */
  function TrimHeaders(headers: seq<string>): (names: seq<string>)
    ensures |names| == |headers|
    ensures forall j :: 0 <= j < |headers| ==> names[j] == Trim(headers[j])
  {
    seq(|headers|, j requires 0 <= j < |headers| => Trim(headers[j]))
  }

  /**
   * The row object built from the (trimmed) names and one line's cells: a cell
   * past the last name is not stored under a name, a name past the last cell
   * stays absent, and of two equal names the first keeps its cell.
   */
  function Zip(names: seq<string>, cells: seq<string>): RawRow
    decreases |names|
  {
    var n := if |names| < |cells| then |names| else |cells|;
    if n == 0 then map[]
    else
      var row := Zip(names[..n - 1], cells[..n - 1]);
      if names[n - 1] in row then row else row[names[n - 1] := cells[n - 1]]
  }

  /** The row of one data line under the header line. */
  function RowOf(headers: seq<string>, cells: seq<string>): RawRow {
    Zip(TrimHeaders(headers), cells)
  }

  /** A cell is found under the first name equal to that name. */
  lemma {:induction false} ZipField(names: seq<string>, cells: seq<string>, i: nat)
    requires i < |names| && i < |cells|
    requires forall j :: 0 <= j < i ==> names[j] != names[i]
    ensures names[i] in Zip(names, cells) && Zip(names, cells)[names[i]] == cells[i]
    decreases |names|
  {
    var n := if |names| < |cells| then |names| else |cells|;
    var h, c := names[..n - 1], cells[..n - 1];
    if i < n - 1 {
      ZipField(h, c, i);
    } else {
      ZipAbsent(h, c, names[i]);
    }
  }

  /** A name that is not among the names (up to the last cell) is absent. */
  lemma {:induction false} ZipAbsent(names: seq<string>, cells: seq<string>, name: string)
    requires forall j :: 0 <= j < |names| && j < |cells| ==> names[j] != name
    ensures name !in Zip(names, cells)
    decreases |names|
  {
    var n := if |names| < |cells| then |names| else |cells|;
    if n > 0 {
      ZipAbsent(names[..n - 1], cells[..n - 1], name);
    }
  }

  /**
   * Header names are trimmed before fields are looked up: the cell under the
   * first header whose trimmed text is `name` is found under `name`.
   */
  lemma RowOfLookup(headers: seq<string>, cells: seq<string>, i: nat, name: string)
    requires i < |headers| && i < |cells| && Trim(headers[i]) == name
    requires forall j :: 0 <= j < i ==> Trim(headers[j]) != name
    ensures name in RowOf(headers, cells) && RowOf(headers, cells)[name] == cells[i]
  {
    ZipField(TrimHeaders(headers), cells, i);
  }

  /** A name that no header with a cell trims to is absent from the row. */
  lemma RowOfMissing(headers: seq<string>, cells: seq<string>, name: string)
    requires forall j :: 0 <= j < |headers| && j < |cells| ==> Trim(headers[j]) != name
    ensures name !in RowOf(headers, cells)
  {
    ZipAbsent(TrimHeaders(headers), cells, name);
  }

  /** `raw[name]`, `undefined` when the row has no such key. */
  function Field(raw: RawRow, name: string): Option<string> {
    if name in raw then Some(raw[name]) else None
  }

  // ---------------------------------------------------------------------------
  // Numbers

  /** The first position of `c` in `s`, or `|s|` when there is none. */
  function CharIndex(s: string, c: char): (i: nat)
    ensures i <= |s|
    ensures i < |s| ==> s[i] == c
    ensures forall j :: 0 <= j < i ==> s[j] != c
  {
    if s == [] then 0 else if s[0] == c then 0 else 1 + CharIndex(s[1..], c)
  }

  /** `s.replace(a, b)` with a one-character pattern: only the first `a` becomes `b`. */
  function ReplaceFirst(s: string, a: char, b: char): (r: string)
    ensures |r| == |s|
    ensures forall j | 0 <= j < |s| :: r[j] == s[j] || r[j] == b
  {
    if s == [] then []
    else if s[0] == a then [b] + s[1..]
    else [s[0]] + ReplaceFirst(s[1..], a, b)
  }

  /** A prefix free of `a` is kept as it is. */
  lemma {:induction false} ReplacePastPrefix(p: string, q: string, a: char, b: char)
    requires forall j | 0 <= j < |p| :: p[j] != a
    ensures ReplaceFirst(p + q, a, b) == p + ReplaceFirst(q, a, b)
  {
    if p == [] {
      assert p + q == q;
    } else {
      var t := p[1..];
      ConsSplit(p, q);
      TailAvoids(p, a);
      ReplacePastPrefix(t, q, a, b);
      ReplaceCons(p[0], t + q, a, b);
      Associative([p[0]], t, ReplaceFirst(q, a, b));
    }
  }

  /** A string free of `a` starts with a character other than `a` and has a tail free of `a`. */
  lemma TailAvoids(p: string, a: char)
    requires |p| > 0 && forall j | 0 <= j < |p| :: p[j] != a
    ensures p[0] != a && forall j | 0 <= j < |p[1..]| :: p[1..][j] != a
  {
    forall j | 0 <= j < |p[1..]| ensures p[1..][j] != a {
      assert p[1..][j] == p[j + 1];
    }
  }

  /** One character other than `a` in front is passed over. */
  lemma ReplaceCons(c: char, s: string, a: char, b: char)
    requires c != a
    ensures ReplaceFirst([c] + s, a, b) == [c] + ReplaceFirst(s, a, b)
  {
    assert ([c] + s)[1..] == s;
  }

  /** What `replace` does: the first `a`, if there is one, becomes `b`; nothing else changes. */
  lemma ReplaceFirstSpec(s: string, a: char, b: char)
    ensures CharIndex(s, a) == |s| ==> ReplaceFirst(s, a, b) == s
    ensures CharIndex(s, a) < |s| ==>
      ReplaceFirst(s, a, b) == s[..CharIndex(s, a)] + [b] + s[CharIndex(s, a) + 1..]
  {
    var k := CharIndex(s, a);
    var p, q := s[..k], s[k..];
    assert s == p + q;
    assert forall j | 0 <= j < |p| :: p[j] != a by {
      forall j | 0 <= j < |p| ensures p[j] != a {
        assert p[j] == s[j];
      }
    }
    ReplacePastPrefix(p, q, a, b);
    if k == |s| {
      assert q == [] && p == s;
    } else {
      SplitAt(s, k);
      assert ReplaceFirst(q, a, b) == [b] + s[k + 1..];
      Associative(p, [b], s[k + 1..]);
    }
  }

  /** Appending a character other than `a` commutes with the replacement. */
  lemma {:induction false} ReplaceSnoc(p: string, c: char, a: char, b: char)
    requires c != a
    ensures ReplaceFirst(p + [c], a, b) == ReplaceFirst(p, a, b) + [c]
  {
    if p != [] {
      assert (p + [c])[1..] == p[1..] + [c];
      ReplaceSnoc(p[1..], c, a, b);
    }
  }

  /** `t` without a leading minus sign. */
  function Unsigned(t: string): (u: string)
    ensures u == t || (t != [] && t[0] == '-' && u == t[1..])
  {
    if t != [] && t[0] == '-' then t[1..] else t
  }

  /** `-?digits(sep digits*)?`: an optional minus, at least one digit, an optional fraction. */
  predicate NumberSyntax(t: string, sep: char) {
    var u := Unsigned(t);
    var i := CharIndex(u, sep);
    1 <= i && AllDigits(u[..i]) && (i == |u| || AllDigits(u[i + 1..]))
  }

  /** A number's sign, integer digits and fraction digits. */
  function NumberParts(t: string, sep: char): (p: (bool, string, string))
    requires NumberSyntax(t, sep)
    ensures AllDigits(p.1) && AllDigits(p.2)
  {
    var u := Unsigned(t);
    var i := CharIndex(u, sep);
    (t != [] && t[0] == '-', u[..i], if i == |u| then "" else u[i + 1..])
  }

  function PartsValue(p: (bool, string, string)): real
    requires AllDigits(p.1) && AllDigits(p.2)
  {
    var v := DigitsValue(p.1) as real + DigitsValue(p.2) as real / Pow10(|p.2|) as real;
    if p.0 then -v else v
  }

  /** The exact value of a number written with decimal separator `sep`. */
  function NumberValue(t: string, sep: char): real
    requires NumberSyntax(t, sep)
  {
    PartsValue(NumberParts(t, sep))
  }

  /**
   * `parseFloat(x)` on text that is, once trimmed, a decimal literal with a
   * point: leading whitespace is skipped and the literal read to its end.
   */
  function ParseFloat(x: string): real
    requires NumberSyntax(Trim(x), '.')
  {
    NumberValue(Trim(x), '.')
  }

  /** Leading whitespace is not touched by replacing one non-space by another. */
  lemma {:induction false} TrimStartReplace(s: string, a: char, b: char)
    requires !IsSpace(a) && !IsSpace(b)
    ensures TrimStart(ReplaceFirst(s, a, b)) == ReplaceFirst(TrimStart(s), a, b)
  {
    if s != [] {
      var r := ReplaceFirst(s, a, b);
      if IsSpace(s[0]) {
        assert r == [s[0]] + ReplaceFirst(s[1..], a, b);
        assert r[1..] == ReplaceFirst(s[1..], a, b);
        TrimStartReplace(s[1..], a, b);
      } else {
        assert !IsSpace(r[0]);
      }
    }
  }

  /** Trailing whitespace is not touched by replacing one non-space by another. */
  lemma {:induction false} TrimEndReplace(s: string, a: char, b: char)
    requires !IsSpace(a) && !IsSpace(b)
    ensures TrimEnd(ReplaceFirst(s, a, b)) == ReplaceFirst(TrimEnd(s), a, b)
    decreases |s|
  {
    if s != [] {
      var p, c := s[..|s| - 1], s[|s| - 1];
      var r := ReplaceFirst(s, a, b);
      if IsSpace(c) {
        assert s == p + [c];
        ReplaceSnoc(p, c, a, b);
        assert r[..|r| - 1] == ReplaceFirst(p, a, b);
        TrimEndReplace(p, a, b);
      } else {
        assert !IsSpace(r[|r| - 1]);
      }
    }
  }

  /** Replacing the comma does not move where trimming cuts. */
  lemma TrimReplaceFirst(s: string)
    ensures Trim(ReplaceFirst(s, ',', '.')) == ReplaceFirst(Trim(s), ',', '.')
  {
    TrimStartReplace(s, ',', '.');
    TrimEndReplace(TrimStart(s), ',', '.');
  }

  /** A number written from a sign, its digits and what follows them. */
  function Compose(neg: bool, units: string, tail: string): string {
    (if neg then "-" else "") + units + tail
  }

  lemma CharIndexAfterDigits(p: string, c: char, q: string)
    requires AllDigits(p) && !IsDigit(c)
    ensures CharIndex(p + [c] + q, c) == |p|
  {
    var s := p + [c] + q;
    assert s[|p|] == c;
  }

  /** A composed number splits back into its sign, units and fraction. */
  lemma ComposeParts(neg: bool, units: string, sep: char, frac: string, tail: string)
    requires |units| >= 1 && AllDigits(units) && AllDigits(frac) && !IsDigit(sep)
    requires (tail == [] && frac == []) || tail == [sep] + frac
    ensures NumberSyntax(Compose(neg, units, tail), sep)
    ensures NumberParts(Compose(neg, units, tail), sep) == (neg, units, frac)
  {
    var body := units + tail;
    var t := Compose(neg, units, tail);
    assert t == (if neg then "-" else "") + body;
    assert body[0] == units[0] && IsDigit(units[0]);
    assert Unsigned(t) == body;
    if tail == [] {
      assert body == units;
    } else {
      assert body == units + [sep] + frac;
      CharIndexAfterDigits(units, sep, frac);
      assert body[..|units|] == units;
      assert body[|units| + 1..] == frac;
    }
  }

  /** What follows the integer digits of a number: nothing, or the separator and the fraction. */
  function Tail(t: string, sep: char): string {
    var u := Unsigned(t);
    u[CharIndex(u, sep)..]
  }

  /** Every number the syntax admits is composed from its parts. */
  lemma SyntaxCompose(t: string, sep: char)
    requires NumberSyntax(t, sep)
    ensures t == Compose(NumberParts(t, sep).0, NumberParts(t, sep).1, Tail(t, sep))
    ensures Tail(t, sep) == [] || Tail(t, sep) == [sep] + NumberParts(t, sep).2
  {
    var u := Unsigned(t);
    var i := CharIndex(u, sep);
    var neg := t != [] && t[0] == '-';
    var units, tail := u[..i], u[i..];
    assert NumberParts(t, sep).0 == neg && NumberParts(t, sep).1 == units;
    assert Tail(t, sep) == tail;
    SplitSlices(u, i);
    var sign := if neg then "-" else "";
    if neg {
      SplitAt(t, 0);
      assert t[0..] == t;
    }
    Associative(sign, units, tail);
    if i < |u| {
      SplitAt(u, i);
    }
  }


  /** A comma number with its comma turned into a point reads as the same value. */
  lemma ReplaceSeparator(t: string)
    requires NumberSyntax(t, ',')
    ensures NumberSyntax(ReplaceFirst(t, ',', '.'), '.')
    ensures NumberValue(ReplaceFirst(t, ',', '.'), '.') == NumberValue(t, ',')
  {
    var p := NumberParts(t, ',');
    var tail := Tail(t, ',');
    SyntaxCompose(t, ',');
    var head := (if p.0 then "-" else "") + p.1;
    assert t == head + tail;
    assert forall j | 0 <= j < |head| :: head[j] != ',' by {
      forall j | 0 <= j < |head| ensures head[j] != ',' {
        if p.0 && j > 0 {
          assert head[j] == p.1[j - 1];
        } else if !p.0 {
          assert head[j] == p.1[j];
        }
      }
    }
    ReplacePastPrefix(head, tail, ',', '.');
    var tail' := ReplaceFirst(tail, ',', '.');
    if tail != [] {
      assert tail' == ['.'] + p.2;
    }
    assert ReplaceFirst(t, ',', '.') == Compose(p.0, p.1, tail');
    ComposeParts(p.0, p.1, '.', p.2, tail');
  }

  /** The bank's amount cells may be blank, absent, or a comma number. */
  predicate NumberField(f: Option<string>) {
    f.None? || IsBlank(f.value) || NumberSyntax(Trim(f.value), ',')
  }

  /**
   * `parseNumber`: 0 for an absent or blank cell; otherwise the first comma
   * becomes a point and the text is read by `parseFloat`.
   */
  function ParseNumber(f: Option<string>): (r: real)
    requires NumberField(f)
    ensures f.None? || IsBlank(f.value) ==> r == 0.0
    ensures f.Some? && !IsBlank(f.value) ==> r == NumberValue(Trim(f.value), ',')
  {
    if f.None? then 0.0
    else
      TrimEmptyIffBlank(f.value);
      if Trim(f.value) == "" then 0.0
      else
        TrimReplaceFirst(f.value);
        ReplaceSeparator(Trim(f.value));
        ParseFloat(ReplaceFirst(f.value, ',', '.'))
  }

  /** A comma number from its sign, whole-unit digits and fraction digits. */
  function CommaNumber(neg: bool, units: string, frac: string): string {
    Compose(neg, units, "," + frac)
  }

  /** An amount of `c` cents as the bank writes it: `-1234,05`. */
  function AmountText(c: int): string {
    var a := if c < 0 then -c else c;
    CommaNumber(c < 0, NatDigits(a / 100), PaddedDigits(a % 100, 2))
  }

  /** A comma number splits back into its sign, units and fraction. */
  lemma CommaNumberParts(neg: bool, units: string, frac: string)
    requires |units| >= 1 && AllDigits(units) && AllDigits(frac)
    ensures NumberSyntax(CommaNumber(neg, units, frac), ',')
    ensures NumberParts(CommaNumber(neg, units, frac), ',') == (neg, units, frac)
  {
    ComposeParts(neg, units, ',', frac, "," + frac);
  }

  /** A comma number with a digit at its end has no surrounding whitespace and is not blank. */
  lemma CommaNumberTrimmed(neg: bool, units: string, frac: string)
    requires |units| >= 1 && AllDigits(units) && |frac| >= 1 && AllDigits(frac)
    ensures Trim(CommaNumber(neg, units, frac)) == CommaNumber(neg, units, frac)
    ensures !IsBlank(CommaNumber(neg, units, frac))
  {
    var t := CommaNumber(neg, units, frac);
    assert !IsSpace(t[0]) by {
      assert t[0] == '-' || t[0] == units[0];
      assert IsDigit(units[0]);
    }
    assert !IsSpace(t[|t| - 1]) by {
      assert t[|t| - 1] == frac[|frac| - 1];
      assert IsDigit(frac[|frac| - 1]);
    }
    assert TrimStart(t) == t;
    assert TrimEnd(t) == t;
  }

  /** Whole units and two cent digits make the amount in cents over 100. */
  lemma CentsValue(neg: bool, a: nat)
    ensures PartsValue((neg, NatDigits(a / 100), PaddedDigits(a % 100, 2)))
         == (if neg then -(a as real) else a as real) / 100.0
  {
    var q, r := a / 100, a % 100;
    assert Pow10(2) == 100;
    assert a as real == 100.0 * q as real + r as real;
  }

  /** `parseNumber` reads a comma number as its parts say. */
  lemma ParseCommaNumber(neg: bool, units: string, frac: string)
    requires |units| >= 1 && AllDigits(units) && |frac| >= 1 && AllDigits(frac)
    ensures NumberField(Some(CommaNumber(neg, units, frac)))
    ensures ParseNumber(Some(CommaNumber(neg, units, frac))) == PartsValue((neg, units, frac))
  {
    CommaNumberParts(neg, units, frac);
    CommaNumberTrimmed(neg, units, frac);
    ParseTrimmedNumber(CommaNumber(neg, units, frac));
  }

  lemma ParseTrimmedNumber(t: string)
    requires NumberSyntax(t, ',') && Trim(t) == t && !IsBlank(t)
    ensures NumberField(Some(t))
    ensures ParseNumber(Some(t)) == NumberValue(t, ',')
  {
  }

  /** Reading back a written amount gives its exact value. */
  lemma ParseAmountText(c: int)
    ensures NumberField(Some(AmountText(c)))
    ensures ParseNumber(Some(AmountText(c))) == c as real / 100.0
  {
    var a := if c < 0 then -c else c;
    ParseCommaNumber(c < 0, NatDigits(a / 100), PaddedDigits(a % 100, 2));
    CentsValue(c < 0, a);
  }

  // ---------------------------------------------------------------------------
  // Dates

  /** The longest run of at most `max` digits at the front of `s`, and what follows. */
  function LeadingDigits(s: string, max: nat): (r: (string, string))
    ensures r.0 + r.1 == s && |r.0| <= max && AllDigits(r.0)
    ensures |r.0| < max ==> r.1 == [] || !IsDigit(r.1[0])
  {
    if max == 0 || s == [] || !IsDigit(s[0]) then ("", s)
    else
      var t := LeadingDigits(s[1..], max - 1);
      var d := [s[0]] + t.0;
      assert d + t.1 == [s[0]] + (t.0 + t.1) == s;
      assert AllDigits(d) by {
        forall i | 0 <= i < |d| ensures IsDigit(d[i]) {
          if i > 0 {
            assert d[i] == t.0[i - 1];
          }
        }
      }
      (d, t.1)
  }

  /**
   * `parse(s, 'dd-MM-yyyy', new Date())`: one or two digits of day, `-`, one or
   * two of month, `-`, one to four of year, then nothing but whitespace; the
   * year must be positive and the day must exist in that month.
   */
  function ParseDate(s: string): (r: Option<Date>)
    ensures r.Some? ==> ValidDate(r.value) && 1 <= r.value.year <= 9999
  {
    var (dd, r1) := LeadingDigits(s, 2);
    if dd == "" || r1 == [] || r1[0] != '-' then None
    else
      var (mm, r2) := LeadingDigits(r1[1..], 2);
      if mm == "" || r2 == [] || r2[0] != '-' then None
      else
        var (yy, r3) := LeadingDigits(r2[1..], 4);
        if yy == "" || !IsBlank(r3) then None
        else
          assert DigitsValue(yy) < 10000 by { DigitsBound(yy); }
          Checked(Date(DigitsValue(yy), DigitsValue(mm), DigitsValue(dd)))
  }

  /** The calendar check `parse` makes on the fields it read. */
  function Checked(d: Date): (r: Option<Date>)
    ensures r.Some? <==> 1 <= d.year && ValidDate(d)
    ensures r.Some? ==> r.value == d
  {
    if 1 <= d.year && ValidDate(d) then Some(d) else None
  }

  lemma {:induction false} DigitsBound(s: string)
    requires AllDigits(s)
    ensures DigitsValue(s) < Pow10(|s|)
  {
    if s != [] {
      DigitsBound(s[..|s| - 1]);
    }
  }

  /** A date written `dd-MM-yyyy` with zero padding. */
  function FormatDate(d: Date): string
    requires 1 <= d.day <= 99 && 1 <= d.month <= 99 && 1 <= d.year <= 9999
  {
    PaddedDigits(d.day, 2) + ("-" + (PaddedDigits(d.month, 2) + ("-" + PaddedDigits(d.year, 4))))
  }

  lemma {:induction false} LeadingDigitsExact(a: string, rest: string, w: nat)
    requires AllDigits(a) && |a| <= w
    requires |a| == w || rest == [] || !IsDigit(rest[0])
    ensures LeadingDigits(a + rest, w) == (a, rest)
  {
    if a != [] {
      assert (a + rest)[1..] == a[1..] + rest;
      LeadingDigitsExact(a[1..], rest, w - 1);
      assert [a[0]] + a[1..] == a;
    } else {
      assert a + rest == rest;
    }
  }

  /** Text made of a day, a month and a year field and trailing blanks is read field by field. */
  lemma ParseDateFields(dd: string, mm: string, yy: string, rest: string)
    requires AllDigits(dd) && 1 <= |dd| <= 2 && AllDigits(mm) && 1 <= |mm| <= 2
    requires AllDigits(yy) && 1 <= |yy| <= 4 && IsBlank(rest)
    ensures ParseDate(dd + ("-" + (mm + ("-" + (yy + rest)))))
         == Checked(Date(DigitsValue(yy), DigitsValue(mm), DigitsValue(dd)))
  {
    var r2 := "-" + (yy + rest);
    var r1 := "-" + (mm + r2);
    LeadingDigitsExact(dd, r1, 2);
    DropDash(mm + r2);
    LeadingDigitsExact(mm, r2, 2);
    DropDash(yy + rest);
    assert rest != [] ==> IsSpace(rest[0]);
    LeadingDigitsExact(yy, rest, 4);
  }

  lemma DropDash(x: string)
    ensures ("-" + x)[1..] == x
  {
  }

  /**
   * A zero-padded `dd-MM-yyyy` text parses back to its date exactly when that
   * date exists in the calendar: 30-02-2024 is rejected, 29-02-2024 is not.
   */
  lemma ParseFormatDate(d: Date)
    requires 1 <= d.day <= 99 && 1 <= d.month <= 99 && 1 <= d.year <= 9999
    ensures ParseDate(FormatDate(d)) == if ValidDate(d) then Some(d) else None
  {
    var dd, mm, yy := PaddedDigits(d.day, 2), PaddedDigits(d.month, 2), PaddedDigits(d.year, 4);
    assert yy + "" == yy;
    ParseDateFields(dd, mm, yy, "");
  }

  /** A year-first or slash-separated date is not accepted. */
  lemma ParseDateRejectsOtherLayouts()
    ensures ParseDate("2024-03-05") == None
    ensures ParseDate("05/03/2024") == None
  {
    assert "2024-03-05" == "20" + "24-03-05";
    LeadingDigitsExact("20", "24-03-05", 2);
    assert "05/03/2024" == "05" + "/03/2024";
    LeadingDigitsExact("05", "/03/2024", 2);
  }

  /** A date cell: `undefined` never parses. */
  function DateField(f: Option<string>): Option<Date> {
    if f.None? then None else ParseDate(f.value)
  }

  // ---------------------------------------------------------------------------
  // Records

  /** `raw[name]?.trim() || dflt`. */
  function TextField(raw: RawRow, name: string, dflt: string): (r: string)
    ensures name !in raw || IsBlank(raw[name]) ==> r == dflt
    ensures name in raw && !IsBlank(raw[name]) ==> r == Trim(raw[name]) && r != ""
  {
    if name !in raw then dflt
    else
      TrimEmptyIffBlank(raw[name]);
      if Trim(raw[name]) == "" then dflt else Trim(raw[name])
  }

  /** The amount cells of a row are readable numbers. */
  predicate NumbersReadable(raw: RawRow) {
    NumberField(Field(raw, "Importe")) && NumberField(Field(raw, "Saldo"))
  }

  /**
   * `mapRawToTransaction`, with an unreadable posted date (an Invalid Date,
   * which the next step drops) as `None`.
   */
  function MapRaw(raw: RawRow): (t: Option<Transaction>)
    requires NumbersReadable(raw)
    ensures t.Some? <==> DateField(Field(raw, "Fecha contable")).Some?
    ensures t.Some? ==> ValidDate(t.value.fechaContable) && t.value.categoria != ""
    ensures t.Some? ==> t.value.importe == ParseNumber(Field(raw, "Importe"))
    ensures t.Some? ==> t.value.saldo == ParseNumber(Field(raw, "Saldo"))
    ensures t.Some? ==> t.value.fechaContable == DateField(Field(raw, "Fecha contable")).value
    ensures t.Some? ==> t.value.fechaValor == DateField(Field(raw, "Fecha valor"))
    ensures t.Some? ==> t.value.categoria == TextField(raw, "Categoria", Uncategorized)
    ensures t.Some? ==> t.value.concepto == TextField(raw, "Concepto", "")
    ensures t.Some? ==> t.value.moneda == TextField(raw, "Moneda", "")
    ensures t.Some? ==> t.value.conceptoAmpliado == TextField(raw, "Concepto ampliado", "")
    ensures t.Some? ==> t.value.subcategoria == TextField(raw, "Subcategoria", "")
    ensures t.Some? ==> t.value.cuenta == TextField(raw, "cuenta", "")
  {
    match DateField(Field(raw, "Fecha contable"))
    case None => None
    case Some(fecha) =>
      Some(Transaction(
        fechaContable := fecha,
        fechaValor := DateField(Field(raw, "Fecha valor")),
        concepto := TextField(raw, "Concepto", ""),
        importe := ParseNumber(Field(raw, "Importe")),
        moneda := TextField(raw, "Moneda", ""),
        saldo := ParseNumber(Field(raw, "Saldo")),
        conceptoAmpliado := TextField(raw, "Concepto ampliado", ""),
        categoria := TextField(raw, "Categoria", Uncategorized),
        subcategoria := TextField(raw, "Subcategoria", ""),
        cuenta := TextField(raw, "cuenta", "")))
  }

  /** `row['Fecha contable'] && row['Importe'] !== undefined`: a blank amount passes, a missing one does not. */
  predicate Complete(raw: RawRow) {
    "Fecha contable" in raw && raw["Fecha contable"] != "" && "Importe" in raw
  }

  /** The tokeniser's rows are acceptable input when every complete row has readable amounts. */
  predicate ReadableRows(rows: seq<RawRow>) {
    forall r | r in rows :: Complete(r) ==> NumbersReadable(r)
  }

  /** `.map(mapRawToTransaction)` over the complete rows. */
  function MapRows(rows: seq<RawRow>): (ms: seq<Option<Transaction>>)
    requires forall r | r in rows :: NumbersReadable(r)
    ensures |ms| == |rows|
    ensures forall i :: 0 <= i < |rows| ==> ms[i] == MapRaw(rows[i])
  {
    seq(|rows|, i requires 0 <= i < |rows| => MapRaw(rows[i]))
  }

  /** `.filter(t => !isNaN(t.fechaContable.getTime()))`: the rows whose date parsed. */
  function Somes<T>(ms: seq<Option<T>>): (r: seq<T>)
    ensures |r| <= |ms|
    ensures (forall i :: 0 <= i < |ms| ==> ms[i].Some?) ==>
      |r| == |ms| && forall i :: 0 <= i < |ms| ==> r[i] == ms[i].value
  {
    if ms == [] then []
    else
      assert forall i :: 0 <= i < |ms| - 1 ==> ms[..|ms| - 1][i] == ms[i];
      Somes(ms[..|ms| - 1]) + (if ms[|ms| - 1].Some? then [ms[|ms| - 1].value] else [])
  }

  /**
   * The filter works entry by entry: a `Some` gives its value, a `None`
   * nothing, and the results of consecutive parts follow one another, so
   * every movement is kept as often as it occurs and in its place.
   */
  lemma {:induction false} SomesAppend<T>(a: seq<Option<T>>, b: seq<Option<T>>)
    ensures Somes(a + b) == Somes(a) + Somes(b)
    decreases |b|
  {
    if b == [] {
      assert a + b == a;
    } else {
      assert (a + b)[..|a + b| - 1] == a + b[..|b| - 1];
      SomesAppend(a, b[..|b| - 1]);
    }
  }

  lemma SomesSingle<T>(m: Option<T>)
    ensures Somes([m]) == if m.Some? then [m.value] else []
  {
    assert [m][..0] == [];
  }

  lemma {:induction false} SomesMembership<T>(ms: seq<Option<T>>, x: T)
    ensures x in Somes(ms) <==> Some(x) in ms
  {
    if ms != [] {
      var init := ms[..|ms| - 1];
      SomesMembership(init, x);
      assert ms == init + [ms[|ms| - 1]];
    }
  }

  /** The filter → map → filter chain of `parseCSVContent`, before sorting. */
  function Kept(rows: seq<RawRow>): seq<Transaction>
    requires ReadableRows(rows)
  {
    Somes(MapRows(Filter(rows, Complete)))
  }

  /**
   * What survives the chain: exactly the mapped complete rows whose posted date
   * parsed, each with a valid date, and no more of them than there were rows.
   */
  lemma KeptSpec(rows: seq<RawRow>)
    requires ReadableRows(rows)
    ensures |Kept(rows)| <= |rows|
    ensures forall t | t in Kept(rows) :: ValidDate(t.fechaContable)
    ensures forall t :: t in Kept(rows) <==> exists r :: r in rows && Complete(r) && MapRaw(r) == Some(t)
  {
    var complete := Filter(rows, Complete);
    var ms := MapRows(complete);
    forall t ensures t in Kept(rows) <==> exists r :: r in rows && Complete(r) && MapRaw(r) == Some(t) {
      SomesMembership(ms, t);
      if t in Kept(rows) {
        var i :| 0 <= i < |ms| && ms[i] == Some(t);
        assert complete[i] in complete;
      } else {
        forall r | r in rows && Complete(r) ensures MapRaw(r) != Some(t) {
          var i :| 0 <= i < |complete| && complete[i] == r;
          assert ms[i] == MapRaw(r);
        }
      }
    }
  }

  // ---------------------------------------------------------------------------
  // The in-place sort

  /** Most recent first: non-increasing posted dates. */
  predicate NewestFirst(s: seq<Transaction>) {
    forall i, j :: 0 <= i < j < |s| ==> Key(s[j]) <= Key(s[i])
  }

  /** The sort key of the comparator `b - a`: a later posted date sorts earlier. */
  function NewestKey(t: Transaction): real {
    -(Key(t) as real)
  }

  /** Newest first is ascending order of `NewestKey`. */
  lemma NewestFirstSorted(s: seq<Transaction>)
    ensures NewestFirst(s) <==> SortedBy(s, NewestKey)
  {
  }

  /**
   * `transactions.sort((a, b) => b.fechaContable.getTime() - a.fechaContable.getTime())`,
   * as a stable insertion sort on the array: movements posted on the same day
   * keep their order, so the result is the stable sort of the input.
   */
  method SortNewestFirst(a: array<Transaction>)
    modifies a
    ensures NewestFirst(a[..])
    ensures multiset(a[..]) == multiset(old(a[..]))
    ensures SameKeyOrder(a[..], old(a[..]), NewestKey)
    ensures a[..] == SortBy(old(a[..]), NewestKey)
  {
    if a.Length == 0 {
      return;
    }
    var i := 1;
    while i < a.Length
      invariant 1 <= i <= a.Length
      invariant NewestFirst(a[..i])
      invariant multiset(a[..]) == multiset(old(a[..]))
      invariant SameKeyOrder(a[..], old(a[..]), NewestKey)
    {
      ghost var before := a[..];
      InsertNewest(a, i);
      SameKeyOrderTrans(a[..], before, old(a[..]), NewestKey);
      i := i + 1;
    }
    assert a[..] == a[..a.Length];
    NewestFirstSorted(a[..]);
    SortByKeyOrder(old(a[..]), NewestKey);
    SameKeyOrderSym(SortBy(old(a[..]), NewestKey), old(a[..]), NewestKey);
    SameKeyOrderTrans(a[..], old(a[..]), SortBy(old(a[..]), NewestKey), NewestKey);
    SortedUnique(a[..], SortBy(old(a[..]), NewestKey), NewestKey);
  }

  /** One insertion step: `a[i]` moves down past the older entries just before it. */
  method InsertNewest(a: array<Transaction>, i: nat)
    requires i < a.Length && NewestFirst(a[..i])
    modifies a
    ensures NewestFirst(a[..i + 1])
    ensures a[i + 1..] == old(a[i + 1..])
    ensures multiset(a[..]) == multiset(old(a[..]))
    ensures SameKeyOrder(a[..], old(a[..]), NewestKey)
  {
    var j := i;
    while j > 0 && Key(a[j - 1]) < Key(a[j])
      invariant 0 <= j <= i
      invariant Hole(a[..], i, j)
      invariant a[i + 1..] == old(a[i + 1..])
      invariant multiset(a[..]) == multiset(old(a[..]))
      invariant SameKeyOrder(a[..], old(a[..]), NewestKey)
    {
      ghost var s := a[..];
      a[j - 1], a[j] := a[j], a[j - 1];
      assert a[..] == Swap(s, j);
      assert a[i + 1..] == s[i + 1..];
      SwapHole(s, i, j);
      SwapIsSplice(s, j);
      SwapKeyOrder(s, a[..], j, NewestKey);
      SameKeyOrderTrans(a[..], s, old(a[..]), NewestKey);
      j := j - 1;
    }
    HoleClosed(a[..], i, j);
  }

  /**
   * The state inside an insertion step: `s[..i + 1]` without position `j` is
   * newest first, and everything after `j` up to `i` is older than `s[j]`.
   */
  predicate Hole(s: seq<Transaction>, i: nat, j: nat)
    requires j <= i < |s|
  {
    (forall p, q :: 0 <= p < q <= i && q != j && p != j ==> Key(s[q]) <= Key(s[p]))
    && (forall q :: j < q <= i ==> Key(s[q]) < Key(s[j]))
  }

  function Swap(s: seq<Transaction>, j: nat): (r: seq<Transaction>)
    requires 0 < j < |s|
    ensures |r| == |s| && r[j - 1] == s[j] && r[j] == s[j - 1]
    ensures forall k :: 0 <= k < |s| && k != j && k != j - 1 ==> r[k] == s[k]
    ensures multiset(r) == multiset(s)
  {
    s[j - 1 := s[j]][j := s[j - 1]]
  }

  lemma SwapIsSplice(s: seq<Transaction>, j: nat)
    requires 0 < j < |s|
    ensures Swap(s, j) == s[..j - 1] + [s[j], s[j - 1]] + s[j + 1..]
  {
  }

  lemma SwapHole(s: seq<Transaction>, i: nat, j: nat)
    requires 0 < j <= i < |s| && Hole(s, i, j) && Key(s[j - 1]) < Key(s[j])
    ensures Hole(Swap(s, j), i, j - 1)
  {
  }

  lemma HoleClosed(s: seq<Transaction>, i: nat, j: nat)
    requires j <= i < |s| && Hole(s, i, j) && (j == 0 || Key(s[j]) <= Key(s[j - 1]))
    ensures NewestFirst(s[..i + 1])
  {
  }

  /** A well-formed row: both required cells present and a posted date that parses. */
  predicate WellFormed(raw: RawRow) {
    Complete(raw) && DateField(Field(raw, "Fecha contable")).Some?
  }

  lemma WellFormedReadable(rows: seq<RawRow>)
    requires ReadableRows(rows)
    requires forall i :: 0 <= i < |rows| ==> WellFormed(rows[i])
    ensures forall i :: 0 <= i < |rows| ==> WellFormed(rows[i]) && NumbersReadable(rows[i])
  {
    forall i | 0 <= i < |rows| ensures NumbersReadable(rows[i]) {
      assert rows[i] in rows;
    }
  }

  /**
   * Well-formed rows give one movement each, in their order: none is dropped
   * and two equal rows give two equal movements.
   */
  lemma KeptAllRows(rows: seq<RawRow>)
    requires ReadableRows(rows)
    requires forall i :: 0 <= i < |rows| ==> WellFormed(rows[i]) && NumbersReadable(rows[i])
    ensures |Kept(rows)| == |rows|
    ensures forall i :: 0 <= i < |rows| ==> MapRaw(rows[i]).Some? && Kept(rows)[i] == MapRaw(rows[i]).value
  {
    FilterAll(rows, Complete);
    var ms := MapRows(rows);
    assert forall i :: 0 <= i < |ms| ==> ms[i].Some? by {
      forall i | 0 <= i < |ms| ensures ms[i].Some? {
        assert rows[i] in rows;
      }
    }
  }

  /** Nothing is lost from well-formed rows. */
  lemma KeptAllCount(rows: seq<RawRow>)
    requires ReadableRows(rows)
    ensures (forall i :: 0 <= i < |rows| ==> WellFormed(rows[i])) ==> |Kept(rows)| == |rows|
  {
    if forall i :: 0 <= i < |rows| ==> WellFormed(rows[i]) {
      WellFormedReadable(rows);
      KeptAllRows(rows);
    }
  }

  /**
   * `parseCSVContent` from the tokenised rows on: the kept transactions, most
   * recent first.
   */
  method ParseCsvContent(rows: seq<RawRow>) returns (ts: seq<Transaction>)
    requires ReadableRows(rows)
    ensures NewestFirst(ts)
    ensures multiset(ts) == multiset(Kept(rows))
    ensures ts == SortBy(Kept(rows), NewestKey)
    ensures |ts| == |Kept(rows)| <= |rows|
    ensures (forall i :: 0 <= i < |rows| ==> WellFormed(rows[i])) ==> |ts| == |rows|
    ensures forall t | t in ts :: ValidDate(t.fechaContable)
  {
    var kept := Kept(rows);
    KeptSpec(rows);
    var a := new Transaction[|kept|](i requires 0 <= i < |kept| => kept[i]);
    assert a[..] == kept;
    SortNewestFirst(a);
    ts := a[..];
    assert |ts| == |multiset(ts)| == |multiset(kept)| == |kept|;
    forall t | t in ts ensures ValidDate(t.fechaContable) {
      assert t in multiset(ts);
    }
    KeptAllCount(rows);
  }
}
