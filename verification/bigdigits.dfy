/** The big-digits command: prints its numeral argument as seven rows of
    ASCII-art glyphs, one glyph per digit, or stops with a fatal error when
    the argument holds anything but decimal digits. */
module BigDigits {
  import opened Wrappers

  /** Go strings are indexed by byte. */
  type Byte = b: int | 0 <= b < 0x100

  /** The glyph table `bigDigits`: seven rows per digit. */
  const Glyphs: seq<seq<string>> := [
    ["  000  ", " 0   0 ", "0     0", "0     0", "0     0", " 0   0 ", "  000  "],
    [" 1 ", "11 ", " 1 ", " 1 ", " 1 ", " 1 ", "111"],
    [" 222 ", "2   2", "   2 ", "  2  ", " 2   ", "2    ", "22222"],
    [" 333 ", "3   3", "    3", "  33 ", "    3", "3   3", " 333 "],
    ["   4  ", "  44  ", " 4 4  ", "4  4  ", "444444", "   4  ", "   4  "],
    ["55555", "5    ", "5    ", " 555 ", "    5", "5   5", " 555 "],
    [" 666 ", "6    ", "6    ", "6666 ", "6   6", "6   6", " 666 "],
    ["77777", "    7", "   7 ", "  7  ", " 7   ", "7    ", "7    "],
    [" 888 ", "8   8", "8   8", " 888 ", "8   8", "8   8", " 888 "],
    [" 9999", "9   9", "9   9", " 9999", "    9", "    9", "    9"]
  ]

  /** The number of output lines: the rows of `bigDigits[0]`. */
  const Rows: nat := 7

  /** The width of a glyph, in characters. */
  const Widths: seq<nat> := [7, 3, 5, 5, 6, 5, 5, 5, 5, 5]

  /** The column separator appended after every glyph row. */
  const Gap: string := "  "

  /** Ten glyphs, each `Rows` rows high. */
  predicate IsTable(t: seq<seq<string>>) {
    |t| == 10 && forall d :: 0 <= d < 10 ==> |t[d]| == Rows
  }

  /** Every row of a glyph is as wide as its first row. */
  predicate Rectangular(t: seq<seq<string>>)
    requires IsTable(t)
  {
    forall d, r :: 0 <= d < 10 && 0 <= r < Rows ==> |t[d][r]| == |t[d][0]|
  }

  /** The shipped table has ten glyphs of seven rows, and all rows of one
      glyph have the same width. */
  lemma GlyphTableShape()
    ensures IsTable(Glyphs) && Rectangular(Glyphs)
    ensures forall d :: 0 <= d < 10 ==> |Glyphs[d][0]| == Widths[d]
  {
  }

  /** `stringOfDigits[column] - '0'` in Go's wrapping `uint8` arithmetic. */
  function DigitOf(b: Byte): Byte {
    (b - '0' as int) % 0x100
  }

  /** The test `0 <= digit && digit <= 9`; the first half always holds for a
      `uint8`, so only the upper bound rejects. */
  predicate Accepts(b: Byte) {
    0 <= DigitOf(b) && DigitOf(b) <= 9
  }

  /** Wrap-around cannot sneak a non-digit past the test: a byte is accepted
      exactly when it is one of `'0'`..`'9'`, and then it denotes its digit. */
  lemma AcceptsOnlyDigits(b: Byte)
    ensures Accepts(b) <==> '0' as int <= b <= '9' as int
    ensures Accepts(b) ==> DigitOf(b) == b - '0' as int
  {
  }

  predicate IsNumeral(s: seq<Byte>) {
    forall i :: 0 <= i < |s| ==> '0' as int <= s[i] <= '9' as int
  }

  /** Row `row` of the output for table `t`: each digit's glyph row followed
      by the gap, in input order. */
  function Line(t: seq<seq<string>>, s: seq<Byte>, row: nat): string
    requires IsTable(t) && row < Rows && IsNumeral(s)
  {
    if s == [] then ""
    else Line(t, s[..|s| - 1], row) + Cell(t, s[|s| - 1], row)
  }

  /** One digit's share of a row: its glyph row and the gap. */
  function Cell(t: seq<seq<string>>, b: Byte, row: nat): string
    requires IsTable(t) && row < Rows && '0' as int <= b <= '9' as int
  {
    t[b - '0' as int][row] + Gap
  }

  /** The width every output line has: glyph widths plus the gaps. */
  function LineWidth(t: seq<seq<string>>, s: seq<Byte>): nat
    requires IsTable(t) && IsNumeral(s)
  {
    if s == [] then 0
    else LineWidth(t, s[..|s| - 1]) + |t[s[|s| - 1] - '0' as int][0]| + |Gap|
  }

  datatype Error =
    | Usage               // no argument: usage message, exit status 1
    | InvalidWholeNumber  // `log.Fatal("invalid whole number")`

  /** The seven lines the command prints for `s`, or the fatal error. */
  function Render(s: seq<Byte>): (r: Result<seq<string>, Error>)
    ensures r.Success? <==> IsNumeral(s)
    ensures r.Failure? ==> r.error == InvalidWholeNumber
    ensures r.Success? ==> |r.value| == Rows
  {
    GlyphTableShape();
    if IsNumeral(s) then Success(seq(Rows, row requires 0 <= row < Rows => Line(Glyphs, s, row)))
    else Failure(InvalidWholeNumber)
  }

  /** The command on its argument vector (`os.Args`, program name first). */
  function Command(args: seq<seq<Byte>>): (r: Result<seq<string>, Error>)
    requires |args| >= 1
    ensures |args| == 1 <==> r == Failure(Usage)
    ensures |args| > 1 ==> r == Render(args[1])
  {
    if |args| == 1 then Failure(Usage) else Render(args[1])
  }

  /** The body of `main` once an argument is present: builds each row
      column by column and prints it, or stops at the first byte the test
      rejects. Rejection always happens while the first row is being built,
      so nothing has been printed by then. */
  method PrintRows(s: seq<Byte>) returns (printed: seq<string>, fatal: Option<string>)
    ensures fatal.Some? <==> !IsNumeral(s)
    ensures fatal.Some? ==> printed == [] && fatal.value == "invalid whole number"
    ensures fatal.None? ==> Render(s) == Success(printed)
  {
    GlyphTableShape();
    printed, fatal := PrintRowsWith(Glyphs, s);
    if fatal.None? {
      var lines := Render(s).value;
      assert forall r :: 0 <= r < Rows ==> lines[r] == printed[r];
      assert lines == printed;
    }
  }

  /** `PrintRows` over any table of ten seven-row glyphs. */
  method PrintRowsWith(t: seq<seq<string>>, s: seq<Byte>) returns (printed: seq<string>, fatal: Option<string>)
    requires IsTable(t)
    ensures fatal.Some? <==> !IsNumeral(s)
    ensures fatal.Some? ==> printed == [] && fatal.value == "invalid whole number"
    ensures fatal.None? ==> |printed| == Rows && forall r :: 0 <= r < Rows ==> printed[r] == Line(t, s, r)
  {
    printed := [];
    fatal := None;
    for row := 0 to |t[0]|
      invariant row > 0 ==> IsNumeral(s)
      invariant |printed| == row
      invariant row > 0 ==> forall r :: 0 <= r < row ==> printed[r] == Line(t, s, r)
    {
      var line, ok := BuildLine(t, s, row);
      if !ok {
        fatal := Some("invalid whole number");
        return;
      }
      printed := printed + [line];
    }
  }

  /** The inner loop of `main`: one row, column by column; `ok` is false when
      it met a byte the test rejects (where `main` calls `log.Fatal`). */
  method BuildLine(t: seq<seq<string>>, s: seq<Byte>, row: nat) returns (line: string, ok: bool)
    requires IsTable(t) && row < Rows
    ensures ok <==> IsNumeral(s)
    ensures ok ==> line == Line(t, s, row)
  {
    line := "";
    for column := 0 to |s|
      invariant IsNumeral(s[..column])
      invariant line == Line(t, s[..column], row)
    {
      var digit := DigitOf(s[column]);
      AcceptsOnlyDigits(s[column]);
      if 0 <= digit && digit <= 9 {
        assert s[..column + 1] == s[..column] + [s[column]];
        LineSnoc(t, s[..column], s[column], row);
        line := line + t[digit][row] + Gap;
      } else {
        return line, false;
      }
    }
    assert s[..|s|] == s;
    return line, true;
  }

  /** With a rectangular table every row of the output is exactly as wide as
      the glyphs and gaps of the input digits. */
  lemma {:induction false} LineHasWidth(t: seq<seq<string>>, s: seq<Byte>, row: nat)
    requires IsTable(t) && Rectangular(t) && row < Rows && IsNumeral(s)
    ensures |Line(t, s, row)| == LineWidth(t, s)
  {
    if s != [] {
      LineHasWidth(t, s[..|s| - 1], row);
    }
  }

  /** The sum of the shipped glyph widths plus two per digit. */
  function NumeralWidth(s: seq<Byte>): nat
    requires IsNumeral(s)
  {
    if s == [] then 0 else NumeralWidth(s[..|s| - 1]) + Widths[s[|s| - 1] - '0' as int] + |Gap|
  }

  lemma {:induction false} TableLineWidth(t: seq<seq<string>>, s: seq<Byte>)
    requires IsTable(t) && IsNumeral(s)
    requires forall d :: 0 <= d < 10 ==> |t[d][0]| == Widths[d]
    ensures LineWidth(t, s) == NumeralWidth(s)
  {
    if s != [] {
      TableLineWidth(t, s[..|s| - 1]);
    }
  }

  /** For a numeral, all seven lines have the same length: the sum of the
      glyph widths plus two per digit. */
  lemma RenderLinesEqualWidth(s: seq<Byte>)
    requires IsNumeral(s)
    ensures forall row :: 0 <= row < Rows ==> |Render(s).value[row]| == NumeralWidth(s)
  {
    GlyphTableShape();
    TableLineWidth(Glyphs, s);
    forall row | 0 <= row < Rows
      ensures |Render(s).value[row]| == NumeralWidth(s)
    {
      LineHasWidth(Glyphs, s, row);
    }
  }

  /** Appending one digit appends its cell to every row. */
  lemma LineSnoc(t: seq<seq<string>>, s: seq<Byte>, x: Byte, row: nat)
    requires IsTable(t) && row < Rows && IsNumeral(s) && '0' as int <= x <= '9' as int
    ensures IsNumeral(s + [x])
    ensures Line(t, s + [x], row) == Line(t, s, row) + Cell(t, x, row)
  {
    assert (s + [x])[..|s|] == s;
  }

  /** Rendering a concatenation places the second part's glyphs after the
      first part's, row by row. */
  lemma {:induction false} LineConcat(t: seq<seq<string>>, a: seq<Byte>, b: seq<Byte>, row: nat)
    requires IsTable(t) && row < Rows && IsNumeral(a) && IsNumeral(b)
    ensures IsNumeral(a + b)
    ensures Line(t, a + b, row) == Line(t, a, row) + Line(t, b, row)
  {
    if b == [] {
      assert a + b == a;
    } else {
      var b', last := b[..|b| - 1], b[|b| - 1];
      assert b == b' + [last];
      assert a + b == (a + b') + [last];
      LineConcat(t, a, b', row);
      LineSnoc(t, a + b', last, row);
      LineSnoc(t, b', last, row);
    }
  }

  /** Column `c` of row `row` is the glyph row of the `c`-th input digit
      followed by the gap, at the offset the earlier digits take up. */
  lemma LineColumn(t: seq<seq<string>>, s: seq<Byte>, c: nat, row: nat)
    requires IsTable(t) && Rectangular(t) && row < Rows && IsNumeral(s) && c < |s|
    ensures LineWidth(t, s[..c]) + |Cell(t, s[c], row)| <= |Line(t, s, row)|
    ensures Line(t, s, row)[LineWidth(t, s[..c])..LineWidth(t, s[..c]) + |Cell(t, s[c], row)|] == Cell(t, s[c], row)
  {
    var pre, cell, post := s[..c], s[c..c + 1], s[c + 1..];
    assert s == pre + cell + post;
    LineConcat(t, pre, cell, row);
    LineConcat(t, pre + cell, post, row);
    assert Line(t, cell, row) == Cell(t, s[c], row) by {
      assert cell[..0] == [];
    }
    LineHasWidth(t, pre, row);
    var x, y, z := Line(t, pre, row), Cell(t, s[c], row), Line(t, post, row);
    assert Line(t, s, row) == x + y + z;
    assert (x + y + z)[|x|..|x| + |y|] == y;
  }

  /** An empty argument prints seven empty lines. */
  lemma EmptyInputRendersBlankLines()
    ensures Render([]) == Success(["", "", "", "", "", "", ""])
  {
    GlyphTableShape();
    var lines := Render([]).value;
    assert forall row :: 0 <= row < Rows ==> lines[row] == Line(Glyphs, [], row) == "";
    assert lines == ["", "", "", "", "", "", ""];
  }
}
