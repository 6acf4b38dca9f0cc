/** The CSV reader of the bulk import, and which files it reads back as written. */
module Csv {

  const BOM: char := '\U{FEFF}'

  // ----- the reader -----

  /** What the reader has so far: finished records, the open record, the open field. */
  datatype Reader = Reader(rows: seq<seq<string>>, row: seq<string>, field: string, inQuotes: bool)

  function EndField(r: Reader): Reader {
    r.(row := r.row + [r.field], field := "")
  }

  function EndRecord(r: Reader): Reader {
    Reader(r.rows + [r.row + [r.field]], [], "", r.inQuotes)
  }

  function Add(r: Reader, ch: char): Reader {
    r.(field := r.field + [ch])
  }

  /** The reader after the rest of the text. */
  function Scan(text: string, r: Reader): Reader {
    if text == "" then r
    else
      var ch, rest := text[0], text[1..];
      if r.inQuotes then
        if ch == '"' then
          if rest != "" && rest[0] == '"' then Scan(rest[1..], Add(r, '"')) else Scan(rest, r.(inQuotes := false))
        else Scan(rest, Add(r, ch))
      else if ch == '"' then Scan(rest, r.(inQuotes := true))
      else if ch == ',' then Scan(rest, EndField(r))
      else if ch == '\r' then Scan(rest, r)
      else if ch == '\n' then Scan(rest, EndRecord(r))
      else Scan(rest, Add(r, ch))
  }

  const START := Reader([], [], "", false)

  function Flush(r: Reader): seq<seq<string>> {
    if r.field != "" || r.row != [] then r.rows + [r.row + [r.field]] else r.rows
  }

  function StripBom(text: string): string {
    if text != "" && text[0] == BOM then text[1..] else text
  }

  function Parse(text: string): seq<seq<string>> {
    Flush(Scan(StripBom(text), START))
  }

  method ParseCsv(text: string) returns (rows: seq<seq<string>>)
    ensures rows == Parse(text)
  {
    rows := [];
    var row: seq<string> := [];
    var field := "";
    var inQuotes := false;
    var src := if |text| > 0 && text[0] == BOM then text[1..] else text;
    var i := 0;
    while i < |src|
      invariant i <= |src|
      invariant Scan(src[i..], Reader(rows, row, field, inQuotes)) == Scan(src, START)
    {
      var ch := src[i];
      assert src[i..][1..] == src[i + 1..];
      if inQuotes {
        if ch == '"' {
          if i + 1 < |src| && src[i + 1] == '"' {
            assert src[i + 1..][1..] == src[i + 2..];
            field := field + ['"'];
            i := i + 1;
          } else {
            inQuotes := false;
          }
        } else {
          field := field + [ch];
        }
        i := i + 1;
        continue;
      }
      if ch == '"' {
        inQuotes := true;
      } else if ch == ',' {
        row := row + [field];
        field := "";
      } else if ch == '\r' {
      } else if ch == '\n' {
        row := row + [field];
        rows := rows + [row];
        row := [];
        field := "";
      } else {
        field := field + [ch];
      }
      i := i + 1;
    }
    if |field| > 0 || |row| > 0 {
      row := row + [field];
      rows := rows + [row];
    }
  }

  // ----- files as a writer produces them -----

  /** A field written as it is, or between quotes with its quotes doubled. */
  datatype Cell = Bare(text: string) | Quoted(text: string)

  /** A record and its line ending. */
  datatype Line = Line(cells: seq<Cell>, crlf: bool)

  predicate Special(ch: char) {
    ch == ',' || ch == '"' || ch == '\r' || ch == '\n'
  }

  /** Only a field without comma, quote, CR and LF may be bare. */
  predicate CellOk(c: Cell) {
    c.Bare? ==> forall i :: 0 <= i < |c.text| ==> !Special(c.text[i])
  }

  predicate LineOk(line: Line) {
    line.cells != [] && forall i :: 0 <= i < |line.cells| ==> CellOk(line.cells[i])
  }

  predicate FileOk(lines: seq<Line>) {
    forall i :: 0 <= i < |lines| ==> LineOk(lines[i])
  }

  function Doubled(text: string): string {
    if text == "" then "" else (if text[0] == '"' then "\"\"" else [text[0]]) + Doubled(text[1..])
  }

  function WriteCell(c: Cell): string {
    match c
    case Bare(text) => text
    case Quoted(text) => "\"" + Doubled(text) + "\""
  }

  function WriteCells(cells: seq<Cell>): string
    requires cells != []
  {
    if |cells| == 1 then WriteCell(cells[0]) else WriteCell(cells[0]) + "," + WriteCells(cells[1..])
  }

  function Ending(line: Line): string {
    if line.crlf then "\r\n" else "\n"
  }

  /** All records; the last one's line ending is written only if final is set. */
  function Write(lines: seq<Line>, final: bool): string
    requires FileOk(lines)
  {
    if lines == [] then ""
    else if |lines| == 1 && !final then WriteCells(lines[0].cells)
    else WriteCells(lines[0].cells) + Ending(lines[0]) + Write(lines[1..], final)
  }

  function Texts(cells: seq<Cell>): seq<string> {
    seq(|cells|, i requires 0 <= i < |cells| => cells[i].text)
  }

  function Table(lines: seq<Line>): seq<seq<string>> {
    seq(|lines|, i requires 0 <= i < |lines| => Texts(lines[i].cells))
  }

  // ----- reading one field -----

  lemma {:induction false} ScanBare(text: string, rest: string, r: Reader)
    requires !r.inQuotes && CellOk(Bare(text))
    ensures Scan(text + rest, r) == Scan(rest, r.(field := r.field + text))
  {
    if text == "" {
      assert text + rest == rest;
      assert r.field + text == r.field;
    } else {
      assert (text + rest)[1..] == text[1..] + rest;
      ScanBare(text[1..], rest, Add(r, text[0]));
      assert r.field + [text[0]] + text[1..] == r.field + text;
    }
  }

  predicate NotQuote(rest: string) {
    rest != "" ==> rest[0] != '"'
  }

  lemma {:induction false} ScanQuoted(text: string, rest: string, r: Reader)
    requires r.inQuotes && NotQuote(rest)
    ensures Scan(Doubled(text) + "\"" + rest, r) == Scan(rest, r.(field := r.field + text, inQuotes := false))
  {
    var whole := Doubled(text) + "\"" + rest;
    if text == "" {
      assert whole[1..] == rest;
      assert r.field + text == r.field;
    } else {
      var tail := Doubled(text[1..]) + "\"" + rest;
      ScanQuoted(text[1..], rest, Add(r, text[0]));
      assert r.field + [text[0]] + text[1..] == r.field + text;
      if text[0] == '"' {
        assert whole == "\"\"" + tail;
        assert whole[1..][1..] == tail;
      } else {
        assert whole == [text[0]] + tail;
        assert whole[1..] == tail;
      }
    }
  }

  lemma ScanCell(c: Cell, rest: string, r: Reader)
    requires !r.inQuotes && CellOk(c) && NotQuote(rest)
    ensures Scan(WriteCell(c) + rest, r) == Scan(rest, r.(field := r.field + c.text))
  {
    match c
    case Bare(text) =>
      ScanBare(text, rest, r);
    case Quoted(text) =>
      assert WriteCell(c) + rest == "\"" + (Doubled(text) + "\"" + rest);
      assert (WriteCell(c) + rest)[1..] == Doubled(text) + "\"" + rest;
      ScanQuoted(text, rest, r.(inQuotes := true));
      assert r.(inQuotes := true).(field := r.field + text, inQuotes := false) == r.(field := r.field + text);
  }

  lemma {:induction false} WriteFirstCell(cells: seq<Cell>, rest: string)
    requires |cells| > 1
    ensures WriteCells(cells) + rest == WriteCell(cells[0]) + ("," + (WriteCells(cells[1..]) + rest))
  {
  }

  lemma ScanComma(rest: string, r: Reader)
    requires !r.inQuotes
    ensures Scan("," + rest, r) == Scan(rest, EndField(r))
  {
    assert ("," + rest)[1..] == rest;
  }

  lemma ScanFirstCell(cells: seq<Cell>, rest: string, r: Reader)
    requires LineOk(Line(cells, false)) && |cells| > 1 && !r.inQuotes && r.field == ""
    ensures Scan(WriteCells(cells) + rest, r)
      == Scan(WriteCells(cells[1..]) + rest, r.(row := r.row + [cells[0].text]))
  {
    var more := WriteCells(cells[1..]) + rest;
    WriteFirstCell(cells, rest);
    ScanCell(cells[0], "," + more, r);
    assert r.field + cells[0].text == cells[0].text;
    ScanComma(more, r.(field := cells[0].text));
  }

  lemma OneMoreCell(row: seq<string>, cells: seq<Cell>)
    requires |cells| > 1
    ensures var texts, tail, n := Texts(cells), Texts(cells[1..]), |cells| - 1;
      && row + [cells[0].text] + tail[..n - 1] == row + texts[..n] && tail[n - 1] == texts[n]
  {
    assert Texts(cells) == [cells[0].text] + Texts(cells[1..]);
  }

  /** The cells of a record leave all but the last finished, and the last open. */
  lemma {:induction false} ScanCells(cells: seq<Cell>, rest: string, r: Reader)
    requires LineOk(Line(cells, false)) && !r.inQuotes && r.field == "" && NotQuote(rest)
    ensures var texts := Texts(cells); var n := |cells| - 1;
      Scan(WriteCells(cells) + rest, r) == Scan(rest, r.(row := r.row + texts[..n], field := texts[n]))
  {
    var texts, n := Texts(cells), |cells| - 1;
    if n == 0 {
      ScanCell(cells[0], rest, r);
      assert r.field + cells[0].text == cells[0].text;
      assert r.row + texts[..n] == r.row;
    } else {
      ScanFirstCell(cells, rest, r);
      ScanCells(cells[1..], rest, r.(row := r.row + [cells[0].text]));
      OneMoreCell(r.row, cells);
    }
  }

  lemma ScanEnding(line: Line, rest: string, r: Reader)
    requires !r.inQuotes
    ensures Scan(Ending(line) + rest, r) == Scan(rest, EndRecord(r))
  {
    if line.crlf {
      assert ("\r\n" + rest)[1..] == "\n" + rest;
    }
    assert ("\n" + rest)[1..] == rest;
  }

  lemma ScanLine(line: Line, rest: string, r: Reader)
    requires LineOk(line) && !r.inQuotes && r.field == "" && r.row == []
    ensures Scan(WriteCells(line.cells) + Ending(line) + rest, r)
      == Scan(rest, Reader(r.rows + [Texts(line.cells)], [], "", false))
  {
    var texts, n := Texts(line.cells), |line.cells| - 1;
    assert WriteCells(line.cells) + Ending(line) + rest == WriteCells(line.cells) + (Ending(line) + rest);
    ScanCells(line.cells, Ending(line) + rest, r);
    ScanEnding(line, rest, r.(row := r.row + texts[..n], field := texts[n]));
    assert r.row + texts[..n] + [texts[n]] == texts;
  }

  // ----- whole files -----

  /** What is read back: everything, but an unterminated last record that is one empty field. */
  function ReadBack(lines: seq<Line>, final: bool): seq<seq<string>> {
    var table := Table(lines);
    if final || lines == [] || table[|lines| - 1] != [""] then table else table[..|lines| - 1]
  }

  lemma ScanLast(line: Line, r: Reader)
    requires LineOk(line) && !r.inQuotes && r.field == "" && r.row == []
    ensures Flush(Scan(WriteCells(line.cells), r))
      == if Texts(line.cells) == [""] then r.rows else r.rows + [Texts(line.cells)]
  {
    var texts, n := Texts(line.cells), |line.cells| - 1;
    ScanCells(line.cells, "", r);
    assert WriteCells(line.cells) + "" == WriteCells(line.cells);
    assert r.row + texts[..n] + [texts[n]] == texts;
    if n == 0 {
      assert texts == [texts[0]];
    }
  }

  lemma {:induction false} ScanFile(lines: seq<Line>, final: bool, r: Reader)
    requires FileOk(lines) && !r.inQuotes && r.field == "" && r.row == []
    ensures Flush(Scan(Write(lines, final), r)) == r.rows + ReadBack(lines, final)
  {
    if lines == [] {
      assert r.rows + [] == r.rows;
    } else if |lines| == 1 && !final {
      ScanUnterminated(lines[0], r);
      assert lines == [lines[0]];
    } else {
      var first := Texts(lines[0].cells);
      ScanLine(lines[0], Write(lines[1..], final), r);
      ScanFile(lines[1..], final, Reader(r.rows + [first], [], "", false));
      ReadBackTail(lines, final);
      Regroup(r.rows, [first], ReadBack(lines[1..], final));
    }
  }

  lemma Regroup(a: seq<seq<string>>, b: seq<seq<string>>, c: seq<seq<string>>)
    ensures a + b + c == a + (b + c)
  {
  }

  lemma ScanUnterminated(line: Line, r: Reader)
    requires LineOk(line) && !r.inQuotes && r.field == "" && r.row == []
    ensures Flush(Scan(WriteCells(line.cells), r)) == r.rows + ReadBack([line], false)
  {
    ScanLast(line, r);
    assert Table([line]) == [Texts(line.cells)];
    assert Table([line])[..0] == [];
    assert r.rows + [] == r.rows;
  }

  lemma ReadBackTail(lines: seq<Line>, final: bool)
    requires lines != [] && (|lines| > 1 || final)
    ensures ReadBack(lines, final) == [Texts(lines[0].cells)] + ReadBack(lines[1..], final)
  {
    assert Table(lines) == [Texts(lines[0].cells)] + Table(lines[1..]);
  }

  /** The file's first character is a byte order mark. */
  predicate StartsWithBom(lines: seq<Line>) {
    lines != [] && lines[0].cells != [] && lines[0].cells[0].Bare?
    && lines[0].cells[0].text != "" && lines[0].cells[0].text[0] == BOM
  }

  lemma WriteStartsWith(lines: seq<Line>, final: bool)
    requires FileOk(lines)
    ensures var text := Write(lines, final); (text != "" && text[0] == BOM) <==> StartsWithBom(lines)
  {
  }

  /** The same file without the mark. */
  function WithoutMark(lines: seq<Line>): seq<Line>
    requires StartsWithBom(lines)
  {
    var first := lines[0];
    [first.(cells := [Bare(first.cells[0].text[1..])] + first.cells[1..])] + lines[1..]
  }

  lemma WriteWithoutMark(lines: seq<Line>, final: bool)
    requires FileOk(lines) && StartsWithBom(lines)
    ensures FileOk(WithoutMark(lines)) && Write(WithoutMark(lines), final) == Write(lines, final)[1..]
  {
    var bare := WithoutMark(lines);
    assert bare[1..] == lines[1..];
    WriteCellsWithoutMark(lines[0].cells);
    assert LineOk(lines[0]);
    if |lines| > 1 || final {
      RestAfterMark(WriteCells(lines[0].cells), Ending(lines[0]), Write(lines[1..], final));
    }
  }

  lemma RestAfterMark(cells: string, ending: string, rest: string)
    requires cells != ""
    ensures cells[1..] + ending + rest == (cells + ending + rest)[1..]
  {
  }

  lemma WriteCellsWithoutMark(cells: seq<Cell>)
    requires cells != [] && cells[0].Bare? && cells[0].text != ""
    ensures WriteCells(cells) != ""
    ensures WriteCells([Bare(cells[0].text[1..])] + cells[1..]) == WriteCells(cells)[1..]
  {
    assert ([Bare(cells[0].text[1..])] + cells[1..])[1..] == cells[1..];
  }

  /** Exactly what parseCsv returns for any well-formed file. */
  lemma ParseOfWrite(lines: seq<Line>, final: bool)
    requires FileOk(lines)
    ensures Parse(Write(lines, final)) == ReadBack(if StartsWithBom(lines) then WithoutMark(lines) else lines, final)
  {
    WriteStartsWith(lines, final);
    if StartsWithBom(lines) {
      WriteWithoutMark(lines, final);
      ScanFile(WithoutMark(lines), final, START);
    } else {
      ScanFile(lines, final, START);
    }
  }

  /**
   parseCsv returns the records that were written if and only if the file does not start
   with a bare byte order mark and either ends with a line ending or its last record is
   something other than one empty field.
   */
  lemma RoundTrip(lines: seq<Line>, final: bool)
    requires FileOk(lines)
    ensures Parse(Write(lines, final)) == Table(lines)
      <==> !StartsWithBom(lines) && (final || lines == [] || Texts(lines[|lines| - 1].cells) != [""])
  {
    ParseOfWrite(lines, final);
    if StartsWithBom(lines) {
      var bare := WithoutMark(lines);
      assert Table(lines)[0][0] == lines[0].cells[0].text;
      assert Table(bare)[0][0] == lines[0].cells[0].text[1..];
      assert |Table(bare)[0][0]| < |Table(lines)[0][0]|;
    } else {
      assert |ReadBack(lines, final)| == |lines| <==> ReadBack(lines, final) == Table(lines);
    }
  }
}
