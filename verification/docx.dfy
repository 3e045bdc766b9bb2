/** The python-docx path of the Word converter: `_docx_to_markdown` (paragraph
    styles to heading markers, tables to pipe tables), `_extract_docx_metadata`
    and the assembly done by `_convert_docx`. A document is given by what
    python-docx would report about it: its paragraphs as (style name, text)
    pairs, its tables as rows of cell texts, and its core properties. */
module Docx {
  import opened Wrappers
  import opened Strings
  import opened Frontmatter

  datatype Paragraph = Paragraph(style: string, text: string)

  /** The text of the `IndexError` raised by indexing past the end of a list. */
  const IndexErrorText := "list index out of range"

  /** The prefix `_convert_docx` puts before the text of any exception it catches. */
  const DocxFailurePrefix := "Failed to convert DOCX: "

  /** A table as its rows, each row the texts of its cells. */
  datatype Table = Table(rows: seq<seq<string>>)

  /** The text `heading k` searched for in a lower-cased style name. */
  function HeadingTag(k: nat): string
    requires 1 <= k <= 6
  {
    "heading " + [DigitChar(k)]
  }

  /** The first `k` among `from .. 6` whose tag occurs in `style`. */
  function HeadingFrom(style: string, from: nat): (r: Option<nat>)
    requires 1 <= from <= 7
    ensures r.Some? ==>
      && from <= r.value <= 6
      && Contains(style, HeadingTag(r.value))
      && forall j :: from <= j < r.value ==> !Contains(style, HeadingTag(j))
    ensures r.None? ==> forall j :: from <= j <= 6 ==> !Contains(style, HeadingTag(j))
    decreases 7 - from
  {
    if from == 7 then None
    else if Contains(style, HeadingTag(from)) then Some(from)
    else HeadingFrom(style, from + 1)
  }

  /** The heading level a style name gives: the tags are tried in the order
      1 to 6 on the lower-cased name and the first one found wins, so a level
      is returned exactly when some tag occurs, and it is the smallest. */
  function HeadingLevel(style: string): (r: Option<nat>)
    ensures r.Some? ==>
      && 1 <= r.value <= 6
      && Contains(Lower(style), HeadingTag(r.value))
      && forall j :: 1 <= j < r.value ==> !Contains(Lower(style), HeadingTag(j))
    ensures r.None? <==> forall j :: 1 <= j <= 6 ==> !Contains(Lower(style), HeadingTag(j))
  {
    HeadingFrom(Lower(style), 1)
  }

  /** The Markdown line of one paragraph: empty for a blank paragraph, the
      heading marker and the stripped text for a heading, the stripped text
      otherwise. */
  function ParagraphLine(p: Paragraph): string {
    var text := Strip(p.text);
    if text == "" then ""
    else
      match HeadingLevel(p.style)
      case Some(k) => Repeat('#', k) + " " + text
      case None => text
  }

  /** The number of `#` a line starts with. */
  function LeadingHashes(s: string): (n: nat)
    ensures n <= |s|
    ensures n == |s| || s[n] != '#'
  {
    if s != [] && s[0] == '#' then 1 + LeadingHashes(s[1..]) else 0
  }

  /** Reads a Markdown heading line: one to six `#`, a space, the text. */
  function ParseHeading(line: string): Option<(nat, string)> {
    var n := LeadingHashes(line);
    if 1 <= n <= 6 && n < |line| && line[n] == ' ' then Some((n, line[n + 1..])) else None
  }

  lemma {:induction false} LeadingHashesOfRun(k: nat, rest: string)
    requires rest == [] || rest[0] != '#'
    ensures LeadingHashes(Repeat('#', k) + rest) == k
  {
    if k > 0 {
      assert (Repeat('#', k) + rest)[1..] == Repeat('#', k - 1) + rest;
      LeadingHashesOfRun(k - 1, rest);
    }
  }

  /** What a paragraph line means: a blank paragraph gives an empty line; a
      non-blank heading paragraph reads back as its level and its stripped
      text; any other non-blank paragraph gives its stripped text. */
  lemma ParagraphLineMeaning(p: Paragraph)
    ensures AllSpace(p.text) ==> ParagraphLine(p) == ""
    ensures !AllSpace(p.text) && HeadingLevel(p.style).Some? ==>
      ParseHeading(ParagraphLine(p)) == Some((HeadingLevel(p.style).value, Strip(p.text)))
    ensures !AllSpace(p.text) && HeadingLevel(p.style).None? ==> ParagraphLine(p) == Strip(p.text)
  {
    StripSpec(p.text);
    if !AllSpace(p.text) && HeadingLevel(p.style).Some? {
      var k := HeadingLevel(p.style).value;
      var line := Repeat('#', k) + " " + Strip(p.text);
      assert line == Repeat('#', k) + (" " + Strip(p.text));
      LeadingHashesOfRun(k, " " + Strip(p.text));
      assert line[k] == ' ';
      assert line[k + 1..] == Strip(p.text);
    }
  }

  /** The stripped cell texts of a row. */
  function Cells(row: seq<string>): (r: seq<string>)
    ensures |r| == |row| && forall i :: 0 <= i < |row| ==> r[i] == Strip(row[i])
  {
    seq(|row|, i requires 0 <= i < |row| => Strip(row[i]))
  }

  /** A pipe-table line holding the given cell texts. */
  function PipeRow(cells: seq<string>): string {
    "| " + Join(cells, " | ") + " |"
  }

  /** The pipe-table line of a table row. */
  function RowLine(row: seq<string>): string {
    PipeRow(Cells(row))
  }

  /** The line under the header: one `---` per header cell. */
  function SeparatorLine(n: nat): string {
    PipeRow(seq(n, _ => "---"))
  }

  /** The pipe-table lines of consecutive rows. */
  function RowLines(rows: seq<seq<string>>): (r: seq<string>)
    ensures |r| == |rows| && forall i :: 0 <= i < |rows| ==> r[i] == RowLine(rows[i])
  {
    if rows == [] then [] else [RowLine(rows[0])] + RowLines(rows[1..])
  }

  /** The lines of one table, or the `IndexError` python-docx raises when the
      header row `rows[0]` does not exist. A table of `r >= 1` rows takes
      `r + 3` lines: a blank line, the header, the separator, the `r - 1` data
      rows in order, a blank line. */
  function TableLines(t: Table): (r: Result<seq<string>, string>)
    ensures r.Failure? <==> t.rows == []
    ensures r.Failure? ==> r.error == IndexErrorText
    ensures r.Success? ==>
      && |r.value| == |t.rows| + 3
      && r.value[0] == "" && r.value[|r.value| - 1] == ""
      && r.value[1] == RowLine(t.rows[0])
      && r.value[2] == SeparatorLine(|t.rows[0]|)
      && forall i :: 1 <= i < |t.rows| ==> r.value[i + 2] == RowLine(t.rows[i])
  {
    if t.rows == [] then Failure(IndexErrorText)
    else
      var data := RowLines(t.rows[1..]);
      var lines := ["", RowLine(t.rows[0]), SeparatorLine(|t.rows[0]|)] + data + [""];
      Success(lines)
  }

  /** A pipe row is `|` followed, for each cell, by a space, the cell and ` |`. */
  lemma {:induction false} PipeRowShape(cells: seq<string>)
    requires |cells| >= 1
    ensures PipeRow(cells) == "|" + Concat(seq(|cells|, i requires 0 <= i < |cells| => " " + cells[i] + " |"))
  {
    PipeTail(cells);
    assert PipeRow(cells) == "|" + (" " + Join(cells, " | ") + " |");
  }

  lemma {:induction false} PipeTail(cells: seq<string>)
    requires |cells| >= 1
    ensures " " + Join(cells, " | ") + " |" == Concat(seq(|cells|, i requires 0 <= i < |cells| => " " + cells[i] + " |"))
  {
    var pieces := seq(|cells|, i requires 0 <= i < |cells| => " " + cells[i] + " |");
    if |cells| == 1 {
      assert Concat(pieces) == pieces[0] + Concat(pieces[1..]);
      assert pieces[1..] == [];
    } else {
      PipeTail(cells[1..]);
      assert pieces[1..] == seq(|cells| - 1, i requires 0 <= i < |cells| - 1 => " " + cells[1..][i] + " |");
      assert " " + Join(cells, " | ") + " |" == (" " + cells[0] + " |") + (" " + Join(cells[1..], " | ") + " |");
    }
  }

  /** A pipe row of `n >= 1` cells free of `|` holds exactly `n + 1` pipes,
      one before each cell and one after the last. */
  lemma PipeRowPipes(cells: seq<string>)
    requires |cells| >= 1
    requires forall k :: 0 <= k < |cells| ==> '|' !in cells[k]
    ensures Count(PipeRow(cells), '|') == |cells| + 1
  {
    CountJoin(cells, " | ", '|');
    assert Count(" | ", '|') == 1;
    assert Count("| ", '|') == 1;
    assert Count(" |", '|') == 1;
    CountConcat("| ", Join(cells, " | "), '|');
    CountConcat("| " + Join(cells, " | "), " |", '|');
  }

  /** The header and separator lines of a table agree on the number of
      columns: when no header cell contains `|`, both hold the same number of
      pipes, one more than the header row has cells; a header row without
      cells gives the same line `|  |` twice. */
  lemma TableColumns(t: Table)
    requires t.rows != []
    requires forall k :: 0 <= k < |t.rows[0]| ==> '|' !in t.rows[0][k]
    ensures TableLines(t).Success?
    ensures Count(TableLines(t).value[1], '|') == Count(TableLines(t).value[2], '|')
    ensures |t.rows[0]| >= 1 ==> Count(TableLines(t).value[1], '|') == |t.rows[0]| + 1
    ensures |t.rows[0]| == 0 ==> TableLines(t).value[1] == TableLines(t).value[2] == "|  |"
  {
    var header := t.rows[0];
    var dashes := seq(|header|, _ => "---");
    if |header| == 0 {
      assert Cells(header) == [] && dashes == [];
      assert PipeRow([]) == "|  |";
    } else {
      forall k | 0 <= k < |header| ensures '|' !in Cells(header)[k] {
        StripAbsent(header[k], '|');
      }
      PipeRowPipes(Cells(header));
      forall k | 0 <= k < |dashes| ensures '|' !in dashes[k] {
        assert dashes[k] == "---";
      }
      PipeRowPipes(dashes);
    }
  }

  /** The number of lines the tables take. */
  function TableLineCount(ts: seq<Table>): nat {
    if ts == [] then 0 else |ts[0].rows| + 3 + TableLineCount(ts[1..])
  }

  /** Every table has a header row. */
  predicate AllTablesHaveRows(ts: seq<Table>) {
    forall i :: 0 <= i < |ts| ==> ts[i].rows != []
  }

  /** The lines of all tables, one after the other, failing on the first
      table without rows. */
  function TablesLines(ts: seq<Table>): (r: Result<seq<string>, string>)
    ensures r.Success? <==> AllTablesHaveRows(ts)
    ensures r.Failure? ==> r.error == IndexErrorText
    ensures r.Success? ==> |r.value| == TableLineCount(ts)
  {
    if ts == [] then Success([])
    else
      var first :- TableLines(ts[0]);
      var rest :- TablesLines(ts[1..]);
      Success(first + rest)
  }

  /** A single table contributes exactly its own lines, or its error. */
  lemma TablesLinesOne(t: Table)
    ensures TablesLines([t]) == TableLines(t)
  {
    assert [t][0] == t && [t][1..] == [];
    if t.rows != [] {
      assert TableLines(t).value + [] == TableLines(t).value;
    }
  }

  /** The tables are rendered one after the other in document order: the
      lines of two runs of tables are the lines of the first run followed by
      those of the second, and both runs must succeed. */
  lemma {:induction false} TablesLinesConcat(a: seq<Table>, b: seq<Table>)
    ensures AllTablesHaveRows(a + b) <==> AllTablesHaveRows(a) && AllTablesHaveRows(b)
    ensures AllTablesHaveRows(a + b) ==> TablesLines(a + b).value == TablesLines(a).value + TablesLines(b).value
  {
    if a == [] {
      assert a + b == b;
    } else {
      assert (a + b)[0] == a[0];
      assert (a + b)[1..] == a[1..] + b;
      TablesLinesConcat(a[1..], b);
      assert AllTablesHaveRows(a) <==> a[0].rows != [] && AllTablesHaveRows(a[1..]) by {
        if a[0].rows != [] && AllTablesHaveRows(a[1..]) {
          forall i | 0 <= i < |a| ensures a[i].rows != [] {
            if i > 0 { assert a[i] == a[1..][i - 1]; }
          }
        }
      }
      assert AllTablesHaveRows(a + b) <==> a[0].rows != [] && AllTablesHaveRows(a[1..] + b) by {
        var ab := a + b;
        if a[0].rows != [] && AllTablesHaveRows(a[1..] + b) {
          forall i | 0 <= i < |ab| ensures ab[i].rows != [] {
            if i > 0 { assert ab[i] == (a[1..] + b)[i - 1]; }
          }
        }
      }
    }
  }

  /** The lines of the paragraphs, in document order. */
  function ParagraphLines(ps: seq<Paragraph>): (r: seq<string>)
    ensures |r| == |ps| && forall i :: 0 <= i < |ps| ==> r[i] == ParagraphLine(ps[i])
  {
    seq(|ps|, i requires 0 <= i < |ps| => ParagraphLine(ps[i]))
  }

  /** All lines of the converted body: paragraph lines first, then tables. */
  function MarkdownLines(ps: seq<Paragraph>, ts: seq<Table>): (r: Result<seq<string>, string>)
    ensures r.Success? <==> AllTablesHaveRows(ts)
    ensures r.Failure? ==> r.error == IndexErrorText
  {
    var tableLines :- TablesLines(ts);
    Success(ParagraphLines(ps) + tableLines)
  }

  /** `_docx_to_markdown`: the body lines joined by newlines. */
  function DocxToMarkdown(ps: seq<Paragraph>, ts: seq<Table>): (r: Result<string, string>)
    ensures r.Success? <==> AllTablesHaveRows(ts)
    ensures r.Failure? ==> r.error == IndexErrorText
  {
    var lines :- MarkdownLines(ps, ts);
    Success(Join(lines, "\n"))
  }

  /** No paragraph text and no cell text contains a line break. */
  predicate SingleLineTexts(ps: seq<Paragraph>, ts: seq<Table>) {
    && (forall i :: 0 <= i < |ps| ==> '\n' !in ps[i].text)
    && (forall i, j, k :: 0 <= i < |ts| && 0 <= j < |ts[i].rows| && 0 <= k < |ts[i].rows[j]| ==> '\n' !in ts[i].rows[j][k])
  }

  lemma ParagraphLineSingle(p: Paragraph)
    requires '\n' !in p.text
    ensures '\n' !in ParagraphLine(p)
  {
    var text := Strip(p.text);
    StripAbsent(p.text, '\n');
    var level := HeadingLevel(p.style);
    if text != "" && level.Some? {
      MarkerAbsent(level.value, text);
    }
  }

  lemma MarkerAbsent(k: nat, text: string)
    requires '\n' !in text
    ensures '\n' !in Repeat('#', k) + " " + text
  {
  }

  lemma RowLineSingle(row: seq<string>)
    requires forall k :: 0 <= k < |row| ==> '\n' !in row[k]
    ensures '\n' !in RowLine(row)
  {
    forall k | 0 <= k < |row| ensures '\n' !in Cells(row)[k] {
      StripAbsent(row[k], '\n');
    }
    JoinAbsent(Cells(row), " | ", '\n');
  }

  lemma SeparatorSingle(n: nat)
    ensures '\n' !in SeparatorLine(n)
  {
    var dashes := seq(n, _ => "---");
    forall k | 0 <= k < n ensures '\n' !in dashes[k] {
      assert dashes[k] == "---";
    }
    JoinAbsent(dashes, " | ", '\n');
  }

  lemma {:induction false} TablesLinesSingle(ts: seq<Table>)
    requires AllTablesHaveRows(ts)
    requires SingleLineTexts([], ts)
    ensures forall i :: 0 <= i < |TablesLines(ts).value| ==> '\n' !in TablesLines(ts).value[i]
  {
    if ts != [] {
      var t := ts[0];
      var first := TableLines(t).value;
      forall j | 0 <= j < |t.rows| ensures '\n' !in RowLine(t.rows[j]) {
        forall k | 0 <= k < |t.rows[j]| ensures '\n' !in t.rows[j][k] {
          assert t.rows[j][k] == ts[0].rows[j][k];
        }
        RowLineSingle(t.rows[j]);
      }
      SeparatorSingle(|t.rows[0]|);
      assert forall i :: 0 <= i < |first| ==> '\n' !in first[i] by {
        forall i | 0 <= i < |first| ensures '\n' !in first[i] {
          if 3 <= i < |first| - 1 {
            assert first[i] == RowLine(t.rows[i - 2]);
          }
        }
      }
      assert SingleLineTexts([], ts[1..]) by {
        forall i, j, k | 0 <= i < |ts[1..]| && 0 <= j < |ts[1..][i].rows| && 0 <= k < |ts[1..][i].rows[j]|
          ensures '\n' !in ts[1..][i].rows[j][k]
        {
          assert ts[1..][i] == ts[i + 1];
        }
      }
      TablesLinesSingle(ts[1..]);
    }
  }

  lemma ParagraphLinesSingle(ps: seq<Paragraph>)
    requires forall i :: 0 <= i < |ps| ==> '\n' !in ps[i].text
    ensures forall i :: 0 <= i < |ps| ==> '\n' !in ParagraphLines(ps)[i]
  {
    var pl := ParagraphLines(ps);
    forall i | 0 <= i < |ps| ensures '\n' !in pl[i] {
      ParagraphLineSingle(ps[i]);
    }
  }

  lemma LinesConcatSingle(a: seq<string>, b: seq<string>)
    requires forall i :: 0 <= i < |a| ==> '\n' !in a[i]
    requires forall i :: 0 <= i < |b| ==> '\n' !in b[i]
    ensures forall i :: 0 <= i < |a + b| ==> '\n' !in (a + b)[i]
  {
    forall i | 0 <= i < |a + b| ensures '\n' !in (a + b)[i] {
      if i >= |a| {
        assert (a + b)[i] == b[i - |a|];
      }
    }
  }

  lemma MarkdownLinesSingle(ps: seq<Paragraph>, ts: seq<Table>)
    requires AllTablesHaveRows(ts) && SingleLineTexts(ps, ts)
    ensures forall i :: 0 <= i < |MarkdownLines(ps, ts).value| ==> '\n' !in MarkdownLines(ps, ts).value[i]
  {
    var pl := ParagraphLines(ps);
    var tl := TablesLines(ts).value;
    assert SingleLineTexts([], ts);
    TablesLinesSingle(ts);
    ParagraphLinesSingle(ps);
    LinesConcatSingle(pl, tl);
    assert MarkdownLines(ps, ts).value == pl + tl;
  }

  /** The Word body is well defined exactly when every table has a header
      row. Its lines are then the paragraph lines, in order, followed by
      the table lines; when no text contains a line break they can be split
      back out of the body, one line per paragraph and `r + 3` per table of
      `r` rows. */
  lemma DocxBodyLines(ps: seq<Paragraph>, ts: seq<Table>)
    ensures DocxToMarkdown(ps, ts).Success? <==> AllTablesHaveRows(ts)
    ensures DocxToMarkdown(ps, ts).Success? && SingleLineTexts(ps, ts) && |ps| + |ts| >= 1 ==>
      var lines := Split(DocxToMarkdown(ps, ts).value, '\n');
      && |lines| == |ps| + TableLineCount(ts)
      && lines[..|ps|] == ParagraphLines(ps)
      && lines[|ps|..] == TablesLines(ts).value
  {
    if AllTablesHaveRows(ts) && SingleLineTexts(ps, ts) && |ps| + |ts| >= 1 {
      var lines := MarkdownLines(ps, ts).value;
      var pl := ParagraphLines(ps);
      var tl := TablesLines(ts).value;
      assert lines == pl + tl;
      MarkdownLinesSingle(ps, ts);
      if ts != [] {
        assert |tl| == TableLineCount(ts) >= 3;
      }
      assert "\n" == ['\n'];
      SplitJoin(lines, '\n');
      assert DocxToMarkdown(ps, ts).value == Join(lines, "\n");
      assert lines[..|ps|] == pl;
      assert lines[|ps|..] == tl;
    }
  }

  /** A Word document with one `Heading 1` paragraph `Scope` and a table of
      two rows and two columns gives a `# Scope` line, then the table with the
      first row as its two-cell header and the second as its only data row. */
  lemma ScopeExample()
    ensures MarkdownLines([Paragraph("Heading 1", "Scope")], [Table([["A", "B"], ["1", "2"]])])
      == Success(["# Scope", "", "| A | B |", "| --- | --- |", "| 1 | 2 |", ""])
  {
    var p := Paragraph("Heading 1", "Scope");
    var t := Table([["A", "B"], ["1", "2"]]);
    ScopeHeading();
    ScopeTable();
    assert ParagraphLines([p]) == ["# Scope"];
    var tl := ["", "| A | B |", "| --- | --- |", "| 1 | 2 |", ""];
    assert [t][0] == t && [t][1..] == [];
    assert TablesLines([]) == Success([]);
    assert TablesLines([t]) == Success(tl + []);
    assert tl + [] == tl;
    assert MarkdownLines([p], [t]) == Success(ParagraphLines([p]) + tl);
    ScopeConcat();
  }

  lemma ScopeConcat()
    ensures ["# Scope"] + ["", "| A | B |", "| --- | --- |", "| 1 | 2 |", ""]
      == ["# Scope", "", "| A | B |", "| --- | --- |", "| 1 | 2 |", ""]
  {
  }

  lemma ScopeHeading()
    ensures ParagraphLine(Paragraph("Heading 1", "Scope")) == "# Scope"
  {
    ScopeLevel();
    StripUnchanged("Scope");
    assert Repeat('#', 1) == "#";
  }

  lemma ScopeLevel()
    ensures HeadingLevel("Heading 1") == Some(1)
  {
    ScopeLower();
    assert HeadingTag(1) == "heading 1";
    assert StartsWith("heading 1", "heading 1");
    assert Contains("heading 1", HeadingTag(1));
  }

  lemma ScopeLower()
    ensures Lower("Heading 1") == "heading 1"
  {
    var l := Lower("Heading 1");
    assert LowerChar('H') == 'h';
    forall i | 0 <= i < 9 ensures l[i] == "heading 1"[i] {
      if i > 0 {
        assert LowerChar("Heading 1"[i]) == "Heading 1"[i];
      }
    }
  }

  lemma ScopeTable()
    ensures TableLines(Table([["A", "B"], ["1", "2"]])) == Success(["", "| A | B |", "| --- | --- |", "| 1 | 2 |", ""])
  {
    ScopeRows();
    ScopeSeparator();
    var t := Table([["A", "B"], ["1", "2"]]);
    assert t.rows[1..] == [["1", "2"]];
    assert RowLines([["1", "2"]]) == [RowLine(["1", "2"])] + RowLines([]);
    assert t.rows[0] == ["A", "B"] && |t.rows[0]| == 2;
    assert TableLines(t) == Success(["", RowLine(t.rows[0]), SeparatorLine(|t.rows[0]|)] + RowLines(t.rows[1..]) + [""]);
    assert ["", RowLine(t.rows[0]), SeparatorLine(|t.rows[0]|)] + RowLines(t.rows[1..]) + [""]
      == ["", "| A | B |", "| --- | --- |"] + ["| 1 | 2 |"] + [""];
    assert ["", "| A | B |", "| --- | --- |"] + ["| 1 | 2 |"] + [""] == ["", "| A | B |", "| --- | --- |", "| 1 | 2 |", ""];
  }

  lemma ScopeRows()
    ensures RowLine(["A", "B"]) == "| A | B |"
    ensures RowLine(["1", "2"]) == "| 1 | 2 |"
  {
    TwoCellRow("A", "B");
    TwoCellRow("1", "2");
  }

  lemma ScopeSeparator()
    ensures SeparatorLine(2) == "| --- | --- |"
  {
    TwoCellRow("---", "---");
    assert seq(2, _ => "---") == ["---", "---"];
  }

  lemma TwoCellRow(a: string, b: string)
    requires a != [] && !IsSpace(a[0]) && !IsSpace(a[|a| - 1])
    requires b != [] && !IsSpace(b[0]) && !IsSpace(b[|b| - 1])
    ensures RowLine([a, b]) == "| " + a + " | " + b + " |"
    ensures PipeRow([a, b]) == "| " + a + " | " + b + " |"
  {
    StripUnchanged(a);
    StripUnchanged(b);
    assert Cells([a, b]) == [a, b];
    assert Join([a, b], " | ") == a + " | " + Join([b], " | ");
  }

  /** The core properties python-docx reads from a Word file; absent ones are
      `None`. Timestamps are given already in ISO form. */
  datatype CoreProps = CoreProps(
    title: Option<string>,
    author: Option<string>,
    subject: Option<string>,
    created: Option<string>,
    modified: Option<string>,
    lastModifiedBy: Option<string>)

  /** `core_props.title or stem`: a missing or empty title falls back to the stem. */
  function TitleOf(props: CoreProps, stem: string): string {
    if props.title.Some? && props.title.value != "" then props.title.value else stem
  }

  /** An optional property as a dictionary value: the string, or `None`. */
  function OptionalValue(o: Option<string>): Value {
    if o.Some? then Str(o.value) else Null
  }

  /** Every entry has a key of its own. */
  predicate KeysDistinct(md: Metadata) {
    forall i, j :: 0 <= i < j < |md| ==> md[i].0 != md[j].0
  }

  /** The dictionary comprehension dropping `None` values: the entries kept
      are those of `md` with a value, in the same order. */
  function DropNull(md: Metadata): (r: Metadata)
    ensures |r| <= |md|
    ensures forall i :: 0 <= i < |r| ==> r[i].1 != Null
  {
    if md == [] then []
    else if md[0].1 == Null then DropNull(md[1..])
    else [md[0]] + DropNull(md[1..])
  }

  /** An entry survives the filter exactly when it has a value, and the
      filter keeps keys distinct. */
  lemma {:induction false} DropNullMembers(md: Metadata)
    ensures forall e :: e in DropNull(md) <==> e in md && e.1 != Null
    ensures KeysDistinct(md) ==> KeysDistinct(DropNull(md))
  {
    if md != [] {
      DropNullMembers(md[1..]);
      assert md == [md[0]] + md[1..];
      var rest := DropNull(md[1..]);
      if md[0].1 != Null && KeysDistinct(md) {
        var r := [md[0]] + rest;
        forall i, j | 0 <= i < j < |r| ensures r[i].0 != r[j].0 {
          if i == 0 {
            assert r[j] in rest;
            var k :| 0 <= k < |md[1..]| && md[1..][k] == r[j];
            assert md[k + 1] == r[j];
          } else {
            assert r[i] == rest[i - 1] && r[j] == rest[j - 1];
          }
        }
      }
      if KeysDistinct(md) {
        assert KeysDistinct(md[1..]);
      }
    }
  }

  /** `metadata.get(key)` on a dictionary given as its entries. */
  function Lookup(md: Metadata, key: string): Option<Value> {
    if md == [] then None else if md[0].0 == key then Some(md[0].1) else Lookup(md[1..], key)
  }

  lemma {:induction false} LookupFound(md: Metadata, e: (string, Value))
    requires KeysDistinct(md) && e in md
    ensures Lookup(md, e.0) == Some(e.1)
  {
    if md[0] != e {
      assert e in md[1..];
      var i :| 0 <= i < |md[1..]| && md[1..][i] == e;
      assert md[0].0 != md[i + 1].0;
      LookupFound(md[1..], e);
    }
  }

  lemma {:induction false} LookupMissing(md: Metadata, key: string)
    requires forall e :: e in md ==> e.0 != key
    ensures Lookup(md, key) == None
  {
    if md != [] {
      assert md[0] in md;
      assert forall e :: e in md[1..] ==> e in md;
      LookupMissing(md[1..], key);
    }
  }

  /** The fields of the Word metadata in their fixed order, before `None`
      values are dropped. */
  function MetadataCandidates(props: CoreProps, stem: string): Metadata {
    [ ("file_type", Str("document")),
      ("title", Str(TitleOf(props, stem))),
      ("author", OptionalValue(props.author)),
      ("subject", OptionalValue(props.subject)),
      ("created", OptionalValue(props.created)),
      ("modified", OptionalValue(props.modified)),
      ("last_modified_by", OptionalValue(props.lastModifiedBy)) ]
  }

  /** The position of a key in the order `_extract_docx_metadata` writes its
      entries; any other key comes after all of them. */
  function KeyRank(key: string): nat {
    if key == "file_type" then 0
    else if key == "title" then 1
    else if key == "author" then 2
    else if key == "subject" then 3
    else if key == "created" then 4
    else if key == "modified" then 5
    else if key == "last_modified_by" then 6
    else 7
  }

  /** The entries come in that fixed order (which also keeps keys distinct). */
  predicate InKeyOrder(md: Metadata) {
    forall j, k :: 0 <= j < k < |md| ==> KeyRank(md[j].0) < KeyRank(md[k].0)
  }

  lemma CandidatesInKeyOrder(props: CoreProps, stem: string)
    ensures InKeyOrder(MetadataCandidates(props, stem))
  {
    var c := MetadataCandidates(props, stem);
    assert forall i :: 0 <= i < |c| ==> KeyRank(c[i].0) == i;
  }

  /** `_extract_docx_metadata`. `docxInstalled` says whether python-docx is
      available; `props` is `None` when the file could not be opened. The
      result is `file_type: document` alone without python-docx; otherwise it
      starts with `file_type: document` and the title, which falls back to
      the stem (and is the only other entry when the file cannot be opened).
      It never holds a `None` value, and its keys come in the fixed order. */
  function ExtractDocxMetadata(stem: string, docxInstalled: bool, props: Option<CoreProps>): (md: Metadata)
    ensures |md| >= 1 && md[0] == ("file_type", Str("document"))
    ensures !docxInstalled ==> md == [("file_type", Str("document"))]
    ensures docxInstalled && props.None? ==> md == [("file_type", Str("document")), ("title", Str(stem))]
    ensures docxInstalled && props.Some? ==> |md| >= 2 && md[1] == ("title", Str(TitleOf(props.value, stem)))
    ensures forall i :: 0 <= i < |md| ==> md[i].1 != Null
    ensures InKeyOrder(md)
    ensures KeysDistinct(md)
  {
    if !docxInstalled then [("file_type", Str("document"))]
    else
      match props
      case None =>
        var md := [("file_type", Str("document")), ("title", Str(stem))];
        assert KeyRank(md[0].0) == 0 && KeyRank(md[1].0) == 1;
        md
      case Some(p) =>
        var c := MetadataCandidates(p, stem);
        assert KeysDistinct(c);
        assert c == c[..2] + c[2..];
        DropNullConcat(c[..2], c[2..]);
        assert DropNull(c[..2]) == c[..2] by {
          assert c[..2][1..][1..] == [];
        }
        DropNullMembers(c);
        CandidatesInKeyOrder(p, stem);
        DropNullKeepsOrder(c);
        DropNull(c)
  }

  /** The filter works entry by entry: dropping from two runs of entries is
      dropping from each run, so the kept entries keep their order. */
  lemma {:induction false} DropNullConcat(a: Metadata, b: Metadata)
    ensures DropNull(a + b) == DropNull(a) + DropNull(b)
  {
    if a == [] {
      assert a + b == b;
    } else {
      assert (a + b)[0] == a[0];
      assert (a + b)[1..] == a[1..] + b;
      DropNullConcat(a[1..], b);
    }
  }

  /** Dropping entries from entries in the fixed key order leaves them in
      that order. */
  lemma {:induction false} DropNullKeepsOrder(md: Metadata)
    requires InKeyOrder(md)
    ensures InKeyOrder(DropNull(md))
  {
    if md != [] {
      var rest := md[1..];
      assert InKeyOrder(rest) by {
        forall j, k | 0 <= j < k < |rest| ensures KeyRank(rest[j].0) < KeyRank(rest[k].0) {
          assert rest[j] == md[j + 1] && rest[k] == md[k + 1];
        }
      }
      DropNullKeepsOrder(rest);
      if md[0].1 != Null {
        DropNullRanksAbove(rest, KeyRank(md[0].0));
        var d := DropNull(rest);
        var r := [md[0]] + d;
        forall j, k | 0 <= j < k < |r| ensures KeyRank(r[j].0) < KeyRank(r[k].0) {
          assert r[k] == d[k - 1];
          if j > 0 {
            assert r[j] == d[j - 1];
          }
        }
      }
    }
  }

  lemma {:induction false} DropNullRanksAbove(md: Metadata, lo: int)
    requires forall i :: 0 <= i < |md| ==> KeyRank(md[i].0) > lo
    ensures forall i :: 0 <= i < |DropNull(md)| ==> KeyRank(DropNull(md)[i].0) > lo
  {
    if md != [] {
      assert forall i :: 0 <= i < |md[1..]| ==> md[1..][i] == md[i + 1];
      DropNullRanksAbove(md[1..], lo);
    }
  }

  /** What a lookup finds once `None` values have been dropped. */
  function Stored(v: Value): Option<Value> {
    if v == Null then None else Some(v)
  }

  /** The value a readable Word file's metadata should hold under `key`:
      `document` for the type, the title (or the stem), each remaining
      property when it is present, and nothing for any other key. */
  function ExpectedField(props: CoreProps, stem: string, key: string): Option<Value> {
    if key == "file_type" then Some(Str("document"))
    else if key == "title" then Some(Str(TitleOf(props, stem)))
    else if key == "author" then Stored(OptionalValue(props.author))
    else if key == "subject" then Stored(OptionalValue(props.subject))
    else if key == "created" then Stored(OptionalValue(props.created))
    else if key == "modified" then Stored(OptionalValue(props.modified))
    else if key == "last_modified_by" then Stored(OptionalValue(props.lastModifiedBy))
    else None
  }

  /** Looking any key up in the metadata of a readable Word file gives the
      expected field: absent properties are missing rather than `None`. */
  lemma DocxMetadataFields(stem: string, props: CoreProps, key: string)
    ensures Lookup(ExtractDocxMetadata(stem, true, Some(props)), key) == ExpectedField(props, stem, key)
  {
    var md := ExtractDocxMetadata(stem, true, Some(props));
    var c := MetadataCandidates(props, stem);
    assert md == DropNull(c);
    assert KeysDistinct(c);
    if key == "file_type" {
      FieldLookup(md, c, 0);
    } else if key == "title" {
      FieldLookup(md, c, 1);
    } else if key == "author" {
      FieldLookup(md, c, 2);
    } else if key == "subject" {
      FieldLookup(md, c, 3);
    } else if key == "created" {
      FieldLookup(md, c, 4);
    } else if key == "modified" {
      FieldLookup(md, c, 5);
    } else if key == "last_modified_by" {
      FieldLookup(md, c, 6);
    } else {
      OtherKeyMissing(md, c, key);
    }
  }

  lemma OtherKeyMissing(md: Metadata, c: Metadata, key: string)
    requires md == DropNull(c)
    requires forall i :: 0 <= i < |c| ==> c[i].0 != key
    ensures Lookup(md, key) == None
  {
    DropNullMembers(c);
    forall e | e in md ensures e.0 != key {
      assert e in c;
    }
    LookupMissing(md, key);
  }

  lemma FieldLookup(md: Metadata, c: Metadata, i: nat)
    requires KeysDistinct(c) && md == DropNull(c) && i < |c|
    ensures c[i].1 != Null ==> Lookup(md, c[i].0) == Some(c[i].1)
    ensures c[i].1 == Null ==> Lookup(md, c[i].0) == None
  {
    DropNullMembers(c);
    if c[i].1 != Null {
      LookupFound(md, c[i]);
    } else {
      forall e | e in md ensures e.0 != c[i].0 {
        var j :| 0 <= j < |c| && c[j] == e;
        assert j != i;
      }
      LookupMissing(md, c[i].0);
    }
  }

  /** Where the Word body comes from: mammoth's HTML rendering already turned
      into Markdown, or python-docx's paragraphs and tables. */
  datatype DocxSource =
    | Mammoth(markdown: string)
    | PythonDocx(paragraphs: seq<Paragraph>, tables: seq<Table>)

  /** The Markdown body of a Word file, from whichever source produced it;
      python-docx's body fails only on a table without rows. */
  function DocxBody(source: DocxSource): (r: Result<string, string>)
    ensures source.Mammoth? ==> r == Success(source.markdown)
    ensures source.PythonDocx? ==> r == DocxToMarkdown(source.paragraphs, source.tables)
  {
    match source
    case Mammoth(md) => Success(md)
    case PythonDocx(ps, ts) => DocxToMarkdown(ps, ts)
  }

  /** The text `_convert_docx` writes, or the exception it raises. Without
      python-docx it fails before reading anything; a failure of the body
      conversion is reported with the `Failed to convert DOCX:` prefix;
      otherwise the output is the frontmatter built from the extracted
      metadata followed by the body, which is an exact suffix of it. */
  function ConvertDocx(docxInstalled: bool, source: DocxSource, stem: string, props: Option<CoreProps>,
                       now: string, quote: Value -> string): (r: Result<string, string>)
    ensures !docxInstalled ==> r == Failure("python-docx not installed. Run: pip install python-docx")
    ensures docxInstalled && source.PythonDocx? && !AllTablesHaveRows(source.tables) ==>
      r == Failure(DocxFailurePrefix + IndexErrorText)
    ensures r.Success? <==> docxInstalled && DocxBody(source).Success?
    ensures r.Success? ==>
      r.value == AddFrontmatter(DocxBody(source).value, ExtractDocxMetadata(stem, true, props), now, quote)
  {
    if !docxInstalled then Failure("python-docx not installed. Run: pip install python-docx")
    else
      var body := DocxBody(source);
      if body.Failure? then Failure(DocxFailurePrefix + body.error)
      else Success(AddFrontmatter(body.value, ExtractDocxMetadata(stem, true, props), now, quote))
  }
}
