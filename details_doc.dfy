/** The reStructuredText pieces of the generated details document: the fixed-width
    "simple table" `make_table` lays out, the split of a Definition's attributes into
    a required and an optional table, and the title of a Definition's section. */
module DetailsDoc {
  import Text
  import opened Schema
  import Definitions
  import DefinitionProperties

  /** One row of a table: its cells, left to right. */
  type Row = seq<string>

  /** Two spaces separate the columns of every line. */
  const GAP: string := "  "

  /** Every row has `n` cells. */
  predicate Rectangular(rows: seq<Row>, n: nat) {
    forall i :: 0 <= i < |rows| ==> |rows[i]| == n
  }

  /** What `make_table` needs of its lines: a header row, and as many cells in every
      row as in the header (a shorter row makes the width computation index past its
      end, a longer one makes the `%` formatting fail). */
  predicate TableInput(rows: seq<Row>) {
    |rows| >= 1 && Rectangular(rows, |rows[0]|)
  }

  /** The width of column `c`: the longest of its cells, over every row, header
      included. */
  function ColumnWidth(rows: seq<Row>, c: nat): (w: nat)
    requires |rows| >= 1 && forall i :: 0 <= i < |rows| ==> c < |rows[i]|
    ensures forall i :: 0 <= i < |rows| ==> |rows[i][c]| <= w
    ensures exists i :: 0 <= i < |rows| && |rows[i][c]| == w
    decreases |rows|
  {
    if |rows| == 1 then |rows[0][c]|
    else
      var n := |rows| - 1;
      var w := ColumnWidth(rows[..n], c);
      if |rows[n][c]| > w then |rows[n][c]| else w
  }

  function Widths(rows: seq<Row>): (widths: seq<nat>)
    requires TableInput(rows)
    ensures |widths| == |rows[0]|
    ensures forall c :: 0 <= c < |widths| ==> widths[c] == ColumnWidth(rows, c)
  {
    seq(|rows[0]|, c requires 0 <= c < |rows[0]| => ColumnWidth(rows, c))
  }

  /** `"%-<w>s" % cell`: the cell left-aligned in a field of at least `w`
      characters, padded with spaces on the right. */
  function Pad(cell: string, w: nat): (r: string)
    ensures |r| == if |cell| < w then w else |cell|
    ensures r[..|cell|] == cell
    ensures forall k :: |cell| <= k < |r| ==> r[k] == ' '
  {
    if |cell| < w then cell + Text.Repeat(' ', w - |cell|) else cell
  }

  function PaddedCells(widths: seq<nat>, row: Row): (cells: seq<string>)
    requires |row| == |widths|
    ensures |cells| == |row|
    ensures forall c :: 0 <= c < |row| ==> cells[c] == Pad(row[c], widths[c])
  {
    seq(|row|, c requires 0 <= c < |row| => Pad(row[c], widths[c]))
  }

  /** `fmt % row`, where `fmt` joins one `%-<w>s` field per column with two spaces. */
  function FormatRow(widths: seq<nat>, row: Row): string
    requires |row| == |widths|
  {
    Text.Join(GAP, PaddedCells(widths, row))
  }

  function FormatRows(widths: seq<nat>, rows: seq<Row>): (lines: seq<string>)
    requires Rectangular(rows, |widths|)
    ensures |lines| == |rows|
    ensures forall i :: 0 <= i < |rows| ==> lines[i] == FormatRow(widths, rows[i])
  {
    seq(|rows|, i requires 0 <= i < |rows| => FormatRow(widths, rows[i]))
  }

  function BorderRuns(widths: seq<nat>): (runs: seq<string>)
    ensures |runs| == |widths|
    ensures forall c :: 0 <= c < |widths| ==> runs[c] == Text.Repeat('=', widths[c])
  {
    seq(|widths|, c requires 0 <= c < |widths| => Text.Repeat('=', widths[c]))
  }

  /** The border line: a run of `=` as wide as each column, runs two spaces apart. */
  function Border(widths: seq<nat>): string {
    Text.Join(GAP, BorderRuns(widths))
  }

  /** The lines of a table with data rows, in reading order: border, header,
      border, one line per data row, border. */
  function TableLines(rows: seq<Row>): (lines: seq<string>)
    requires TableInput(rows)
    ensures |lines| == |rows| + 3
    ensures lines[0] == lines[2] == lines[|rows| + 2] == Border(Widths(rows))
    ensures lines[1] == FormatRow(Widths(rows), rows[0])
    ensures forall i :: 1 <= i < |rows| ==> lines[i + 2] == FormatRow(Widths(rows), rows[i])
  {
    var border := Border(Widths(rows));
    var formatted := FormatRows(Widths(rows), rows);
    [border, formatted[0], border] + formatted[1..] + [border]
  }

  /** The text `make_table` returns: `*None*` after the prefix when there is only
      the header, otherwise the table's lines, each after the prefix, one per line. */
  function Table(rows: seq<Row>, prefix: string): string
    requires TableInput(rows)
  {
    if |rows| == 1 then prefix + "*None*"
    else prefix + Text.Join("\n" + prefix, TableLines(rows))
  }

  /** `make_table`: the rows are formatted, then the border is inserted in front,
      inserted again after the header, and appended at the end. */
  method MakeTable(rows: seq<Row>, prefix: string) returns (table: string)
    requires TableInput(rows)
    ensures table == Table(rows, prefix)
  {
    if |rows| == 1 {
      return prefix + "*None*";
    }
    var widths := Widths(rows);
    var border := Border(widths);
    var lines := FormatRows(widths, rows);
    ghost var formatted := lines;
    lines := lines[..0] + [border] + lines[0..];
    lines := lines[..2] + [border] + lines[2..];
    lines := lines + [border];
    BordersInserted(formatted, border);
    table := prefix + Text.Join("\n" + prefix, lines);
  }

  /** Inserting `border` at index 0, then at index 2, then appending it, frames the
      first line between two borders and closes the list with a third. */
  lemma BordersInserted(lines: seq<string>, border: string)
    requires |lines| >= 1
    ensures var once := lines[..0] + [border] + lines[0..];
            var twice := once[..2] + [border] + once[2..];
            twice + [border] == [border, lines[0], border] + lines[1..] + [border]
  {
    var once := lines[..0] + [border] + lines[0..];
    assert once == [border] + lines;
    assert once[..2] == [border, lines[0]] && once[2..] == lines[1..];
  }

  /** A cell no wider than its field is padded to exactly the field's width. */
  lemma PaddedToWidth(rows: seq<Row>, i: nat)
    requires TableInput(rows) && i < |rows|
    ensures Text.Lengths(PaddedCells(Widths(rows), rows[i])) == Widths(rows)
  {
    var widths := Widths(rows);
    var cells := PaddedCells(widths, rows[i]);
    forall c | 0 <= c < |widths| ensures |cells[c]| == widths[c] {
      assert |rows[i][c]| <= ColumnWidth(rows, c);
    }
  }

  /** Every line of a table is exactly as long as its border: no cell is wider than
      its column, and every cell is padded to the column's width. */
  lemma LinesAligned(rows: seq<Row>)
    requires TableInput(rows)
    ensures forall k :: 0 <= k < |TableLines(rows)| ==> |TableLines(rows)[k]| == |Border(Widths(rows))|
  {
    var widths := Widths(rows);
    var lines := TableLines(rows);
    forall k | 0 <= k < |lines| ensures |lines[k]| == |Border(widths)| {
      if k != 0 && k != 2 && k != |rows| + 2 {
        var i := if k == 1 then 0 else k - 2;
        assert lines[k] == FormatRow(widths, rows[i]);
        PaddedToWidth(rows, i);
        Text.JoinLengthsAgree(GAP, GAP, PaddedCells(widths, rows[i]), BorderRuns(widths));
      }
    }
  }

  /** Column `c` of a row sits at its start offset, as wide as the column,
      starting with the cell's text and padded with spaces; the two-space gap to
      the next column follows it. */
  lemma CellInLine(rows: seq<Row>, i: nat, c: nat)
    requires TableInput(rows) && i < |rows| && c < |rows[0]|
    ensures var widths := Widths(rows);
            var start := Text.PieceStart(widths, |GAP|, c);
            var line := FormatRow(widths, rows[i]);
            && start + widths[c] <= |line|
            && line[start..start + widths[c]] == Pad(rows[i][c], widths[c])
            && (c + 1 < |rows[0]| ==>
                  && start + widths[c] + |GAP| <= |line|
                  && line[start + widths[c]..start + widths[c] + |GAP|] == GAP)
  {
    var widths := Widths(rows);
    var cells := PaddedCells(widths, rows[i]);
    forall j | 0 <= j < |cells| ensures |cells[j]| == widths[j] {
      assert |rows[i][j]| <= ColumnWidth(rows, j);
    }
    Text.JoinPieceAt(GAP, cells, widths, c);
    if c + 1 < |rows[0]| {
      Text.JoinSepAfter(GAP, cells, widths, c);
    }
  }

  /** The border's run of `=` for column `c` sits at the column's start offset, and
      the two-space gap to the next column follows it. */
  lemma RunInBorder(widths: seq<nat>, c: nat)
    requires c < |widths|
    ensures var start := Text.PieceStart(widths, |GAP|, c);
            var border := Border(widths);
            && start + widths[c] <= |border|
            && border[start..start + widths[c]] == Text.Repeat('=', widths[c])
            && (c + 1 < |widths| ==>
                  && start + widths[c] + |GAP| <= |border|
                  && border[start + widths[c]..start + widths[c] + |GAP|] == GAP)
  {
    Text.JoinPieceAt(GAP, BorderRuns(widths), widths, c);
    if c + 1 < |widths| {
      Text.JoinSepAfter(GAP, BorderRuns(widths), widths, c);
    }
  }

  /** Column `c` of every row sits exactly under the border's run of `=` for that
      column: at the same offset and as wide, the cell's text padded with spaces
      against the run of `=`; and where the border has the two-space gap to the
      next column, so has the row. */
  lemma CellUnderBorder(rows: seq<Row>, i: nat, c: nat)
    requires TableInput(rows) && i < |rows| && c < |rows[0]|
    ensures var widths := Widths(rows);
            var start := Text.PieceStart(widths, |GAP|, c);
            var line := FormatRow(widths, rows[i]);
            var border := Border(widths);
            && start + widths[c] <= |line| && start + widths[c] <= |border|
            && line[start..start + widths[c]] == Pad(rows[i][c], widths[c])
            && border[start..start + widths[c]] == Text.Repeat('=', widths[c])
            && (c + 1 < |rows[0]| ==>
                  && start + widths[c] + |GAP| <= |line| && start + widths[c] + |GAP| <= |border|
                  && line[start + widths[c]..start + widths[c] + |GAP|] == GAP
                  && border[start + widths[c]..start + widths[c] + |GAP|] == GAP)
  {
    CellInLine(rows, i, c);
    RunInBorder(Widths(rows), c);
  }

  /** Each line after the prefix, in order. */
  function Prefixed(prefix: string, lines: seq<string>): (r: seq<string>)
    ensures |r| == |lines|
    ensures forall k :: 0 <= k < |lines| ==> r[k] == prefix + lines[k]
  {
    seq(|lines|, k requires 0 <= k < |lines| => prefix + lines[k])
  }

  /** Putting the prefix first and joining with a newline followed by the prefix is
      joining the prefixed lines with newlines. */
  lemma {:induction false} PrefixJoin(prefix: string, lines: seq<string>)
    requires |lines| >= 1
    ensures prefix + Text.Join("\n" + prefix, lines) == Text.Join("\n", Prefixed(prefix, lines))
    decreases |lines|
  {
    if |lines| > 1 {
      PrefixJoin(prefix, lines[1..]);
      assert Prefixed(prefix, lines)[1..] == Prefixed(prefix, lines[1..]);
      calc {
        prefix + Text.Join("\n" + prefix, lines);
        prefix + (lines[0] + ("\n" + prefix) + Text.Join("\n" + prefix, lines[1..]));
        (prefix + lines[0]) + "\n" + (prefix + Text.Join("\n" + prefix, lines[1..]));
        (prefix + lines[0]) + "\n" + Text.Join("\n", Prefixed(prefix, lines[1..]));
        Text.Join("\n", Prefixed(prefix, lines));
      }
    }
  }

  /** No line of a table contains a newline when no cell does. */
  lemma LinesSingle(rows: seq<Row>)
    requires TableInput(rows)
    requires forall i, c :: 0 <= i < |rows| && 0 <= c < |rows[i]| ==> '\n' !in rows[i][c]
    ensures forall k :: 0 <= k < |TableLines(rows)| ==> '\n' !in TableLines(rows)[k]
  {
    var widths := Widths(rows);
    var lines := TableLines(rows);
    var runs := BorderRuns(widths);
    forall c | 0 <= c < |runs| ensures '\n' !in runs[c] {
      assert forall k :: 0 <= k < |runs[c]| ==> runs[c][k] == '=';
    }
    Text.JoinKeepsOut(GAP, runs, '\n');
    forall k | 0 <= k < |lines| ensures '\n' !in lines[k] {
      if k != 0 && k != 2 && k != |rows| + 2 {
        var i := if k == 1 then 0 else k - 2;
        var cells := PaddedCells(widths, rows[i]);
        forall c | 0 <= c < |cells| ensures '\n' !in cells[c] {
          var cell := rows[i][c];
          forall j | 0 <= j < |cells[c]| ensures cells[c][j] != '\n' {
            if j < |cell| {
              assert cells[c][j] == cells[c][..|cell|][j] == cell[j];
            }
          }
        }
        Text.JoinKeepsOut(GAP, cells, '\n');
      }
    }
  }

  /** Read line by line, a table with data rows is its border, header, border, data
      rows and border lines, each starting with the prefix, provided neither the
      prefix nor any cell holds a newline. */
  lemma EveryLinePrefixed(rows: seq<Row>, prefix: string)
    requires TableInput(rows) && |rows| >= 2 && '\n' !in prefix
    requires forall i, c :: 0 <= i < |rows| && 0 <= c < |rows[i]| ==> '\n' !in rows[i][c]
    ensures Text.Split(Table(rows, prefix), '\n') == Prefixed(prefix, TableLines(rows))
    ensures |Text.Split(Table(rows, prefix), '\n')| == |rows| + 3
  {
    var lines := TableLines(rows);
    var prefixed := Prefixed(prefix, lines);
    PrefixJoin(prefix, lines);
    LinesSingle(rows);
    forall k | 0 <= k < |prefixed| ensures '\n' !in prefixed[k] {
      assert '\n' !in lines[k];
    }
    assert "\n" == ['\n'];
    Text.SplitOfJoin(prefixed, '\n');
  }

  /** The header row of both attribute tables. */
  const HEADER: Row := ["Name", "Type", "Description"]

  /** The Type cell: each declared type between double backquotes, comma-separated. */
  function TypesCell(types: seq<string>): string {
    Text.Join(", ", seq(|types|, k requires 0 <= k < |types| => "``" + types[k] + "``"))
  }

  /** The row of one attribute: its name, its types and its description. */
  function AttrRow(a: AttrDef): Row {
    [a.name, TypesCell(a.types), a.description]
  }

  /** The rows of the attributes whose `required` flag is `required`, in order. */
  function Selected(attrs: seq<AttrDef>, required: bool): (r: seq<Row>)
    ensures |r| <= |attrs|
    ensures forall i :: 0 <= i < |r| ==> |r[i]| == 3
    decreases |attrs|
  {
    if attrs == [] then []
    else
      var n := |attrs| - 1;
      Selected(attrs[..n], required) + (if attrs[n].required == required then [AttrRow(attrs[n])] else [])
  }

  /** The loop of `create_rst_representation` that sends each attribute's row to
      the required or the optional table, both starting with the header row. */
  method PartitionAttributes(attrs: seq<AttrDef>) returns (required: seq<Row>, optional: seq<Row>)
    ensures required == [HEADER] + Selected(attrs, true)
    ensures optional == [HEADER] + Selected(attrs, false)
  {
    required, optional := [HEADER], [HEADER];
    var k := 0;
    while k < |attrs|
      invariant k <= |attrs|
      invariant required == [HEADER] + Selected(attrs[..k], true)
      invariant optional == [HEADER] + Selected(attrs[..k], false)
    {
      var a := attrs[k];
      assert attrs[..k + 1][..k] == attrs[..k];
      if a.required {
        required := required + [AttrRow(a)];
      } else {
        optional := optional + [AttrRow(a)];
      }
      k := k + 1;
    }
    assert attrs[..k] == attrs;
  }

  /** The two tables together have one row per attribute. */
  lemma {:induction false} SelectedCount(attrs: seq<AttrDef>)
    ensures |Selected(attrs, true)| + |Selected(attrs, false)| == |attrs|
    decreases |attrs|
  {
    if attrs != [] {
      SelectedCount(attrs[..|attrs| - 1]);
    }
  }

  /** A row is in the required (optional) table exactly when it is the row of a
      required (optional) attribute. */
  lemma {:induction false} SelectedSpec(attrs: seq<AttrDef>, flag: bool)
    ensures forall r :: r in Selected(attrs, flag) <==>
      exists i :: 0 <= i < |attrs| && attrs[i].required == flag && r == AttrRow(attrs[i])
    decreases |attrs|
  {
    if attrs != [] {
      var n := |attrs| - 1;
      var prefix := attrs[..n];
      SelectedSpec(prefix, flag);
      assert Selected(attrs, flag) == Selected(prefix, flag) + (if attrs[n].required == flag then [AttrRow(attrs[n])] else []);
      forall r ensures r in Selected(attrs, flag) <==>
        exists i :: 0 <= i < |attrs| && attrs[i].required == flag && r == AttrRow(attrs[i])
      {
        if r in Selected(prefix, flag) {
          var i :| 0 <= i < n && prefix[i].required == flag && r == AttrRow(prefix[i]);
          assert attrs[i] == prefix[i];
        }
        if exists i :: 0 <= i < |attrs| && attrs[i].required == flag && r == AttrRow(attrs[i]) {
          var i :| 0 <= i < |attrs| && attrs[i].required == flag && r == AttrRow(attrs[i]);
          if i < n {
            assert prefix[i] == attrs[i];
          }
        }
      }
    }
  }

  /** A table has no data rows exactly when no attribute belongs to it. */
  lemma SelectedEmpty(attrs: seq<AttrDef>, flag: bool)
    ensures Selected(attrs, flag) == [] <==> forall i :: 0 <= i < |attrs| ==> attrs[i].required != flag
  {
    SelectedSpec(attrs, flag);
    if Selected(attrs, flag) != [] {
      assert Selected(attrs, flag)[0] in Selected(attrs, flag);
    }
    if exists i :: 0 <= i < |attrs| && attrs[i].required == flag {
      var i :| 0 <= i < |attrs| && attrs[i].required == flag;
      assert AttrRow(attrs[i]) in Selected(attrs, flag);
    }
  }

  /** The split keeps the attributes' order: the rows of a list followed by another
      are the rows of the first followed by those of the second. */
  lemma {:induction false} SelectedKeepsOrder(first: seq<AttrDef>, second: seq<AttrDef>, flag: bool)
    ensures Selected(first + second, flag) == Selected(first, flag) + Selected(second, flag)
    decreases |second|
  {
    if second == [] {
      assert first + second == first;
    } else {
      var n := |second| - 1;
      SelectedKeepsOrder(first, second[..n], flag);
      var whole := first + second;
      assert whole[..|whole| - 1] == first + second[..n];
      assert whole[|whole| - 1] == second[n];
    }
  }

  /** Both attribute tables meet what `make_table` needs: the header first, and
      three cells in every row. */
  lemma PartitionTables(attrs: seq<AttrDef>, flag: bool)
    ensures var rows := [HEADER] + Selected(attrs, flag);
            TableInput(rows) && rows[0] == HEADER && Rectangular(rows, 3)
  {
    var rows := [HEADER] + Selected(attrs, flag);
    SelectedSpec(attrs, flag);
    forall i | 0 < i < |rows| ensures |rows[i]| == 3 {
      assert rows[i] in Selected(attrs, flag);
    }
  }

  /** A table with data rows and a non-empty first header cell starts, after the
      prefix, with its border's `=`, so it never reads `*None*`. */
  lemma DataTableIsNotNone(rows: seq<Row>, prefix: string)
    requires TableInput(rows) && |rows| >= 2 && |rows[0]| >= 1 && |rows[0][0]| >= 1
    ensures Table(rows, prefix) != prefix + "*None*"
  {
    var lines := TableLines(rows);
    var widths := Widths(rows);
    var runs := BorderRuns(widths);
    assert widths[0] >= |rows[0][0]|;
    Text.JoinPieceAt(GAP, runs, Text.Lengths(runs), 0);
    assert Border(widths)[0] == runs[0][0] == '=';
    Text.JoinPieceAt("\n" + prefix, lines, Text.Lengths(lines), 0);
    assert Table(rows, prefix)[|prefix|] == '=';
    assert (prefix + "*None*")[|prefix|] == '*';
  }

  /** The required (optional) table of a Definition renders as `*None*` exactly when
      none of its attributes is required (optional). */
  lemma NoneExactlyWhenAbsent(attrs: seq<AttrDef>, flag: bool, prefix: string)
    ensures TableInput([HEADER] + Selected(attrs, flag))
    ensures Table([HEADER] + Selected(attrs, flag), prefix) == prefix + "*None*" <==>
      forall i :: 0 <= i < |attrs| ==> attrs[i].required != flag
  {
    var rows := [HEADER] + Selected(attrs, flag);
    PartitionTables(attrs, flag);
    SelectedEmpty(attrs, flag);
    if Selected(attrs, flag) != [] {
      HeaderNameCell(rows);
      DataTableIsNotNone(rows, prefix);
    }
  }

  lemma HeaderNameCell(rows: seq<Row>)
    requires |rows| >= 1 && rows[0] == HEADER
    ensures |rows[0]| >= 1 && |rows[0][0]| >= 1
  {
  }

  /** The title of a Definition's section: fixed titles for the three agent types
      the PROV data model names, the Definition's label for every other type. */
  function Title(d: Definition): string {
    if d.name == "person" then "Person"
    else if d.name == "software_agent" then "Software Agent"
    else if d.name == "organization" then "Organization"
    else d.provLabel
  }

  /** The fixed title "Software Agent" is the one the label rule derives from the
      name `software_agent`. */
  lemma SoftwareAgentTitle(softwareAgent: string)
    requires softwareAgent == "software_agent"
    ensures Definitions.TitleWords(softwareAgent) == "Software Agent"
  {
    var software, agent := softwareAgent[..8], softwareAgent[9..];
    DefinitionProperties.LowerWord(software, "software", "Software");
    DefinitionProperties.LowerWord(agent, "agent", "Agent");
    assert softwareAgent == software + "_" + agent;
    DefinitionProperties.TwoWordLabel(software, agent, "Software", "Agent");
  }

  /** A lower-case name without `_` is titled by capitalising it. */
  lemma OneWordTitle(w: string, lower: string, upper: string)
    requires w == lower && |lower| > 0 && |upper| == |lower|
    requires forall i :: 0 <= i < |lower| ==> 'a' <= lower[i] <= 'z'
    requires upper[0] == Text.UpperChar(lower[0]) && upper[1..] == lower[1..]
    ensures Definitions.TitleWords(w) == upper
  {
    DefinitionProperties.LowerWord(w, lower, upper);
    Text.SplitOfPiece(w, '_');
    assert Text.CapitalizeAll([w]) == [upper];
  }

  /** The fixed titles "Person" and "Organization" are the ones the label rule
      derives from the names `person` and `organization`. */
  lemma OneWordAgentTitles(person: string, organization: string)
    requires person == "person" && organization == "organization"
    ensures Definitions.TitleWords(person) == "Person"
    ensures Definitions.TitleWords(organization) == "Organization"
  {
    OneWordTitle(person, "person", "Person");
    OneWordTitle(organization, "organization", "Organization");
  }

  /** For a Definition that passes the label check, the title is the name's words,
      capitalised, for every entity and activity and for the three named agents;
      any other agent is titled by its label, which is `*`. */
  lemma TitleFollowsLabelRule(d: Definition)
    requires d.provLabel == Definitions.ExpectedLabel(d.name, d.recordType)
    ensures (d.recordType != "agent" || d.name in {"person", "software_agent", "organization"}) ==>
      Title(d) == Definitions.TitleWords(d.name)
    ensures (d.recordType == "agent" && d.name !in {"person", "software_agent", "organization"}) ==>
      Title(d) == "*"
  {
    if d.name == "person" || d.name == "organization" {
      OneWordAgentTitles("person", "organization");
    } else if d.name == "software_agent" {
      SoftwareAgentTitle(d.name);
    }
  }
}
