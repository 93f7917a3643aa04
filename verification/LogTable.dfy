/** The change log kept as a Markdown table: appending rewrites the file, reading parses it back. */
module LogTable {
  import opened Basics
  import opened Text

  datatype LogEntry = LogEntry(timestamp: string, action: string, conceptId: string, details: Option<string>)

  // ---------- Cells ----------

  /** Every pipe gets a backslash. */
  function Escape(s: string): string {
    if s == "" then "" else (if s[0] == '|' then "\\|" else [s[0]]) + Escape(s[1..])
  }

  /** Every backslash before a pipe is dropped. */
  function Unescape(s: string): string {
    if s == "" then ""
    else if |s| >= 2 && s[0] == '\\' && s[1] == '|' then "|" + Unescape(s[2..])
    else [s[0]] + Unescape(s[1..])
  }

  /** Split at the pipes that no backslash precedes; escaped says whether one precedes s. */
  function SplitCells(s: string, escaped: bool): (cells: seq<string>)
    ensures |cells| >= 1
  {
    if s == "" then [""]
    else
      var rest := SplitCells(s[1..], s[0] == '\\');
      if s[0] == '|' && !escaped then [""] + rest else [[s[0]] + rest[0]] + rest[1..]
  }

  function Body(cell: string): string { " " + (cell + " ") }

  function FormatRow(e: LogEntry): string {
    var details := if e.details.Some? then Escape(e.details.value) else "";
    "|" + (Body(e.timestamp) + ("|" + (Body(Escape(e.action))
    + ("|" + (Body(Escape(e.conceptId)) + ("|" + (Body(details) + "|")))))))
  }

  function FilledCells(cells: seq<string>): seq<string> {
    if cells == [] then []
    else (if Trim(cells[0]) == "" then [] else [Trim(cells[0])]) + FilledCells(cells[1..])
  }

  function ParseRow(row: string): Option<LogEntry> {
    var cells := FilledCells(SplitCells(row, false));
    if |cells| < 3 then None
    else
      var details := if |cells| > 3 then Unescape(cells[3]) else "";
      Some(LogEntry(cells[0], Unescape(cells[1]), Unescape(cells[2]), if details == "" then None else Some(details)))
  }

  // ---------- The table ----------

  predicate IsHeader(line: string) { StartsWith(line, "| Timestamp") }

  predicate IsSeparator(line: string) {
    |line| >= 2 && line[0] == '|' && forall i :: 1 <= i < |line| ==> IsSpace(line[i]) || line[i] in "-:|"
  }

  /** What reading does with a line: the table begins, the line is passed over, it is taken, or
      the table is over. */
  datatype LineKind = Header | Passed | Separator | Row | End

  function KindOf(line: string, inTable: bool, separatorSeen: bool): LineKind {
    if IsHeader(line) then Header
    else if !inTable then Passed
    else if IsSeparator(line) then Separator
    else if !StartsWith(line, "|") then End
    else if separatorSeen then Row else Passed
  }

  /** The data rows among the lines, until the table ends. */
  function Scan(lines: seq<string>, inTable: bool, separatorSeen: bool): seq<string> {
    if lines == [] then []
    else
      match KindOf(Trim(lines[0]), inTable, separatorSeen)
      case Header => Scan(lines[1..], true, false)
      case Passed => Scan(lines[1..], inTable, separatorSeen)
      case Separator => Scan(lines[1..], true, true)
      case Row => [Trim(lines[0])] + Scan(lines[1..], true, separatorSeen)
      case End => []
  }

  function TableRows(content: string): seq<string> { Scan(Split(content, '\n'), false, false) }

  /** The results that are present, in order. */
  function Collect<A, B>(xs: seq<A>, f: A -> Option<B>): seq<B> {
    if xs == [] then []
    else
      var y := f(xs[|xs| - 1]);
      Collect(xs[..|xs| - 1], f) + if y.Some? then [y.value] else []
  }

  function ParseAll(rows: seq<string>): seq<LogEntry> { Collect(rows, ParseRow) }

  const FILE_HEADER := [
    "---", "type: Log", "title: Change Log", "description: Chronological" + " record of bundle changes", "---",
    "", "# Change Log", "",
    "| Timestamp | Action | Concept | Details |", "|-----------|--------|---------|---------|"
  ]

  function Content(rows: seq<string>): string { Join(FILE_HEADER + rows + [""], '\n') }

  function RowsOf(file: Option<string>): seq<string> { if file.Some? then TableRows(file.value) else [] }

  function EntriesOf(file: Option<string>): seq<LogEntry> { ParseAll(RowsOf(file)) }

  class LogService {
    /** The text of log.md, if the file exists. */
    var file: Option<string>

    constructor (file: Option<string>)
      ensures this.file == file
    {
      this.file := file;
    }

    method Append(entry: LogEntry)
      modifies this
      ensures file == Some(Content([FormatRow(entry)] + RowsOf(old(file))))
    {
      var existing: seq<string> := [];
      if file.Some? { existing := ExtractTableRows(file.value); }
      file := Some(Content([FormatRow(entry)] + existing));
    }

    method GetEntries() returns (entries: seq<LogEntry>)
      ensures entries == EntriesOf(file)
    {
      if file.None? { return []; }
      entries := ParseEntries(file.value);
    }

    /** The chain of tests in the loop below. */
    method Classify(trimmed: string, inTable: bool, separatorSeen: bool) returns (kind: LineKind)
      ensures kind == KindOf(trimmed, inTable, separatorSeen)
    {
      if IsHeader(trimmed) { return Header; }
      if inTable && IsSeparator(trimmed) { return Separator; }
      if inTable && StartsWith(trimmed, "|") && separatorSeen { return Row; }
      if inTable && !StartsWith(trimmed, "|") { return End; }
      return Passed;
    }

    method ExtractTableRows(content: string) returns (rows: seq<string>)
      ensures rows == TableRows(content)
    {
      var lines := Split(content, '\n');
      rows := [];
      var inTable, headerRowsPassed := false, 0;
      assert lines[0..] == lines;
      for i := 0 to |lines|
        invariant headerRowsPassed >= 0
        invariant rows + Scan(lines[i..], inTable, headerRowsPassed > 0) == TableRows(content)
      {
        assert lines[i..][1..] == lines[i + 1..] && lines[i..][0] == lines[i];
        var trimmed := Trim(lines[i]);
        var kind := Classify(trimmed, inTable, headerRowsPassed > 0);
        match kind {
          case Header => inTable, headerRowsPassed := true, 0;
          case Separator => headerRowsPassed := headerRowsPassed + 1;
          case Row => rows := rows + [trimmed];
          case End => break;
          case Passed =>
        }
      }
    }

    method ParseEntries(content: string) returns (entries: seq<LogEntry>)
      ensures entries == ParseAll(TableRows(content))
    {
      var rows := ExtractTableRows(content);
      entries := [];
      for i := 0 to |rows|
        invariant entries == Collect(rows[..i], ParseRow)
      {
        assert rows[..i + 1][..i] == rows[..i];
        var e := ParseRow(rows[i]);
        if e.Some? { entries := entries + [e.value]; }
      }
      assert rows[..|rows|] == rows;
    }
  }
}
