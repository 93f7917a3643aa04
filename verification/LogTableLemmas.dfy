/** Escaping, splitting and scanning rows of the log table: what each step does to a text, which
    characters a row has, and which lines a reader of the table takes over as they are. */
module LogTableLemmas {
  import opened Basics
  import opened Text
  import opened LogTable

  // ---------- Escaping ----------

  /** No pipe without a backslash before it; escaped says whether one precedes s. */
  predicate NoBarePipe(s: string, escaped: bool) {
    s == "" || ((s[0] == '|' ==> escaped) && NoBarePipe(s[1..], s[0] == '\\'))
  }

  lemma EscapedStart(s: string)
    ensures Escape(s) != "" ==> Escape(s)[0] != '|'
    ensures Escape(s) == "" <==> s == ""
  {
  }

  lemma {:induction false} EscapedIsSafe(s: string, escaped: bool)
    ensures NoBarePipe(Escape(s), escaped)
  {
    if s != "" {
      var e, rest := Escape(s), Escape(s[1..]);
      if s[0] == '|' {
        EscapedIsSafe(s[1..], false);
        assert e[1..] == "|" + rest;
        assert ("|" + rest)[1..] == rest;
      } else {
        EscapedIsSafe(s[1..], s[0] == '\\');
        assert e[1..] == rest;
      }
    }
  }

  /** Pipes and backslashes survive escaping. */
  lemma {:induction false} UnescapeEscape(s: string)
    ensures Unescape(Escape(s)) == s
  {
    if s != "" {
      UnescapeEscape(s[1..]);
      EscapedStart(s[1..]);
      if s[0] == '|' {
        assert Escape(s)[2..] == Escape(s[1..]);
      } else {
        assert Escape(s)[1..] == Escape(s[1..]);
      }
      assert s == [s[0]] + s[1..];
    }
  }

  lemma {:induction false} EscapeKeepsEnds(s: string)
    requires Trimmed(s)
    ensures Trimmed(Escape(s))
    ensures s != "" ==> Escape(s) != "" && Escape(s)[|Escape(s)| - 1] == s[|s| - 1]
  {
    if s != "" {
      EscapeLast(s);
    }
  }

  lemma {:induction false} EscapeLast(s: string)
    requires s != ""
    ensures Escape(s) != "" && Escape(s)[|Escape(s)| - 1] == s[|s| - 1]
  {
    if |s| > 1 { EscapeLast(s[1..]); }
  }

  /** Unescaping keeps the last character, and drops or keeps the first. */
  lemma {:induction false} UnescapeEnds(s: string)
    requires s != ""
    ensures var u := Unescape(s);
            u != "" && u[|u| - 1] == s[|s| - 1] && (u[0] == s[0] || u[0] == '|') && DrawnFrom(u, s)
  {
    if |s| >= 2 && s[0] == '\\' && s[1] == '|' {
      if |s| > 2 { UnescapeEnds(s[2..]); }
    } else if |s| > 1 {
      UnescapeEnds(s[1..]);
    }
  }

  lemma {:induction false} EscapeDrawn(s: string)
    ensures forall c :: c in Escape(s) ==> c in s || (c == '\\' && '|' in s)
    ensures DrawnFrom(s, Escape(s))
  {
    if s != "" {
      EscapeDrawn(s[1..]);
      assert s == [s[0]] + s[1..];
    }
  }

  // ---------- Splitting a row ----------

  ghost predicate EndsSafely(t: string, escaped: bool) {
    if t == "" then !escaped else t[|t| - 1] != '\\'
  }

  /** A cell without bare pipes is split off whole at the pipe behind it. */
  lemma {:induction false} SplitCell(t: string, rest: string, escaped: bool)
    requires NoBarePipe(t, escaped) && EndsSafely(t, escaped)
    ensures SplitCells(t + ("|" + rest), escaped) == [t] + SplitCells(rest, false)
  {
    var s := t + ("|" + rest);
    if t == "" {
      assert s == "|" + rest && s[1..] == rest;
    } else {
      assert s[1..] == t[1..] + ("|" + rest);
      SplitCell(t[1..], rest, t[0] == '\\');
      assert t == [t[0]] + t[1..];
    }
  }

  lemma {:induction false} NoBareAppend(t: string, escaped: bool)
    requires NoBarePipe(t, escaped)
    ensures NoBarePipe(t + " ", escaped)
  {
    if t != "" {
      NoBareAppend(t[1..], t[0] == '\\');
      assert (t + " ")[1..] == t[1..] + " ";
    }
  }

  /** What may stand between two pipes. */
  ghost predicate IsCell(b: string) { NoBarePipe(b, false) && EndsSafely(b, false) }

  lemma BodyIsCell(t: string)
    requires NoBarePipe(t, false)
    ensures IsCell(Body(t))
  {
    NoBareAppend(t, false);
    assert Body(t)[1..] == t + " ";
  }

  lemma BodyTrims(t: string)
    requires Trimmed(t)
    ensures Trim(Body(t)) == t
  {
    TrimPadded(" ", t, " ");
  }

  lemma TwoCellsSplit(b1: string, b2: string, rest: string)
    requires IsCell(b1) && IsCell(b2)
    ensures SplitCells(b1 + ("|" + (b2 + ("|" + rest))), false) == [b1, b2] + SplitCells(rest, false)
  {
    SplitCell(b2, rest, false);
    SplitCell(b1, b2 + ("|" + rest), false);
  }

  lemma CellsSplit(b1: string, b2: string, b3: string, b4: string)
    requires IsCell(b1) && IsCell(b2) && IsCell(b3) && IsCell(b4)
    ensures SplitCells("" + ("|" + (b1 + ("|" + (b2 + ("|" + (b3 + ("|" + (b4 + ("|" + ""))))))))), false)
         == ["", b1, b2, b3, b4, ""]
  {
    var tail := b3 + ("|" + (b4 + ("|" + "")));
    TwoCellsSplit(b3, b4, "");
    TwoCellsSplit(b1, b2, tail);
    SplitCell("", b1 + ("|" + (b2 + ("|" + tail))), false);
  }

  lemma RowSplits(t: string, a: string, c: string, d: string)
    requires NoBarePipe(t, false) && NoBarePipe(a, false) && NoBarePipe(c, false) && NoBarePipe(d, false)
    ensures SplitCells("|" + (Body(t) + ("|" + (Body(a) + ("|" + (Body(c) + ("|" + (Body(d) + "|"))))))), false)
         == ["", Body(t), Body(a), Body(c), Body(d), ""]
  {
    BodyIsCell(t);
    BodyIsCell(a);
    BodyIsCell(c);
    BodyIsCell(d);
    CellsSplit(Body(t), Body(a), Body(c), Body(d));
    assert "|" + "" == "|";
    var r := "|" + (Body(t) + ("|" + (Body(a) + ("|" + (Body(c) + ("|" + (Body(d) + "|")))))));
    assert "" + r == r;
  }

  lemma FilledCons(cell: string, trimmed: string, rest: seq<string>)
    requires Trim(cell) == trimmed
    ensures FilledCells([cell] + rest) == (if trimmed == "" then [] else [trimmed]) + FilledCells(rest)
  {
    assert ([cell] + rest)[1..] == rest;
  }

  lemma LastCells(c: string, d: string)
    requires Trimmed(c) && Trimmed(d) && c != ""
    ensures FilledCells([Body(c)] + ([Body(d)] + [""])) == [c] + if d == "" then [] else [d]
  {
    BodyTrims(c);
    BodyTrims(d);
    FilledCons("", "", []);
    assert [""] + [] == [""];
    FilledCons(Body(d), d, [""]);
    FilledCons(Body(c), c, [Body(d)] + [""]);
  }

  lemma FirstCells(t: string, a: string, after: seq<string>)
    requires Trimmed(t) && Trimmed(a) && t != "" && a != ""
    ensures FilledCells([""] + ([Body(t)] + ([Body(a)] + after))) == [t, a] + FilledCells(after)
  {
    BodyTrims(t);
    BodyTrims(a);
    FilledCons(Body(a), a, after);
    FilledCons(Body(t), t, [Body(a)] + after);
    FilledCons("", "", [Body(t)] + ([Body(a)] + after));
  }

  lemma FourCells(t: string, a: string, c: string, d: string)
    requires Trimmed(t) && Trimmed(a) && Trimmed(c) && Trimmed(d) && t != "" && a != "" && c != ""
    ensures FilledCells(["", Body(t), Body(a), Body(c), Body(d), ""]) == [t, a, c] + if d == "" then [] else [d]
  {
    var after := [Body(c)] + ([Body(d)] + [""]);
    LastCells(c, d);
    FirstCells(t, a, after);
    assert ["", Body(t), Body(a), Body(c), Body(d), ""] == [""] + ([Body(t)] + ([Body(a)] + after));
  }

  // ---------- Which entries survive ----------

  predicate Field(s: string) { s != "" && '\n' !in s && Trimmed(s) }

  function DetailsText(e: LogEntry): string { if e.details.Some? then e.details.value else "" }

  function AllText(e: LogEntry): string { e.timestamp + (e.action + (e.conceptId + DetailsText(e))) }

  /** Something other than white space, dashes and colons, so that the row is no separator. */
  predicate Solid(s: string) { exists c :: c in s && !IsSpace(c) && c !in "-:" }

  /** Non-empty fields without newlines or white space at the ends; details absent or such a field;
      no bare pipe in the timestamp, which does not look like the table's header; and not only
      dashes and colons. */
  predicate Faithful(e: LogEntry) {
    && Field(e.timestamp) && Field(e.action) && Field(e.conceptId)
    && (e.details.Some? ==> Field(e.details.value))
    && NoBarePipe(e.timestamp, false)
    && !StartsWith(e.timestamp, "Timestamp")
    && Solid(AllText(e))
  }

  lemma {:induction false} NoPipeAtAll(s: string, escaped: bool)
    requires '|' !in s
    ensures NoBarePipe(s, escaped)
  {
    if s != "" { NoPipeAtAll(s[1..], s[0] == '\\'); }
  }

  lemma FieldEscapes(s: string)
    requires Field(s)
    ensures Escape(s) != "" && Trimmed(Escape(s)) && NoBarePipe(Escape(s), false) && Unescape(Escape(s)) == s
  {
    EscapedIsSafe(s, false);
    EscapedStart(s);
    EscapeKeepsEnds(s);
    UnescapeEscape(s);
  }

  lemma FaithfulRowParses(e: LogEntry)
    requires Faithful(e)
    ensures ParseRow(FormatRow(e)) == Some(e)
  {
    FieldEscapes(e.action);
    FieldEscapes(e.conceptId);
    if e.details.Some? { FieldEscapes(e.details.value); }
    var d := Escape(DetailsText(e));
    RowSplits(e.timestamp, Escape(e.action), Escape(e.conceptId), d);
    FourCells(e.timestamp, Escape(e.action), Escape(e.conceptId), d);
  }

  // ---------- Rows as lines ----------

  /** A line that reading takes over as it is. */
  predicate Kept(line: string) {
    Trimmed(line) && StartsWith(line, "|") && !IsHeader(line) && !IsSeparator(line)
  }

  ghost predicate NewlineFree(e: LogEntry) { '\n' !in AllText(e) }

  lemma RowEnds(e: LogEntry)
    ensures FormatRow(e) != "" && FormatRow(e)[0] == '|' && Trimmed(FormatRow(e)) && StartsWith(FormatRow(e), "|")
  {
  }

  lemma InBody(t: string, c: char)
    ensures c in Body(t) <==> c in t || c == ' '
  {
  }

  lemma InBodies(b1: string, b2: string, b3: string, b4: string, c: char)
    ensures c in "|" + (b1 + ("|" + (b2 + ("|" + (b3 + ("|" + (b4 + "|")))))))
       <==> c in b1 || c in b2 || c in b3 || c in b4 || c == '|'
  {
  }

  /** The characters of a row are those of the escaped fields, blanks and pipes. */
  lemma RowMembers(e: LogEntry, c: char)
    ensures c in FormatRow(e)
       <==> || c in e.timestamp || c in Escape(e.action) || c in Escape(e.conceptId)
            || c in Escape(DetailsText(e)) || c in " |"
  {
    var a, p, d := Escape(e.action), Escape(e.conceptId), Escape(DetailsText(e));
    InBodies(Body(e.timestamp), Body(a), Body(p), Body(d), c);
    InBody(e.timestamp, c);
    InBody(a, c);
    InBody(p, c);
    InBody(d, c);
  }

  lemma RowCharacters(e: LogEntry, c: char)
    ensures c in FormatRow(e) ==> c in AllText(e) || c in " |" || (c == '\\' && '|' in AllText(e))
    ensures c in AllText(e) ==> c in FormatRow(e)
  {
    EscapeDrawn(e.action);
    EscapeDrawn(e.conceptId);
    EscapeDrawn(DetailsText(e));
    RowMembers(e, c);
  }

  lemma HeaderByTimestamp(e: LogEntry)
    ensures IsHeader(FormatRow(e)) <==> StartsWith(e.timestamp, "Timestamp")
  {
    var row, t := FormatRow(e), e.timestamp;
    var rest := row[|t| + 2..];
    assert row == "| " + t + rest && |rest| > 0 && rest[0] == ' ';
    var h := "Timestamp";
    if |t| < |h| {
      assert row[|t| + 2] == ' ' && "| Timestamp"[|t| + 2] == h[|t|];
    } else {
      assert row[..11] == "| " + t[..9];
      assert "| Timestamp" == "| " + h;
      assert (row[..11])[2..] == t[..9] && "| Timestamp"[2..] == h;
    }
  }

  lemma {:induction false} PipeBringsBackslash(t: string, escaped: bool)
    requires NoBarePipe(t, escaped) && '|' in t
    ensures '\\' in t || (escaped && t[0] == '|')
  {
    if t[0] != '|' {
      assert t == [t[0]] + t[1..];
      PipeBringsBackslash(t[1..], t[0] == '\\');
    }
  }

  lemma {:induction false} EscapedPipe(s: string)
    requires '|' in s
    ensures '\\' in Escape(s)
  {
    if s[0] != '|' {
      assert s == [s[0]] + s[1..];
      EscapedPipe(s[1..]);
    }
  }

  lemma PipeShows(e: LogEntry)
    requires NoBarePipe(e.timestamp, false) && '|' in AllText(e)
    ensures '\\' in FormatRow(e)
  {
    if '|' in e.timestamp { PipeBringsBackslash(e.timestamp, false); }
    if '|' in e.action { EscapedPipe(e.action); }
    if '|' in e.conceptId { EscapedPipe(e.conceptId); }
    if '|' in DetailsText(e) { EscapedPipe(DetailsText(e)); }
    RowMembers(e, '\\');
  }

  lemma NoSeparator(line: string, c: char)
    requires c in line && !IsSpace(c) && c !in "-:|"
    ensures !IsSeparator(line)
  {
    var i :| 0 <= i < |line| && line[i] == c;
    assert !(IsSpace(line[i]) || line[i] in "-:|");
  }

  lemma SeparatorByText(e: LogEntry)
    requires NoBarePipe(e.timestamp, false)
    ensures IsSeparator(FormatRow(e)) <==> !Solid(AllText(e))
  {
    var row := FormatRow(e);
    RowEnds(e);
    if Solid(AllText(e)) {
      var c :| c in AllText(e) && !IsSpace(c) && c !in "-:";
      if c == '|' {
        PipeShows(e);
        NoSeparator(row, '\\');
      } else {
        RowCharacters(e, c);
        NoSeparator(row, c);
      }
    } else {
      forall i | 1 <= i < |row| ensures IsSpace(row[i]) || row[i] in "-:|" { RowCharacters(e, row[i]); }
      assert |row| >= 2;
    }
  }

  lemma KeptExactly(e: LogEntry)
    requires NoBarePipe(e.timestamp, false)
    ensures Kept(FormatRow(e)) <==> !StartsWith(e.timestamp, "Timestamp") && Solid(AllText(e))
  {
    RowEnds(e);
    HeaderByTimestamp(e);
    SeparatorByText(e);
  }

  // ---------- What parsing can return ----------

  lemma {:induction false} CellsAreSafe(s: string, escaped: bool)
    ensures var cells := SplitCells(s, escaped);
            NoBarePipe(cells[0], escaped) && forall i :: 1 <= i < |cells| ==> NoBarePipe(cells[i], false)
    ensures forall i :: 0 <= i < |SplitCells(s, escaped)| ==> DrawnFrom(SplitCells(s, escaped)[i], s)
  {
    if s != "" {
      CellsAreSafe(s[1..], s[0] == '\\');
      var rest, cells := SplitCells(s[1..], s[0] == '\\'), SplitCells(s, escaped);
      assert forall c :: c in s[1..] ==> c in s;
      if s[0] == '|' && !escaped {
        assert NoBarePipe(rest[0], false);
        assert forall i :: 1 <= i < |cells| ==> cells[i] == rest[i - 1];
      } else {
        assert cells[0][1..] == rest[0];
        assert forall i :: 1 <= i < |cells| ==> cells[i] == rest[i];
      }
    }
  }

  lemma {:induction false} NoBarePrefix(s: string, k: nat, escaped: bool)
    requires k <= |s| && NoBarePipe(s, escaped)
    ensures NoBarePipe(s[..k], escaped)
  {
    if k > 0 {
      NoBarePrefix(s[1..], k - 1, s[0] == '\\');
      assert s[..k][1..] == s[1..][..k - 1];
    }
  }

  lemma {:induction false} NoBareTrimStart(s: string)
    requires NoBarePipe(s, false)
    ensures NoBarePipe(TrimStart(s), false)
  {
    if s != "" && IsSpace(s[0]) { NoBareTrimStart(s[1..]); }
  }

  lemma NoBareTrim(s: string)
    requires NoBarePipe(s, false)
    ensures NoBarePipe(Trim(s), false)
  {
    NoBareTrimStart(s);
    TrimEndPrefix(TrimStart(s));
    var k :| 0 <= k <= |TrimStart(s)| && TrimEnd(TrimStart(s)) == TrimStart(s)[..k];
    NoBarePrefix(TrimStart(s), k, false);
  }

  /** A cell after trimming and filtering. */
  ghost predicate Clean(cell: string, row: string) {
    cell != "" && Trimmed(cell) && NoBarePipe(cell, false) && DrawnFrom(cell, row)
  }

  lemma {:induction false} FilledAreClean(cells: seq<string>, row: string)
    requires forall i :: 0 <= i < |cells| ==> NoBarePipe(cells[i], false) && DrawnFrom(cells[i], row)
    ensures forall i :: 0 <= i < |FilledCells(cells)| ==> Clean(FilledCells(cells)[i], row)
  {
    if cells != [] {
      FilledAreClean(cells[1..], row);
      TrimTrims(cells[0]);
      NoBareTrim(cells[0]);
    }
  }

  lemma CleanUnescapes(cell: string, row: string)
    requires Clean(cell, row) && '\n' !in row
    ensures Field(Unescape(cell))
  {
    UnescapeEnds(cell);
  }

  /** Whatever is parsed from a line has fields in order. */
  lemma ParsedFields(row: string)
    requires ParseRow(row).Some? && '\n' !in row
    ensures var e := ParseRow(row).value;
            Field(e.timestamp) && Field(e.action) && Field(e.conceptId) && (e.details.Some? ==> Field(e.details.value))
            && NoBarePipe(e.timestamp, false)
  {
    CellsAreSafe(row, false);
    FilledAreClean(SplitCells(row, false), row);
    var cells := FilledCells(SplitCells(row, false));
    assert Clean(cells[0], row);
    CleanUnescapes(cells[1], row);
    CleanUnescapes(cells[2], row);
    if |cells| > 3 { CleanUnescapes(cells[3], row); }
  }

  lemma PlainLine(line: string)
    requires Trimmed(line) && !IsHeader(line)
    ensures Trim(line) == line
    ensures forall rest, seen :: Scan([line] + rest, false, seen) == Scan(rest, false, seen)
  {
    TrimTrims(line);
    forall rest: seq<string>, seen: bool ensures Scan([line] + rest, false, seen) == Scan(rest, false, seen) {
      assert ([line] + rest)[1..] == rest;
    }
  }

  lemma HeaderStartsWithPipe(line: string)
    ensures IsHeader(line) ==> line != "" && line[0] == '|'
  {
    if IsHeader(line) { assert line[0] == line[..11][0]; }
  }

  lemma FrontMatterIsPlain(i: nat)
    requires i < 8
    ensures Trimmed(FILE_HEADER[i]) && !IsHeader(FILE_HEADER[i])
  {
    var h := FILE_HEADER;
    assert h[0] == "---" && h[4] == "---" && h[5] == "" && h[7] == "";
    assert h[1][0] == 't' && h[1][|h[1]| - 1] == 'g';
    assert h[2][0] == 't' && h[2][|h[2]| - 1] == 'g';
    assert h[3][0] == 'd' && h[3][|h[3]| - 1] == 's';
    assert h[6][0] == '#' && h[6][|h[6]| - 1] == 'g';
    HeaderStartsWithPipe(h[i]);
  }

  lemma TableHeader()
    ensures Trimmed(FILE_HEADER[8]) && IsHeader(FILE_HEADER[8])
    ensures Trimmed(FILE_HEADER[9]) && !IsHeader(FILE_HEADER[9]) && IsSeparator(FILE_HEADER[9])
  {
    var h := FILE_HEADER;
    assert h[8][..11] == "| Timestamp";
    assert h[9][1] == '-';
  }

  lemma TableStarts(header: string, separator: string, rest: seq<string>)
    requires Trimmed(header) && IsHeader(header)
    requires Trimmed(separator) && !IsHeader(separator) && IsSeparator(separator)
    ensures Scan([header, separator] + rest, false, false) == Scan(rest, true, true)
  {
    var lines := [header, separator] + rest;
    assert lines[1..] == [separator] + rest && lines[1..][1..] == rest;
    TrimTrims(header);
    TrimTrims(separator);
  }

  lemma PlainThenTable(h: seq<string>, n: nat, rest: seq<string>)
    requires |h| == n + 2 && forall i :: 0 <= i < n ==> Trimmed(h[i]) && !IsHeader(h[i])
    requires Trimmed(h[n]) && IsHeader(h[n])
    requires Trimmed(h[n + 1]) && !IsHeader(h[n + 1]) && IsSeparator(h[n + 1])
    ensures Scan(h + rest, false, false) == Scan(rest, true, true)
  {
    SkipPlain(h[..n], [h[n], h[n + 1]] + rest);
    assert h + rest == h[..n] + ([h[n], h[n + 1]] + rest);
    TableStarts(h[n], h[n + 1], rest);
  }

  /** The file's header leads into the table. */
  lemma HeaderScans(rest: seq<string>)
    ensures Scan(FILE_HEADER + rest, false, false) == Scan(rest, true, true)
  {
    forall i | 0 <= i < 8 ensures Trimmed(FILE_HEADER[i]) && !IsHeader(FILE_HEADER[i]) { FrontMatterIsPlain(i); }
    TableHeader();
    PlainThenTable(FILE_HEADER, 8, rest);
  }

  lemma {:induction false} SkipPlain(plain: seq<string>, rest: seq<string>)
    requires forall i :: 0 <= i < |plain| ==> Trimmed(plain[i]) && !IsHeader(plain[i])
    ensures Scan(plain + rest, false, false) == Scan(rest, false, false)
  {
    if plain == [] {
      assert plain + rest == rest;
    } else {
      PlainLine(plain[0]);
      assert plain + rest == [plain[0]] + (plain[1..] + rest);
      SkipPlain(plain[1..], rest);
    }
  }

  /** Rows of a table whose separator has not been seen are passed over. */
  lemma {:induction false} ScanUnseen(rows: seq<string>)
    requires forall i :: 0 <= i < |rows| ==> Kept(rows[i])
    ensures Scan(rows + [""], true, false) == []
  {
    if rows == [] {
      assert rows + [""] == [""];
    } else {
      assert (rows + [""])[1..] == rows[1..] + [""];
      TrimTrims(rows[0]);
      ScanUnseen(rows[1..]);
    }
  }

  lemma {:induction false} ScanKept(rows: seq<string>)
    requires forall i :: 0 <= i < |rows| ==> Kept(rows[i])
    ensures Scan(rows + [""], true, true) == rows
  {
    if rows == [] {
      assert rows + [""] == [""];
    } else {
      assert (rows + [""])[1..] == rows[1..] + [""];
      TrimTrims(rows[0]);
      ScanKept(rows[1..]);
    }
  }

  lemma FrontMatterHasNoNewlines()
    ensures forall i :: 0 <= i < 5 ==> '\n' !in FILE_HEADER[i]
  {
    var h := FILE_HEADER;
    assert '\n' !in h[0] && '\n' !in h[1] && '\n' !in h[2] && '\n' !in h[4];
    var left, right := "description: Chronological", " record of bundle changes";
    assert h[3] == left + right && '\n' !in left && '\n' !in right;
  }

  lemma TitleHasNoNewlines()
    ensures '\n' !in FILE_HEADER[5] && '\n' !in FILE_HEADER[6] && '\n' !in FILE_HEADER[7]
  {
  }

  lemma NoneInBoth(a: string, b: string, c: char)
    requires c !in a && c !in b
    ensures c !in a + b
  {
  }

  lemma TableHeaderHasNoNewlines()
    ensures '\n' !in FILE_HEADER[8]
  {
    NoneInBoth("| Timestamp | Action |", " Concept | Details |", '\n');
    assert FILE_HEADER[8] == "| Timestamp | Action |" + " Concept | Details |";
  }

  lemma TableSeparatorHasNoNewlines()
    ensures '\n' !in FILE_HEADER[9]
  {
    NoneInBoth("|-----------|--------", "|---------|---------|", '\n');
    assert FILE_HEADER[9] == "|-----------|--------" + "|---------|---------|";
  }

  lemma HeaderHasNoNewlines()
    ensures forall p :: p in FILE_HEADER ==> '\n' !in p
  {
    FrontMatterHasNoNewlines();
    TitleHasNoNewlines();
    TableHeaderHasNoNewlines();
    TableSeparatorHasNoNewlines();
  }

  /** What is read back from a written file, if no row has a newline. */
  lemma ContentScans(rows: seq<string>)
    requires forall r :: r in rows ==> '\n' !in r
    ensures TableRows(Content(rows)) == Scan(rows + [""], true, true)
  {
    HeaderHasNoNewlines();
    var lines := FILE_HEADER + rows + [""];
    SplitJoin(lines, '\n');
    assert lines == FILE_HEADER + (rows + [""]);
    HeaderScans(rows + [""]);
  }

  lemma {:induction false} ScanLines(lines: seq<string>, inTable: bool, seen: bool)
    requires forall p :: p in lines ==> '\n' !in p
    ensures forall r :: r in Scan(lines, inTable, seen) ==> '\n' !in r && Kept(r)
  {
    if lines != [] {
      TrimTrims(lines[0]);
      assert forall p :: p in lines[1..] ==> p in lines;
      ScanLines(lines[1..], inTable, seen);
      ScanLines(lines[1..], true, false);
      ScanLines(lines[1..], true, true);
      ScanLines(lines[1..], false, seen);
      ScanLines(lines[1..], true, seen);
    }
  }

  lemma {:induction false} CollectBound<A, B>(xs: seq<A>, f: A -> Option<B>)
    ensures |Collect(xs, f)| <= |xs|
    ensures |Collect(xs, f)| == |xs| ==> forall i :: 0 <= i < |xs| ==> f(xs[i]) == Some(Collect(xs, f)[i])
  {
    if xs != [] { CollectBound(xs[..|xs| - 1], f); }
  }

  lemma {:induction false} CollectExactly<A, B>(xs: seq<A>, f: A -> Option<B>, ys: seq<B>)
    requires |xs| == |ys| && forall i :: 0 <= i < |xs| ==> f(xs[i]) == Some(ys[i])
    ensures Collect(xs, f) == ys
  {
    if xs != [] { CollectExactly(xs[..|xs| - 1], f, ys[..|ys| - 1]); }
  }

  lemma {:induction false} CollectConcat<A, B>(xs: seq<A>, ys: seq<A>, f: A -> Option<B>)
    ensures Collect(xs + ys, f) == Collect(xs, f) + Collect(ys, f)
  {
    if ys == [] {
      assert xs + ys == xs;
    } else {
      assert (xs + ys)[..|xs + ys| - 1] == xs + ys[..|ys| - 1];
      CollectConcat(xs, ys[..|ys| - 1], f);
    }
  }

  lemma {:induction false} CollectedFrom<A, B>(xs: seq<A>, f: A -> Option<B>)
    ensures forall y :: y in Collect(xs, f) ==> exists x :: x in xs && f(x) == Some(y)
  {
    if xs != [] {
      var front, last := xs[..|xs| - 1], xs[|xs| - 1];
      assert xs == front + [last];
      CollectedFrom(front, f);
      forall y | y in Collect(xs, f) ensures exists x :: x in xs && f(x) == Some(y) {
        if y in Collect(front, f) {
          var x :| x in front && f(x) == Some(y);
          assert x in xs;
        } else {
          assert f(last) == Some(y);
        }
      }
    }
  }
}
