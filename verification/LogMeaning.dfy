/** The log file as text, and how its cells and lines read. */
module LogMeaning {
  import opened Basics
  import opened Text
  import opened LogTable

  function WithLineEnds(lines: seq<string>): string {
    if lines == [] then "" else lines[0] + ("\n" + WithLineEnds(lines[1..]))
  }

  lemma {:induction false} LinesJoined(lines: seq<string>)
    ensures Join(lines + [""], '\n') == WithLineEnds(lines)
  {
    if lines != [] {
      assert (lines + [""])[1..] == lines[1..] + [""];
      LinesJoined(lines[1..]);
    }
  }

  lemma {:induction false} LinesConcat(a: seq<string>, b: seq<string>)
    ensures WithLineEnds(a + b) == WithLineEnds(a) + WithLineEnds(b)
  {
    if a == [] {
      assert a + b == b;
    } else {
      assert (a + b)[1..] == a[1..] + b;
      LinesConcat(a[1..], b);
    }
  }

  /** The file: fixed fields, a title, the head of the table, and the rows, each line with its end. */
  lemma WrittenFile(rows: seq<string>)
    ensures Content(rows)
         == WithLineEnds(["---", "type: Log", "title: Change Log",
                          "description: Chronological" + " record of bundle changes", "---", "",
                          "# Change Log", "",
                          "| Timestamp | Action | Concept | Details |",
                          "|-----------|--------|---------|---------|"])
            + WithLineEnds(rows)
  {
    LinesJoined(FILE_HEADER + rows);
    LinesConcat(FILE_HEADER, rows);
  }

  /** Escaping puts a backslash before every pipe and leaves the rest; reading a cell takes it away. */
  lemma {:induction false} PipesEscaped(a: string, b: string)
    ensures Escape(a + "|" + b) == Escape(a) + "\\|" + Escape(b)
    ensures '|' !in a ==> Escape(a) == a
  {
    if a == "" {
      assert a + "|" + b == "|" + b;
    } else {
      assert (a + "|" + b)[1..] == a[1..] + "|" + b;
      PipesEscaped(a[1..], b);
      assert a == [a[0]] + a[1..];
    }
  }

  lemma {:induction false} PipesUnescaped(a: string, b: string)
    ensures Unescape(a + "\\|" + b) == Unescape(a) + "|" + Unescape(b)
    ensures '|' !in a ==> Unescape(a) == a
  {
    var s := a + "\\|" + b;
    if a == "" {
      assert s[2..] == b;
    } else if |a| >= 2 && a[0] == '\\' && a[1] == '|' {
      assert s[2..] == a[2..] + "\\|" + b;
      PipesUnescaped(a[2..], b);
    } else {
      assert s[1..] == a[1..] + "\\|" + b;
      PipesUnescaped(a[1..], b);
      assert a == [a[0]] + a[1..];
    }
  }

  /** The line below the head of the table: a pipe and at least one dash, colon, pipe or blank, and
      nothing else. */
  lemma SeparatorExactly(line: string)
    ensures IsSeparator(line)
       <==> exists rest :: rest != "" && line == "|" + rest && forall c :: c in rest ==> IsSpace(c) || c in "-:|"
  {
    if IsSeparator(line) {
      var rest := line[1..];
      assert line == "|" + rest;
      forall c | c in rest ensures IsSpace(c) || c in "-:|" {
        var i :| 0 <= i < |rest| && rest[i] == c;
        assert line[i + 1] == c;
      }
    }
  }
}
