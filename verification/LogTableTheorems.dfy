/** Exactly which log entries survive any sequence of appends and reads. */
module LogTableTheorems {
  import opened Basics
  import opened Text
  import opened LogTable
  import opened LogTableLemmas

  /** Entries with fields in order and a timestamp that starts with a digit and has no pipe are
      faithful. */
  lemma DatedIsFaithful(e: LogEntry)
    requires Field(e.timestamp) && Field(e.action) && Field(e.conceptId) && (e.details.Some? ==> Field(e.details.value))
    requires '0' <= e.timestamp[0] <= '9' && '|' !in e.timestamp
    ensures Faithful(e)
  {
    NoPipeAtAll(e.timestamp, false);
    assert e.timestamp[0] in AllText(e);
  }

  /** An entry's row is kept and parses back to the entry exactly when the entry is faithful. */
  lemma RowRoundTripsExactly(e: LogEntry)
    ensures NewlineFree(e) && Kept(FormatRow(e)) && ParseRow(FormatRow(e)) == Some(e) <==> Faithful(e)
  {
    if Faithful(e) {
      FaithfulRowParses(e);
      KeptExactly(e);
    }
    if NewlineFree(e) && Kept(FormatRow(e)) && ParseRow(FormatRow(e)) == Some(e) {
      RowCharacters(e, '\n');
      ParsedFields(FormatRow(e));
      KeptExactly(e);
    }
  }

  // ---------- The whole file ----------

  /** The file after a run of appends to whatever was there. */
  function LogAfter(file: Option<string>, entries: seq<LogEntry>): Option<string> {
    if entries == [] then file
    else Some(Content([FormatRow(entries[|entries| - 1])] + RowsOf(LogAfter(file, entries[..|entries| - 1]))))
  }

  /** Newest first. */
  function Reversed(entries: seq<LogEntry>): (r: seq<LogEntry>)
    ensures |r| == |entries| && forall e :: e in r <==> e in entries
  {
    if entries == [] then []
    else
      var front, last := entries[..|entries| - 1], entries[|entries| - 1];
      assert entries == front + [last];
      [last] + Reversed(front)
  }

  function FormatAll(entries: seq<LogEntry>): (rows: seq<string>)
    ensures |rows| == |entries|
  {
    if entries == [] then [] else [FormatRow(entries[0])] + FormatAll(entries[1..])
  }

  lemma {:induction false} FormatAllAt(entries: seq<LogEntry>, i: nat)
    requires i < |entries|
    ensures FormatAll(entries)[i] == FormatRow(entries[i])
  {
    if i > 0 { FormatAllAt(entries[1..], i - 1); }
  }

  /** What reading takes from a file it would take again: single lines, trimmed, that start with a
      pipe and are neither header nor separator. */
  lemma RowsAreKept(file: Option<string>)
    ensures forall r :: r in RowsOf(file) ==> '\n' !in r && Kept(r)
  {
    if file.Some? {
      SplitPieces(file.value, '\n');
      ScanLines(Split(file.value, '\n'), false, false);
    }
  }

  lemma ScanFirst(top: string, rest: seq<string>)
    requires Trim(top) == top && StartsWith(top, "|")
    ensures Scan([top] + rest, true, true)
         == if IsHeader(top) then Scan(rest, true, false)
            else if IsSeparator(top) then Scan(rest, true, true) else [top] + Scan(rest, true, true)
  {
    assert ([top] + rest)[1..] == rest;
  }

  lemma ScanOnTop(top: string, below: seq<string>)
    requires Trimmed(top) && StartsWith(top, "|") && forall i :: 0 <= i < |below| ==> Kept(below[i])
    ensures Scan([top] + below + [""], true, true)
         == if IsHeader(top) then [] else if IsSeparator(top) then below else [top] + below
  {
    var rest := below + [""];
    assert [top] + below + [""] == [top] + rest;
    TrimTrims(top);
    ScanFirst(top, rest);
    ScanUnseen(below);
    ScanKept(below);
  }

  /** What one append does to the rows that can be read: the new row goes on top, unless it reads as
      a separator, which leaves them as they are, or as a header, which hides them all. */
  lemma AppendExactly(file: Option<string>, e: LogEntry)
    requires NewlineFree(e)
    ensures var row := FormatRow(e);
            RowsOf(Some(Content([row] + RowsOf(file))))
            == if IsHeader(row) then [] else if IsSeparator(row) then RowsOf(file) else [row] + RowsOf(file)
    ensures Kept(FormatRow(e)) <==> !IsHeader(FormatRow(e)) && !IsSeparator(FormatRow(e))
  {
    RowsAreKept(file);
    RowCharacters(e, '\n');
    RowEnds(e);
    ContentScans([FormatRow(e)] + RowsOf(file));
    ScanOnTop(FormatRow(e), RowsOf(file));
  }

  /** Every appended row is there as it was written, newest first, above the rows from before. */
  ghost predicate AllThere(file: Option<string>, entries: seq<LogEntry>) {
    && RowsOf(LogAfter(file, entries)) == FormatAll(Reversed(entries)) + RowsOf(file)
    && forall e :: e in entries ==> Kept(FormatRow(e))
  }

  lemma LogExtends(file: Option<string>, front: seq<LogEntry>, last: LogEntry)
    ensures LogAfter(file, front + [last]) == Some(Content([FormatRow(last)] + RowsOf(LogAfter(file, front))))
  {
    var entries := front + [last];
    assert entries[..|entries| - 1] == front && entries[|entries| - 1] == last;
  }

  lemma ReversedExtends(front: seq<LogEntry>, last: LogEntry)
    ensures FormatAll(Reversed(front + [last])) == [FormatRow(last)] + FormatAll(Reversed(front))
  {
    var entries := front + [last];
    assert entries[..|entries| - 1] == front && entries[|entries| - 1] == last;
    assert Reversed(entries)[1..] == Reversed(front);
  }

  lemma RowsGrow(file: Option<string>, front: seq<LogEntry>, last: LogEntry)
    requires NewlineFree(last) && Kept(FormatRow(last))
    ensures RowsOf(LogAfter(file, front + [last])) == [FormatRow(last)] + RowsOf(LogAfter(file, front))
  {
    LogExtends(file, front, last);
    AppendExactly(LogAfter(file, front), last);
  }

  lemma OnTop(top: seq<string>, middle: seq<string>, below: seq<string>)
    ensures top + (middle + below) == (top + middle) + below
  {
  }

  lemma AllThereGrows(file: Option<string>, front: seq<LogEntry>, last: LogEntry)
    requires NewlineFree(last) && Kept(FormatRow(last)) && AllThere(file, front)
    ensures AllThere(file, front + [last])
  {
    RowsGrow(file, front, last);
    ReversedExtends(front, last);
    OnTop([FormatRow(last)], FormatAll(Reversed(front)), RowsOf(file));
  }

  lemma {:induction false} AllRowsKept(file: Option<string>, entries: seq<LogEntry>)
    requires forall e :: e in entries ==> NewlineFree(e) && Kept(FormatRow(e))
    ensures AllThere(file, entries)
  {
    if entries == [] {
      assert FormatAll(Reversed(entries)) + RowsOf(file) == RowsOf(file);
    } else {
      var front, last := entries[..|entries| - 1], entries[|entries| - 1];
      assert entries == front + [last];
      AllRowsKept(file, front);
      AllThereGrows(file, front, last);
    }
  }

  lemma OneMoreEntry(file: Option<string>, e: LogEntry)
    requires NewlineFree(e)
    ensures var after := Some(Content([FormatRow(e)] + RowsOf(file)));
            && |EntriesOf(after)| <= |EntriesOf(file)| + 1
            && (!Kept(FormatRow(e)) ==> |EntriesOf(after)| <= |EntriesOf(file)|)
  {
    AppendExactly(file, e);
    CollectConcat([FormatRow(e)], RowsOf(file), ParseRow);
    CollectBound([FormatRow(e)], ParseRow);
  }

  /** Without newlines every append adds at most one entry; if it always adds one, every row is there. */
  lemma {:induction false} EntriesBound(file: Option<string>, entries: seq<LogEntry>)
    requires forall e :: e in entries ==> NewlineFree(e)
    ensures |EntriesOf(LogAfter(file, entries))| <= |entries| + |EntriesOf(file)|
    ensures |EntriesOf(LogAfter(file, entries))| == |entries| + |EntriesOf(file)| ==> AllThere(file, entries)
  {
    if entries == [] {
      AllRowsKept(file, entries);
    } else {
      var front, last := entries[..|entries| - 1], entries[|entries| - 1];
      assert entries == front + [last];
      EntriesBound(file, front);
      OneMoreEntry(LogAfter(file, front), last);
      LogExtends(file, front, last);
      if |EntriesOf(LogAfter(file, entries))| == |entries| + |EntriesOf(file)| { AllThereGrows(file, front, last); }
    }
  }

  lemma EntriesAreNewlineFree(file: Option<string>)
    ensures forall e :: e in EntriesOf(file) ==> NewlineFree(e)
  {
    var rows := RowsOf(file);
    RowsAreKept(file);
    CollectedFrom(rows, ParseRow);
    forall e | e in ParseAll(rows) ensures NewlineFree(e) {
      var row :| row in rows && ParseRow(row) == Some(e);
      ParsedFields(row);
    }
  }

  /** Whatever the file held before: reading returns exactly the appended entries, newest first,
      followed by those that could be read before, exactly when every appended one is faithful. */
  lemma LogRoundTripsExactly(file: Option<string>, entries: seq<LogEntry>)
    ensures EntriesOf(LogAfter(file, entries)) == Reversed(entries) + EntriesOf(file)
       <==> forall e :: e in entries ==> Faithful(e)
  {
    if forall e :: e in entries ==> Faithful(e) {
      FaithfulRunsRoundTrip(file, entries);
    }
    if EntriesOf(LogAfter(file, entries)) == Reversed(entries) + EntriesOf(file) {
      RoundTripsAreFaithful(file, entries);
    }
  }

  lemma FaithfulRunsRoundTrip(file: Option<string>, entries: seq<LogEntry>)
    requires forall e :: e in entries ==> Faithful(e)
    ensures EntriesOf(LogAfter(file, entries)) == Reversed(entries) + EntriesOf(file)
  {
    forall e | e in entries ensures NewlineFree(e) && Kept(FormatRow(e)) { RowRoundTripsExactly(e); }
    AllRowsKept(file, entries);
    var newest := Reversed(entries);
    forall i | 0 <= i < |newest| ensures ParseRow(FormatAll(newest)[i]) == Some(newest[i]) {
      FormatAllAt(newest, i);
      RowRoundTripsExactly(newest[i]);
    }
    CollectExactly(FormatAll(newest), ParseRow, newest);
    CollectConcat(FormatAll(newest), RowsOf(file), ParseRow);
  }

  lemma RowsGiveEntries(rows: seq<string>, below: seq<string>, entries: seq<LogEntry>)
    requires |rows| == |entries| && ParseAll(rows + below) == entries + ParseAll(below)
    ensures forall i :: 0 <= i < |rows| ==> ParseRow(rows[i]) == Some(entries[i])
  {
    CollectConcat(rows, below, ParseRow);
    CollectBound(rows, ParseRow);
    assert |ParseAll(rows)| == |entries|;
    assert ParseAll(rows) == (ParseAll(rows) + ParseAll(below))[..|entries|] == entries;
  }

  lemma RoundTripsAreFaithful(file: Option<string>, entries: seq<LogEntry>)
    requires EntriesOf(LogAfter(file, entries)) == Reversed(entries) + EntriesOf(file)
    ensures forall e :: e in entries ==> Faithful(e)
  {
    var newest := Reversed(entries);
    EntriesAreNewlineFree(LogAfter(file, entries));
    forall e | e in entries ensures NewlineFree(e) { assert e in newest && e in newest + EntriesOf(file); }
    EntriesBound(file, entries);
    RowsGiveEntries(FormatAll(newest), RowsOf(file), newest);
    forall i | 0 <= i < |newest| ensures Faithful(newest[i]) { RowIsFaithful(newest, i); }
    forall e | e in entries ensures Faithful(e) { assert e in newest; }
  }

  lemma RowIsFaithful(entries: seq<LogEntry>, i: nat)
    requires i < |entries| && NewlineFree(entries[i]) && Kept(FormatRow(entries[i]))
    requires ParseRow(FormatAll(entries)[i]) == Some(entries[i])
    ensures Faithful(entries[i])
  {
    FormatAllAt(entries, i);
    RowRoundTripsExactly(entries[i]);
  }
}
