/** Splitting file contents into rows and rows into fields, as `read_csv` and
    `get_new_float_row` / `get_new_int_row` do with `getline` (main.cpp:78-128).

    `getline(stream, field, delim)` reads up to the next delimiter and drops it; a call
    fails only when the stream is already at its end, so a final empty segment yields no
    field and an empty text yields none at all. Converting a field to a number (`atof`,
    then a truncating cast for label rows) is the parameter `convert`. */
module Csv {
  import opened Seqs

  const COMMA: char := ','
  const NEW_LINE: char := '\n'

  /** The position of the first `d` in `s`, or `|s|` if there is none. */
  function FirstIndex(s: string, d: char): (i: nat)
    ensures i <= |s|
    ensures forall j :: 0 <= j < i ==> s[j] != d
    ensures i < |s| ==> s[i] == d
  {
    if |s| == 0 || s[0] == d then 0 else 1 + FirstIndex(s[1..], d)
  }

  /** The fields successive `getline` calls with delimiter `d` extract from `s`. */
  function Split(s: string, d: char): (fields: seq<string>)
    ensures Free(fields, d)
    ensures |fields| == 0 <==> |s| == 0
    decreases |s|
  {
    if |s| == 0 then []
    else
      var i := FirstIndex(s, d);
      if i == |s| then [s] else [s[..i]] + Split(s[i + 1..], d)
  }

  /** No field contains the delimiter. */
  predicate Free(fields: seq<string>, d: char)
  {
    forall k :: 0 <= k < |fields| ==> d !in fields[k]
  }

  /** Each field followed by the delimiter: the text a writer terminating every field produces. */
  function Terminated(fields: seq<string>, d: char): string
  {
    if |fields| == 0 then [] else fields[0] + [d] + Terminated(fields[1..], d)
  }

  /** The fields with the delimiter between them: the usual shape of a CSV row. */
  function Join(fields: seq<string>, d: char): string
  {
    if |fields| == 0 then []
    else if |fields| == 1 then fields[0]
    else fields[0] + [d] + Join(fields[1..], d)
  }

  /** The first field of `a + [d] + b` is `a` when `a` holds no delimiter. */
  lemma SplitFirstField(a: string, b: string, d: char)
    requires d !in a
    ensures Split(a + [d] + b, d) == [a] + Split(b, d)
  {
    var s := a + [d] + b;
    var i := FirstIndex(s, d);
    assert s[|a|] == d;
    assert forall j :: 0 <= j < |a| ==> s[j] == a[j];
    assert s[..i] == a;
    assert s[i + 1..] == b;
  }

  /** Splitting undoes termination. */
  lemma {:induction false} SplitTerminated(fields: seq<string>, d: char)
    requires Free(fields, d)
    ensures Split(Terminated(fields, d), d) == fields
    decreases |fields|
  {
    if |fields| > 0 {
      SplitFirstField(fields[0], Terminated(fields[1..], d), d);
      SplitTerminated(fields[1..], d);
    }
  }

  /** `s` with a delimiter appended unless it is empty or already ends with one. */
  function Closed(s: string, d: char): string
  {
    if |s| == 0 || s[|s| - 1] == d then s else s + [d]
  }

  /** Closing a text that goes on after a delimiter only closes the part after it. */
  lemma ClosedAfterDelimiter(a: string, rest: string, d: char)
    ensures Closed(a + [d] + rest, d) == a + [d] + Closed(rest, d)
  {
    var s := a + [d] + rest;
    if |rest| > 0 {
      assert s[|s| - 1] == rest[|rest| - 1];
    }
  }

  /** Terminating a leading field writes it and one delimiter before the rest. */
  lemma TerminatedCons(field: string, rest: seq<string>, d: char)
    ensures Terminated([field] + rest, d) == field + [d] + Terminated(rest, d)
  {
    assert ([field] + rest)[1..] == rest;
  }

  /** Terminating the fields gives back the text, plus a delimiter where the text lacked a final one. */
  lemma {:induction false} TerminatedSplit(s: string, d: char)
    ensures Terminated(Split(s, d), d) == Closed(s, d)
    decreases |s|
  {
    if |s| > 0 {
      var i := FirstIndex(s, d);
      if i == |s| {
        TerminatedSplitNoDelimiter(s, d);
      } else {
        var head, rest := s[..i], s[i + 1..];
        assert d !in head;
        assert s == head + [d] + rest;
        TerminatedSplit(rest, d);
        TerminatedSplitStep(head, rest, d);
      }
    }
  }

  /** A non-empty text without a delimiter is one field, closed by one delimiter. */
  lemma TerminatedSplitNoDelimiter(s: string, d: char)
    requires |s| > 0 && FirstIndex(s, d) == |s|
    ensures Terminated(Split(s, d), d) == Closed(s, d)
  {
    assert Split(s, d) == [s];
    TerminatedCons(s, [], d);
    assert s[|s| - 1] != d;
  }

  /** The inductive step: the field before the first delimiter is written back with it. */
  lemma TerminatedSplitStep(head: string, rest: string, d: char)
    requires d !in head
    requires Terminated(Split(rest, d), d) == Closed(rest, d)
    ensures Terminated(Split(head + [d] + rest, d), d) == Closed(head + [d] + rest, d)
  {
    SplitFirstField(head, rest, d);
    TerminatedCons(head, Split(rest, d), d);
    ClosedAfterDelimiter(head, rest, d);
  }

  /** A trailing delimiter after a non-empty final segment adds no field. */
  lemma SplitIgnoresTrailingDelimiter(s: string, d: char)
    requires |s| > 0 && s[|s| - 1] != d
    ensures Split(s + [d], d) == Split(s, d)
  {
    TerminatedSplit(s + [d], d);
    TerminatedSplit(s, d);
    SplitTerminated(Split(s + [d], d), d);
    SplitTerminated(Split(s, d), d);
  }

  /** Joining and then terminating the last field is terminating every field. */
  lemma {:induction false} JoinTerminated(fields: seq<string>, d: char)
    requires |fields| > 0
    ensures Join(fields, d) + [d] == Terminated(fields, d)
    decreases |fields|
  {
    if |fields| > 1 {
      JoinTerminated(fields[1..], d);
    } else {
      assert Terminated(fields, d) == fields[0] + [d] + [];
    }
  }

  /** A join ends with its last field. */
  lemma {:induction false} JoinEndsWithLast(fields: seq<string>, d: char)
    requires |fields| > 0
    ensures var j, last := Join(fields, d), fields[|fields| - 1];
      |last| <= |j| && j[|j| - |last|..] == last
    decreases |fields|
  {
    if |fields| > 1 {
      JoinEndsWithLast(fields[1..], d);
    }
  }

  /** Splitting undoes joining when no field holds the delimiter and the last one is not empty. */
  lemma SplitJoin(fields: seq<string>, d: char)
    requires |fields| > 0 && Free(fields, d)
    requires |fields[|fields| - 1]| > 0
    ensures Split(Join(fields, d), d) == fields
  {
    var j := Join(fields, d);
    JoinEndsWithLast(fields, d);
    var last := fields[|fields| - 1];
    assert j[|j| - 1] == last[|last| - 1];
    assert last[|last| - 1] in last;
    JoinTerminated(fields, d);
    SplitIgnoresTrailingDelimiter(j, d);
    SplitTerminated(fields, d);
  }

  /** The lines `read_csv` turns into rows: the first (header) line is read and dropped. */
  function Lines(contents: string): (lines: seq<string>)
    ensures Free(lines, NEW_LINE)
    ensures |contents| == 0 ==> lines == []
    ensures |contents| > 0 ==> |lines| == |Split(contents, NEW_LINE)| - 1
  {
    var all := Split(contents, NEW_LINE);
    if |all| == 0 then [] else all[1..]
  }

  /** The header line is dropped and every later line becomes a row. */
  lemma LinesDropHeader(header: string, body: string)
    requires NEW_LINE !in header
    ensures Lines(header + [NEW_LINE] + body) == Split(body, NEW_LINE)
  {
    SplitFirstField(header, body, NEW_LINE);
  }

  /** A newline at the end of the file adds no row. */
  lemma TrailingNewlineAddsNoRow(contents: string)
    requires |contents| > 0 && contents[|contents| - 1] != NEW_LINE
    ensures Lines(contents + [NEW_LINE]) == Lines(contents)
  {
    SplitIgnoresTrailingDelimiter(contents, NEW_LINE);
  }

  /** A file holding only a header, or nothing, has no rows. */
  lemma HeaderOnlyHasNoRows(header: string)
    requires NEW_LINE !in header
    ensures Lines(header) == []
    ensures Lines(header + [NEW_LINE]) == []
  {
    LinesDropHeader(header, []);
    if |header| > 0 {
      assert FirstIndex(header, NEW_LINE) == |header|;
    }
  }

  /** One converted value per comma-separated field of a line. */
  function ParseRow<T>(line: string, convert: string -> T): (row: seq<T>)
    ensures |row| == |Split(line, COMMA)|
    ensures forall k :: 0 <= k < |row| ==> row[k] == convert(Split(line, COMMA)[k])
    ensures |line| == 0 ==> row == []
  {
    Map(convert, Split(line, COMMA))
  }

  /** A line of joined fields parses to the converted fields; an empty line parses to no value. */
  lemma ParseJoinedRow<T>(fields: seq<string>, convert: string -> T)
    requires |fields| > 0 && Free(fields, COMMA)
    requires |fields[|fields| - 1]| > 0
    ensures ParseRow(Join(fields, COMMA), convert) == Map(convert, fields)
    ensures ParseRow([], convert) == []
  {
    SplitJoin(fields, COMMA);
  }

  /** The table `read_csv` builds: one parsed row per line after the header. */
  function ReadCsv<T>(contents: string, convert: string -> T): (table: seq<seq<T>>)
    ensures |table| == |Lines(contents)|
  {
    Map((line: string) => ParseRow(line, convert), Lines(contents))
  }

  /** A file written as a header line and newline-terminated rows reads back as those rows, in order. */
  lemma ReadCsvRows<T>(header: string, rows: seq<string>, convert: string -> T)
    requires NEW_LINE !in header && Free(rows, NEW_LINE)
    ensures ReadCsv(header + [NEW_LINE] + Terminated(rows, NEW_LINE), convert) ==
      Map((line: string) => ParseRow(line, convert), rows)
  {
    LinesDropHeader(header, Terminated(rows, NEW_LINE));
    SplitTerminated(rows, NEW_LINE);
  }
}
