/** CSV files that the row writer has written, read back as record streams. */
module CsvFiles {
  import opened Model
  import opened Text
  import opened ImportSpec
  import opened RecordStream
  import Csv

  function FileText(rows: seq<seq<string>>): string {
    if rows == [] then "" else Csv.BuildCsvRow(Csv.Texts(rows[0])) + FileText(rows[1..])
  }

  predicate OneLine(values: seq<string>) {
    forall i :: 0 <= i < |values| ==> '\n' !in values[i]
  }

  lemma {:induction false} DoubledHasNoBreak(s: string)
    requires '\n' !in s
    ensures '\n' !in Csv.Doubled(s)
  {
    if s != "" {
      DoubledHasNoBreak(s[1..]);
    }
  }

  // A row of one-line values is one line of text, and it does not end in CR.
  lemma {:induction false} RowIsOneLine(values: seq<string>)
    requires OneLine(values)
    ensures var text := Csv.Joined(Csv.Texts(values));
            '\n' !in text && (text != "" ==> text[|text| - 1] != '\r') && (|values| >= 2 ==> ',' in text)
  {
    if values != [] {
      var cells, more := Csv.Texts(values), values[1..];
      var first := Csv.Written(cells[0]);
      DoubledHasNoBreak(values[0]);
      assert '\n' !in first;
      assert cells[1..] == Csv.Texts(more);
      RowIsOneLine(more);
      if more != [] {
        LastOfJoin(first, Csv.Joined(cells[1..]));
      }
    }
  }

  lemma LastOfJoin(first: string, rest: string)
    ensures var t := first + "," + rest;
            t[|t| - 1] == (if rest == "" then ',' else rest[|rest| - 1]) && t[|first|] == ','
  {
  }

  function RowTexts(rows: seq<seq<string>>): seq<string> {
    if rows == [] then [] else [Csv.Joined(Csv.Texts(rows[0]))] + RowTexts(rows[1..])
  }

  lemma {:induction false} FileIsItsRows(rows: seq<seq<string>>)
    requires forall i :: 0 <= i < |rows| ==> OneLine(rows[i])
    ensures SplitLines(FileText(rows)) == RowTexts(rows)
  {
    if rows != [] {
      var text := Csv.Joined(Csv.Texts(rows[0]));
      RowIsOneLine(rows[0]);
      SplitAtBreak("", text, FileText(rows[1..]));
      assert "" + text == text;
      FileIsItsRows(rows[1..]);
    }
  }

  // Blank lines are skipped: a row must show something.
  predicate Shows(values: seq<string>) {
    |values| >= 2 || (|values| == 1 && (Csv.NeedsQuotes(values[0]) || Trim(values[0]) != ""))
  }

  predicate SameWidth(width: nat, rows: seq<seq<string>>) {
    forall i :: 0 <= i < |rows| ==> |rows[i]| == width
  }

  predicate AllOneLine(rows: seq<seq<string>>) {
    forall i :: 0 <= i < |rows| ==> OneLine(rows[i])
  }

  predicate AllShow(rows: seq<seq<string>>) {
    forall i :: 0 <= i < |rows| ==> Shows(rows[i])
  }

  lemma {:induction false} RowIsBlank(values: seq<string>)
    requires OneLine(values)
    ensures Blank(Csv.Joined(Csv.Texts(values))) <==> !Shows(values)
  {
    var text := Csv.Joined(Csv.Texts(values));
    RowIsOneLine(values);
    assert StripCr(text) == text;
    if |values| >= 2 {
      var i :| 0 <= i < |text| && text[i] == ',';
      VisibleIsNotBlank(text, i);
    } else if |values| == 1 {
      if Csv.NeedsQuotes(values[0]) {
        assert text[0] == '"';
        VisibleIsNotBlank(text, 0);
      } else {
        assert text == values[0];
      }
    }
  }

  lemma {:induction false} RowIsReadBack(values: seq<string>)
    requires Shows(values) && OneLine(values)
    ensures var text := Csv.Joined(Csv.Texts(values)); !Blank(text) && ParsedLine(text) == Csv.Values(values)
  {
    RowIsBlank(values);
    RowIsOneLine(values);
    Csv.ReadingUndoesWriting(Csv.Texts(values));
    assert Csv.AllShown(Csv.Texts(values)) == values;
  }

  // Record number n + 1 of the file and the ones that follow it.
  function Expected(header: seq<string>, n: nat, rows: seq<seq<string>>): seq<Entry>
    requires SameWidth(|header|, rows)
    decreases |rows|
  {
    if rows == [] then []
    else [Entry(n + 1, Obj(RowFields(header, rows[0])), None)] + Expected(header, n + 1, rows[1..])
  }

  lemma {:induction false} RowsAreReadBack(header: seq<string>, n: nat, rows: seq<seq<string>>)
    requires AllShow(rows) && AllOneLine(rows) && SameWidth(|header|, rows)
    ensures CsvEntries(Some(header), n, RowTexts(rows)) == Expected(header, n, rows)
    decreases |rows|
  {
    if rows != [] {
      RowIsReadBack(rows[0]);
      RowsAreReadBack(header, n + 1, rows[1..]);
      assert RowTexts(rows)[1..] == RowTexts(rows[1..]);
      var text := Csv.Joined(Csv.Texts(rows[0]));
      RowIsOneLine(rows[0]);
      assert EntryFor(Some(header), n + 1, text) == [Entry(n + 1, Obj(RowFields(header, rows[0])), None)];
    }
  }

  // The names of the columns: the cells of the header line without the spaces around them.
  function Names(cells: seq<string>): seq<string> {
    seq(|cells|, i requires 0 <= i < |cells| => Trim(cells[i]))
  }

  // A byte-order mark counts as space, so trimming has taken it already.
  lemma HeaderIsTrimmed(cells: seq<string>)
    ensures HeaderNames(cells) == Names(cells)
  {
    forall i | 0 <= i < |cells| ensures HeaderNames(cells)[i] == Trim(cells[i]) {
      TrimTrims(cells[i]);
    }
  }

  /** A header cell with spaces, or a byte-order mark, around its name is read as the bare name. */
  lemma {:induction false} PaddedCellIsName(before: string, name: string, after: string)
    requires AllSpace(before) && Trimmed(name) && AllSpace(after)
    ensures HeaderNames([before + name + after]) == [name]
  {
    HeaderIsTrimmed([before + name + after]);
    TrimTakesGaps(before, name, after);
  }

  // Column j has this name, and its value is the property of that name.
  predicate ColumnIs(names: seq<string>, values: seq<string>, fields: map<string, Json>, name: string, j: nat) {
    j < |names| == |values| && names[j] == name && name in fields && fields[name] == Str(values[j])
  }

  lemma ColumnStays(names: seq<string>, values: seq<string>, fields: map<string, Json>, name: string, j: nat,
                    more: map<string, Json>)
    requires names != [] && |names| == |values|
    requires ColumnIs(names[..|names| - 1], values[..|values| - 1], fields, name, j)
    requires name in more && more[name] == fields[name]
    ensures ColumnIs(names, values, more, name, j)
  {
  }

  // Every column name but the prototype one is a property, with the value of a column of that name.
  lemma {:induction false} RowFieldsAreTheRow(names: seq<string>, values: seq<string>, name: string)
    requires |names| == |values|
    ensures name in RowFields(names, values) <==> name in names && name != PROTOTYPE
    ensures name in names && name != PROTOTYPE ==>
              exists j: nat :: ColumnIs(names, values, RowFields(names, values), name, j)
  {
    if names != [] {
      var n := |names| - 1;
      RowFieldsAreTheRow(names[..n], values[..n], name);
      assert names == names[..n] + [names[n]];
      if name == names[n] && name != PROTOTYPE {
        assert ColumnIs(names, values, RowFields(names, values), name, n);
      } else if name in names && name != PROTOTYPE {
        var j: nat :| ColumnIs(names[..n], values[..n], RowFields(names[..n], values[..n]), name, j);
        ColumnStays(names, values, RowFields(names[..n], values[..n]), name, j, RowFields(names, values));
      }
    }
  }

  // Columns of one name have one value in this row.
  predicate Agreeing(names: seq<string>, row: seq<string>) {
    |row| == |names| && forall i, j :: 0 <= i < j < |names| && names[i] == names[j] ==> row[i] == row[j]
  }

  ghost predicate FaithfulRecord(header: seq<string>, row: seq<string>, raw: Json) {
    && raw.Obj? && |row| == |header|
    && (forall name :: name in raw.fields <==> name in header)
    && (forall i :: 0 <= i < |header| && header[i] in raw.fields ==> raw.fields[header[i]] == Str(row[i]))
  }

  lemma {:induction false} ExpectedAt(header: seq<string>, n: nat, rows: seq<seq<string>>)
    requires SameWidth(|header|, rows)
    ensures |Expected(header, n, rows)| == |rows|
    ensures forall i :: 0 <= i < |rows| ==>
              Expected(header, n, rows)[i] == Entry(n + i + 1, Obj(RowFields(header, rows[i])), None)
    decreases |rows|
  {
    if rows != [] {
      ExpectedAt(header, n + 1, rows[1..]);
      forall i | 0 <= i < |rows|
        ensures Expected(header, n, rows)[i] == Entry(n + i + 1, Obj(RowFields(header, rows[i])), None)
      {
        assert i > 0 ==> rows[i] == rows[1..][i - 1];
      }
    }
  }

  // Reading the header line and then the rows.
  lemma {:induction false} FileEntries(header: seq<string>, rows: seq<seq<string>>)
    requires Shows(header) && OneLine(header)
    requires AllShow(rows) && AllOneLine(rows) && SameWidth(|header|, rows)
    ensures CsvEntries(None, 0, SplitLines(FileText([header] + rows))) == Expected(Names(header), 1, rows)
  {
    var all := [header] + rows;
    assert all[1..] == rows;
    forall i | 0 <= i < |all| ensures OneLine(all[i]) {
      assert i > 0 ==> all[i] == rows[i - 1];
    }
    FileIsItsRows(all);
    HeaderIsRead(header);
    var names := Names(header);
    RowsAreReadBack(names, 1, rows);
    var texts := RowTexts(all);
    assert texts[1..] == RowTexts(rows);
    assert [] + CsvEntries(Some(names), 1, RowTexts(rows)) == CsvEntries(Some(names), 1, RowTexts(rows));
  }

  lemma HeaderIsRead(header: seq<string>)
    requires Shows(header) && OneLine(header)
    ensures var text := Csv.Joined(Csv.Texts(header));
            HeaderAfter(None, text) == Some(Names(header)) && EntryFor(None, 1, text) == []
  {
    RowIsReadBack(header);
    HeaderIsTrimmed(header);
  }

  // ---- Rows that do not come back ----

  lemma {:induction false} DoubledSplits(s: string, k: nat)
    requires k < |s| && s[k] == '\n'
    ensures Csv.Doubled(s) == Csv.Doubled(s[..k]) + "\n" + Csv.Doubled(s[k + 1..])
  {
    if k > 0 {
      assert s[1..][..k - 1] == s[..k][1..];
      DoubledSplits(s[1..], k - 1);
    }
  }

  // The text of a row up to somewhere inside a quoted value.
  function OpenText(before: seq<string>, part: string): string {
    if before == [] then "\"" + Csv.Doubled(part)
    else Csv.Written(Csv.Text(before[0])) + "," + OpenText(before[1..], part)
  }

  lemma {:induction false} OpenQuote(part: string, current: string, values: seq<string>)
    ensures Csv.Scan(Csv.Doubled(part), current, true, values) == Csv.Bad(Csv.UNTERMINATED_QUOTE)
  {
    if part != "" {
      OpenQuote(part[1..], current + [part[0]], values);
      if part[0] == '"' {
        assert Csv.Doubled(part)[2..] == Csv.Doubled(part[1..]);
      } else {
        assert Csv.Doubled(part)[1..] == Csv.Doubled(part[1..]);
      }
    }
  }

  lemma {:induction false} OpenTextIsBad(before: seq<string>, part: string, values: seq<string>)
    ensures Csv.Scan(OpenText(before, part), "", false, values) == Csv.Bad(Csv.UNTERMINATED_QUOTE)
  {
    if before == [] {
      OpenQuote(part, "", values);
      assert OpenText(before, part)[1..] == Csv.Doubled(part);
    } else {
      var cell, more := Csv.Text(before[0]), OpenText(before[1..], part);
      Csv.PieceIsWritten(cell);
      Csv.PieceIsRead(Csv.PieceOf(cell), "," + more, values);
      assert Csv.Written(cell) + "," + more == Csv.Written(cell) + ("," + more);
      assert ("," + more)[1..] == more;
      OpenTextIsBad(before[1..], part, values + [before[0]]);
    }
  }

  lemma {:induction false} OpenTextIsOneLine(before: seq<string>, part: string)
    requires OneLine(before) && '\n' !in part
    ensures '\n' !in OpenText(before, part) && '"' in OpenText(before, part)
  {
    if before == [] {
      DoubledHasNoBreak(part);
      assert OpenText(before, part)[0] == '"';
    } else {
      DoubledHasNoBreak(before[0]);
      OpenTextIsOneLine(before[1..], part);
    }
  }

  // Stripping CRs from the end of the text leaves it open.
  lemma {:induction false} OpenTextStripped(before: seq<string>, part: string) returns (shorter: string)
    ensures StripCr(OpenText(before, part)) == OpenText(before, shorter)
    ensures '\n' !in part ==> '\n' !in shorter
  {
    if before == [] {
      if part != "" && part[|part| - 1] == '\r' {
        shorter := part[..|part| - 1];
        DoubledSnoc(shorter, '\r');
        assert part == shorter + ['\r'];
      } else {
        shorter := part;
        if part != "" {
          DoubledSnoc(part[..|part| - 1], part[|part| - 1]);
          assert part == part[..|part| - 1] + [part[|part| - 1]];
        }
      }
    } else {
      shorter := OpenTextStripped(before[1..], part);
      OpenTextStarts(before[1..], part);
    }
  }

  lemma {:induction false} OpenTextStarts(before: seq<string>, part: string)
    ensures OpenText(before, part) != ""
  {
  }

  lemma {:induction false} DoubledSnoc(s: string, c: char)
    ensures Csv.Doubled(s + [c]) == Csv.Doubled(s) + if c == '"' then "\"\"" else [c]
  {
    if s == "" {
      assert s + [c] == [c] && [c][1..] == "";
    } else {
      assert (s + [c])[1..] == s[1..] + [c];
      DoubledSnoc(s[1..], c);
    }
  }

  lemma {:induction false} OpenTextCons(value: string, before: seq<string>, part: string, rest: string)
    ensures OpenText([value] + before, part) + "\n" + rest ==
            Csv.Written(Csv.Text(value)) + "," + (OpenText(before, part) + "\n" + rest)
  {
    assert ([value] + before)[1..] == before;
  }

  lemma QuotedParts(a: string, b: string, more: string)
    ensures "\"" + (a + "\n" + b) + "\"" + more == "\"" + a + "\n" + (b + "\"" + more)
  {
  }

  lemma {:induction false} BrokenValue(value: string, more: string) returns (part: string, rest: string)
    requires '\n' in value
    ensures '\n' !in part && Csv.Written(Csv.Text(value)) + more == OpenText([], part) + "\n" + rest
  {
    var k := FirstBreak(value);
    part := value[..k];
    var a, b := Csv.Doubled(part), Csv.Doubled(value[k + 1..]);
    rest := b + "\"" + more;
    DoubledSplits(value, k);
    QuotedParts(a, b, more);
    assert Csv.Written(Csv.Text(value)) == "\"" + Csv.Doubled(value) + "\"";
    assert OpenText([], part) == "\"" + a;
  }

  lemma {:induction false} RowCons(values: seq<string>)
    requires values != []
    ensures Csv.Joined(Csv.Texts(values)) ==
            Csv.Written(Csv.Text(values[0])) +
            if |values| == 1 then "" else "," + Csv.Joined(Csv.Texts(values[1..]))
  {
    assert Csv.Texts(values)[1..] == Csv.Texts(values[1..]);
    if |values| > 1 {
      Csv.Reassociate(Csv.Written(Csv.Text(values[0])), ",", Csv.Joined(Csv.Texts(values[1..])));
    }
  }

  lemma OneLineCons(value: string, before: seq<string>)
    requires '\n' !in value && OneLine(before)
    ensures OneLine([value] + before)
  {
    forall j | 0 <= j < |before| + 1 ensures '\n' !in ([value] + before)[j] {
      assert j > 0 ==> ([value] + before)[j] == before[j - 1];
    }
  }

  lemma BrokenLater(values: seq<string>)
    requires !OneLine(values) && '\n' !in values[0]
    ensures !OneLine(values[1..]) && |values| > 1
  {
    var i :| 0 <= i < |values| && '\n' in values[i];
    assert values[1..][i - 1] == values[i];
  }

  // A row with a line break in a value is cut inside the quotes of that value.
  lemma {:induction false} BrokenRow(values: seq<string>) returns (before: seq<string>, part: string, rest: string)
    requires !OneLine(values)
    ensures OneLine(before) && '\n' !in part
    ensures Csv.Joined(Csv.Texts(values)) == OpenText(before, part) + "\n" + rest
  {
    var value := values[0];
    RowCons(values);
    if '\n' in value {
      before := [];
      part, rest := BrokenValue(value, if |values| == 1 then "" else "," + Csv.Joined(Csv.Texts(values[1..])));
    } else {
      BrokenLater(values);
      var b;
      b, part, rest := BrokenRow(values[1..]);
      before := [value] + b;
      OneLineCons(value, b);
      OpenTextCons(value, b, part, rest);
      Csv.Reassociate(Csv.Written(Csv.Text(value)), ",", OpenText(b, part) + "\n" + rest);
    }
  }

  lemma {:induction false} FirstBreak(s: string) returns (k: nat)
    requires '\n' in s
    ensures k < |s| && s[k] == '\n' && '\n' !in s[..k]
  {
    if s[0] == '\n' {
      k := 0;
    } else {
      var j := FirstBreak(s[1..]);
      k := j + 1;
      assert s[..k] == [s[0]] + s[1..][..j];
    }
  }

  ghost predicate HasError(entries: seq<Entry>) {
    exists i :: 0 <= i < |entries| && entries[i].parseError.Some?
  }

  lemma {:induction false} BadLineIsReported(header: Option<seq<string>>, n: nat, chunk: string)
    requires '"' in StripCr(chunk) && ParsedLine(chunk).Bad?
    ensures HasError(EntryFor(header, n, chunk))
  {
    var i :| 0 <= i < |StripCr(chunk)| && StripCr(chunk)[i] == '"';
    VisibleIsNotBlank(StripCr(chunk), i);
    assert EntryFor(header, n, chunk)[0] == DataEntry(GetOr(header, []), n, chunk);
  }

  lemma {:induction false} OpenLineIsReported(header: Option<seq<string>>, n: nat, before: seq<string>, part: string)
    requires OneLine(before) && '\n' !in part
    ensures HasError(EntryFor(header, n, StripCr(OpenText(before, part))))
  {
    var shorter := OpenTextStripped(before, part);
    var line := OpenTextStripped(before, shorter);
    OpenTextIsOneLine(before, line);
    OpenTextIsBad(before, line, []);
    BadLineIsReported(header, n, OpenText(before, shorter));
  }

  lemma {:induction false} FirstHasError(first: seq<Entry>, others: seq<Entry>)
    requires HasError(first) || HasError(others)
    ensures HasError(first + others)
  {
    if i :| 0 <= i < |first| && first[i].parseError.Some? {
      assert (first + others)[i] == first[i];
    } else {
      var j :| 0 <= j < |others| && others[j].parseError.Some?;
      assert (first + others)[|first| + j] == others[j];
    }
  }

  lemma {:induction false} LineThenRest(header: Option<seq<string>>, n: nat, line: string, more: string)
    requires '\n' !in line
    ensures CsvEntries(header, n, SplitLines(line + "\n" + more)) ==
            EntryFor(header, n + 1, StripCr(line)) +
            CsvEntries(HeaderAfter(header, StripCr(line)), n + 1, SplitLines(more))
  {
    SplitAtBreak("", line, more);
    assert "" + line == line;
  }

  lemma {:induction false} BrokenRowIsReported(header: Option<seq<string>>, n: nat, values: seq<string>, more: string)
    requires !OneLine(values)
    ensures HasError(CsvEntries(header, n, SplitLines(Csv.Joined(Csv.Texts(values)) + "\n" + more)))
  {
    var before, part, rest := BrokenRow(values);
    var text, tail := OpenText(before, part), rest + "\n" + more;
    OpenTextIsOneLine(before, part);
    Csv.Reassociate(text + "\n", rest, "\n" + more);
    assert Csv.Joined(Csv.Texts(values)) + "\n" + more == text + "\n" + tail;
    LineThenRest(header, n, text, tail);
    OpenLineIsReported(header, n + 1, before, part);
    FirstHasError(EntryFor(header, n + 1, StripCr(text)),
                  CsvEntries(HeaderAfter(header, StripCr(text)), n + 1, SplitLines(tail)));
  }

  lemma {:induction false} LaterError(header: Option<seq<string>>, n: nat, line: string, more: string)
    requires '\n' !in line && HasError(CsvEntries(HeaderAfter(header, StripCr(line)), n + 1, SplitLines(more)))
    ensures HasError(CsvEntries(header, n, SplitLines(line + "\n" + more)))
  {
    LineThenRest(header, n, line, more);
    FirstHasError(EntryFor(header, n + 1, StripCr(line)),
                  CsvEntries(HeaderAfter(header, StripCr(line)), n + 1, SplitLines(more)));
  }

  lemma {:induction false} BreaksAreReported(header: Option<seq<string>>, n: nat, rows: seq<seq<string>>)
    requires !AllOneLine(rows)
    ensures HasError(CsvEntries(header, n, SplitLines(FileText(rows))))
    decreases |rows|
  {
    var text, others := Csv.Joined(Csv.Texts(rows[0])), rows[1..];
    assert FileText(rows) == text + "\n" + FileText(others);
    if OneLine(rows[0]) {
      var i :| 0 <= i < |rows| && !OneLine(rows[i]);
      assert others[i - 1] == rows[i];
      BreaksAreReported(HeaderAfter(header, StripCr(text)), n + 1, others);
      assert '\n' !in text by { RowIsOneLine(rows[0]); }
      LaterError(header, n, text, FileText(others));
    } else {
      BrokenRowIsReported(header, n, rows[0], FileText(others));
    }
  }

  lemma {:induction false} NoMoreThanRows(header: Option<seq<string>>, n: nat, rows: seq<seq<string>>)
    requires AllOneLine(rows)
    ensures |CsvEntries(header, n, RowTexts(rows))| <= |rows|
    ensures header.Some? && !AllShow(rows) ==> |CsvEntries(header, n, RowTexts(rows))| < |rows|
    ensures header.None? && rows != [] ==> |CsvEntries(header, n, RowTexts(rows))| < |rows|
    decreases |rows|
  {
    if rows != [] {
      var text := Csv.Joined(Csv.Texts(rows[0]));
      RowIsBlank(rows[0]);
      if Shows(rows[0]) {
        RowIsReadBack(rows[0]);
        if header.Some? && !AllShow(rows) {
          var i :| 0 <= i < |rows| && !Shows(rows[i]);
          assert rows[1..][i - 1] == rows[i];
        }
      }
      NoMoreThanRows(HeaderAfter(header, text), n + 1, rows[1..]);
      assert RowTexts(rows)[1..] == RowTexts(rows[1..]);
    }
  }

  // ---- Exactly the files that come back ----

  // Each row comes back as its record, on its line, without an error.
  ghost predicate ComesBack(header: seq<string>, rows: seq<seq<string>>, entries: seq<Entry>) {
    && |entries| == |rows|
    && forall i :: 0 <= i < |rows| ==>
         entries[i].line == i + 2 && entries[i].parseError == None && FaithfulRecord(header, rows[i], entries[i].raw)
  }

  // Every row shows something on one line, below a header that does so too.
  predicate OnePerLine(header: seq<string>, rows: seq<seq<string>>) {
    OneLine(header) && AllOneLine(rows) && AllShow(rows) && (rows != [] ==> Shows(header))
  }

  // No column is named after the prototype property, and columns of one name agree in every row.
  predicate ColumnsKept(names: seq<string>, rows: seq<seq<string>>) {
    PROTOTYPE !in names && forall i :: 0 <= i < |rows| ==> Agreeing(names, rows[i])
  }

  lemma {:induction false} RecordIsFaithful(names: seq<string>, row: seq<string>)
    requires |row| == |names|
    ensures FaithfulRecord(names, row, Obj(RowFields(names, row))) <==> PROTOTYPE !in names && Agreeing(names, row)
  {
    var fields := RowFields(names, row);
    forall name ensures name in fields <==> name in names && name != PROTOTYPE {
      RowFieldsAreTheRow(names, row, name);
    }
    if PROTOTYPE !in names && Agreeing(names, row) {
      forall i | 0 <= i < |names| ensures fields[names[i]] == Str(row[i]) {
        RowFieldsAreTheRow(names, row, names[i]);
        var j: nat :| ColumnIs(names, row, fields, names[i], j);
      }
    }
    if FaithfulRecord(names, row, Obj(fields)) {
      assert PROTOTYPE !in names;
      forall i, j | 0 <= i < j < |names| && names[i] == names[j] ensures row[i] == row[j] {
        assert fields[names[i]] == Str(row[i]) && fields[names[j]] == Str(row[j]);
      }
    }
  }

  lemma {:induction false} OnePerLineComesBack(header: seq<string>, rows: seq<seq<string>>)
    requires SameWidth(|header|, rows) && OnePerLine(header, rows) && rows != []
    ensures ComesBack(Names(header), rows, CsvEntries(None, 0, SplitLines(FileText([header] + rows)))) <==>
            ColumnsKept(Names(header), rows)
  {
    var names := Names(header);
    FileEntries(header, rows);
    ExpectedAt(names, 1, rows);
    var entries := Expected(names, 1, rows);
    forall i | 0 <= i < |rows|
      ensures FaithfulRecord(names, rows[i], entries[i].raw) <==> PROTOTYPE !in names && Agreeing(names, rows[i])
    {
      RecordIsFaithful(names, rows[i]);
    }
    assert ComesBack(names, rows, entries) ==> FaithfulRecord(names, rows[0], entries[0].raw);
  }

  lemma {:induction false} OthersDoNotComeBack(header: seq<string>, rows: seq<seq<string>>)
    requires !OnePerLine(header, rows)
    ensures var entries := CsvEntries(None, 0, SplitLines(FileText([header] + rows)));
            HasError(entries) || |entries| < |rows|
  {
    var all := [header] + rows;
    if AllOneLine(all) {
      assert all[0] == header && all[1..] == rows;
      forall i | 0 <= i < |rows| ensures OneLine(rows[i]) {
        assert rows[i] == all[i + 1];
      }
      FileIsItsRows(all);
      var text := Csv.Joined(Csv.Texts(header));
      RowIsBlank(header);
      if Shows(header) {
        RowIsReadBack(header);
      }
      NoMoreThanRows(HeaderAfter(None, text), 1, rows);
      assert RowTexts(all)[0] == text && RowTexts(all)[1..] == RowTexts(rows);
    } else {
      BreaksAreReported(None, 0, all);
    }
  }

  /** A file of a header and rows of that width, all written by the row writer, comes back as one
      record a row, by the trimmed names of the header, on lines 2, 3, ... without an error exactly if
      every row shows something, no value holds LF, and, unless the file has no rows, no column is
      named after the prototype property and columns of one name agree in every row. */
  lemma {:induction false} FileRoundTrip(header: seq<string>, rows: seq<seq<string>>)
    requires SameWidth(|header|, rows)
    ensures ComesBack(Names(header), rows, CsvEntries(None, 0, SplitLines(FileText([header] + rows)))) <==>
            OnePerLine(header, rows) && (rows != [] ==> ColumnsKept(Names(header), rows))
  {
    if !OnePerLine(header, rows) {
      OthersDoNotComeBack(header, rows);
    } else if rows != [] {
      OnePerLineComesBack(header, rows);
    } else {
      HeaderAlone(header);
    }
  }

  lemma {:induction false} HeaderAlone(header: seq<string>)
    requires OneLine(header)
    ensures CsvEntries(None, 0, SplitLines(FileText([header] + []))) == []
  {
    assert [header] + [] == [header] && [header][1..] == [];
    FileIsItsRows([header]);
    var text := Csv.Joined(Csv.Texts(header));
    RowIsBlank(header);
    if Shows(header) {
      RowIsReadBack(header);
    }
    assert RowTexts([header]) == [text] && [text][1..] == [];
  }
}
