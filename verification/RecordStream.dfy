/** The record stream of an uploaded file, for the three formats. */
module RecordStream {
  import opened Model
  import opened Text
  import opened ImportSpec
  import opened Batches
  import opened Staging
  import opened SlugConflicts
  import Csv

  const CLIP := 4000

  function Clipped(text: string): Json {
    Str(if |text| > CLIP then text[..CLIP] else text)
  }

  function StripCr(s: string): string {
    if s != "" && s[|s| - 1] == '\r' then s[..|s| - 1] else s
  }

  // A text cut into lines at LF or CR LF; what follows the last break is a line if not empty.
  function SplitFrom(current: string, s: string): seq<string>
    decreases |s|
  {
    if s == "" then
      if current == "" then [] else [current]
    else if s[0] == '\n' then [StripCr(current)] + SplitFrom("", s[1..])
    else SplitFrom(current + [s[0]], s[1..])
  }

  function SplitLines(s: string): seq<string> {
    SplitFrom("", s)
  }

  lemma {:induction false} SplitAtBreak(current: string, line: string, rest: string)
    requires '\n' !in line
    ensures SplitFrom(current, line + "\n" + rest) == [StripCr(current + line)] + SplitLines(rest)
    decreases |line|
  {
    var s := line + "\n" + rest;
    if line == "" {
      assert s[1..] == rest && current + line == current;
    } else {
      assert s[1..] == line[1..] + "\n" + rest;
      SplitAtBreak(current + [line[0]], line[1..], rest);
      assert current + [line[0]] + line[1..] == current + line;
    }
  }

  // ---- CSV ----

  predicate Blank(chunk: string) {
    Trim(StripCr(chunk)) == ""
  }

  function ParsedLine(chunk: string): Csv.Parsed {
    Csv.Parse(StripCr(chunk))
  }

  function StripBom(s: string): string {
    if s != "" && s[0] == '\U{FEFF}' then s[1..] else s
  }

  function HeaderNames(values: seq<string>): seq<string> {
    seq(|values|, i requires 0 <= i < |values| => if i == 0 then StripBom(Trim(values[i])) else Trim(values[i]))
  }

  // Assigning a string to this property of an object does nothing.
  const PROTOTYPE := "__proto__"

  function RowFields(header: seq<string>, values: seq<string>): map<string, Json>
    requires |header| == |values|
  {
    if header == [] then map[]
    else
      var n := |header| - 1;
      var before := RowFields(header[..n], values[..n]);
      if header[n] == PROTOTYPE then before else before[header[n] := Str(values[n])]
  }

  const COLUMN_COUNT := "Invalid CSV row: column count does not match header"

  // What a line that is neither blank nor the header becomes.
  function DataEntry(header: seq<string>, line: nat, chunk: string): Entry {
    match ParsedLine(chunk)
    case Bad(message) => Entry(line, Clipped(StripCr(chunk)), Some(message))
    case Values(values) =>
      if |values| != |header| then Entry(line, Clipped(StripCr(chunk)), Some(COLUMN_COUNT))
      else Entry(line, Obj(RowFields(header, values)), None)
  }

  predicate BecomesHeader(header: Option<seq<string>>, chunk: string) {
    header.None? && !Blank(chunk) && ParsedLine(chunk).Values?
  }

  function HeaderAfter(header: Option<seq<string>>, chunk: string): Option<seq<string>> {
    if BecomesHeader(header, chunk) then Some(HeaderNames(ParsedLine(chunk).values)) else header
  }

  function EntryFor(header: Option<seq<string>>, line: nat, chunk: string): seq<Entry> {
    if Blank(chunk) || BecomesHeader(header, chunk) then [] else [DataEntry(GetOr(header, []), line, chunk)]
  }

  // The entries of the lines that follow the first n ones.
  function CsvEntries(header: Option<seq<string>>, n: nat, lines: seq<string>): seq<Entry>
    decreases |lines|
  {
    if lines == [] then []
    else EntryFor(header, n + 1, lines[0]) + CsvEntries(HeaderAfter(header, lines[0]), n + 1, lines[1..])
  }

  method ReadRow(header: seq<string>, values: seq<string>) returns (row: map<string, Json>)
    requires |header| == |values|
    ensures row == RowFields(header, values)
  {
    row := map[];
    for i := 0 to |header|
      invariant row == RowFields(header[..i], values[..i])
    {
      assert header[..i + 1][..i] == header[..i] && values[..i + 1][..i] == values[..i];
      if header[i] != PROTOTYPE {
        row := row[header[i] := Str(values[i])];
      }
    }
    assert header[..|header|] == header && values[..|header|] == values;
  }

  lemma CsvStep(header: Option<seq<string>>, out: seq<Entry>, lines: seq<string>, i: nat)
    requires i < |lines|
    ensures out + CsvEntries(header, i, lines[i..]) ==
            out + EntryFor(header, i + 1, lines[i]) + CsvEntries(HeaderAfter(header, lines[i]), i + 1, lines[i + 1..])
    ensures out + [] == out
  {
    assert lines[i..][0] == lines[i] && lines[i..][1..] == lines[i + 1..];
    Csv.Reassociate(out, EntryFor(header, i + 1, lines[i]),
                    CsvEntries(HeaderAfter(header, lines[i]), i + 1, lines[i + 1..]));
  }

  method StreamCsv(lines: seq<string>) returns (entries: seq<Entry>)
    ensures entries == CsvEntries(None, 0, lines)
  {
    entries := [];
    var sourceLine := 0;
    var header: Option<seq<string>> := None;
    for i := 0 to |lines|
      invariant sourceLine == i
      invariant CsvEntries(None, 0, lines) == entries + CsvEntries(header, i, lines[i..])
    {
      CsvStep(header, entries, lines, i);
      sourceLine := sourceLine + 1;
      var text := StripCr(lines[i]);
      if Trim(text) != "" {
        var parsed := Csv.ParseCsvLine(text);
        if parsed.Bad? {
          entries := entries + [Entry(sourceLine, Clipped(text), Some(parsed.message))];
        } else if header.None? {
          header := Some(HeaderNames(parsed.values));
        } else if |parsed.values| != |header.value| {
          entries := entries + [Entry(sourceLine, Clipped(text), Some(COLUMN_COUNT))];
        } else {
          var row := ReadRow(header.value, parsed.values);
          entries := entries + [Entry(sourceLine, Obj(row), None)];
        }
      }
    }
  }

  // ---- NDJSON ----

  const BAD_NDJSON := "Invalid NDJSON line"

  function NdjsonEntry(parse: string -> Option<Json>, line: nat, text: string): Entry {
    match parse(text)
    case Some(raw) => Entry(line, raw, None)
    case None => Entry(line, Clipped(text), Some(BAD_NDJSON))
  }

  // The entries of the lines that follow ones holding n records.
  function NdjsonEntries(parse: string -> Option<Json>, n: nat, lines: seq<string>): seq<Entry>
    decreases |lines|
  {
    if lines == [] then []
    else if Trim(lines[0]) == "" then NdjsonEntries(parse, n, lines[1..])
    else [NdjsonEntry(parse, n + 1, Trim(lines[0]))] + NdjsonEntries(parse, n + 1, lines[1..])
  }

  lemma {:induction false} NdjsonStep(parse: string -> Option<Json>, n: nat, out: seq<Entry>, lines: seq<string>,
                                      i: nat)
    requires i < |lines|
    ensures out + NdjsonEntries(parse, n, lines[i..]) ==
            if Trim(lines[i]) == "" then out + NdjsonEntries(parse, n, lines[i + 1..])
            else out + [NdjsonEntry(parse, n + 1, Trim(lines[i]))] + NdjsonEntries(parse, n + 1, lines[i + 1..])
  {
    assert lines[i..][0] == lines[i] && lines[i..][1..] == lines[i + 1..];
    Csv.Reassociate(out, [NdjsonEntry(parse, n + 1, Trim(lines[i]))], NdjsonEntries(parse, n + 1, lines[i + 1..]));
  }

  method StreamNdjson(parse: string -> Option<Json>, lines: seq<string>) returns (entries: seq<Entry>)
    ensures entries == NdjsonEntries(parse, 0, lines)
  {
    entries := [];
    var line := 0;
    for i := 0 to |lines|
      invariant NdjsonEntries(parse, 0, lines) == entries + NdjsonEntries(parse, line, lines[i..])
    {
      NdjsonStep(parse, line, entries, lines, i);
      var text := Trim(lines[i]);
      if text != "" {
        line := line + 1;
        match parse(text) {
          case Some(raw) => entries := entries + [Entry(line, raw, None)];
          case None => entries := entries + [Entry(line, Clipped(text), Some(BAD_NDJSON))];
        }
      }
    }
  }

  // ---- JSON ----

  // The array reader yields `items` and then ends, or fails with a message.
  function JsonEntries(n: nat, items: seq<Json>, failure: Option<string>): seq<Entry>
    decreases |items|
  {
    if items == [] then
      if failure.Some? then [Entry(n + 1, Null, failure)] else []
    else [Entry(n + 1, items[0], None)] + JsonEntries(n + 1, items[1..], failure)
  }

  method StreamJson(items: seq<Json>, failure: Option<string>) returns (entries: seq<Entry>)
    ensures entries == JsonEntries(0, items, failure)
  {
    entries := [];
    var line := 0;
    for i := 0 to |items|
      invariant line == i
      invariant JsonEntries(0, items, failure) == entries + JsonEntries(line, items[i..], failure)
    {
      assert items[i..][0] == items[i] && items[i..][1..] == items[i + 1..];
      line := line + 1;
      entries := entries + [Entry(line, items[i], None)];
    }
    if failure.Some? {
      line := line + 1;
      entries := entries + [Entry(line, Null, failure)];
    }
  }

  // ---- Line numbers ----

  ghost predicate From(entries: seq<Entry>, n: nat) {
    forall i :: 0 <= i < |entries| ==> entries[i].line > n
  }

  lemma ConsAscends(e: Entry, rest: seq<Entry>)
    requires LinesAscend(rest) && From(rest, e.line)
    ensures LinesAscend([e] + rest)
  {
  }

  lemma OwnAscends(own: seq<Entry>, rest: seq<Entry>, n: nat)
    requires LinesAscend(rest) && From(rest, n + 1) && (own == [] || (|own| == 1 && own[0].line == n + 1))
    ensures LinesAscend(own + rest) && From(own + rest, n)
  {
  }

  lemma {:induction false} CsvLinesAscendFrom(header: Option<seq<string>>, n: nat, lines: seq<string>)
    ensures LinesAscend(CsvEntries(header, n, lines)) && From(CsvEntries(header, n, lines), n)
    decreases |lines|
  {
    if lines != [] {
      var after := HeaderAfter(header, lines[0]);
      CsvLinesAscendFrom(after, n + 1, lines[1..]);
      OwnAscends(EntryFor(header, n + 1, lines[0]), CsvEntries(after, n + 1, lines[1..]), n);
    }
  }

  lemma {:induction false} NdjsonLinesAscendFrom(parse: string -> Option<Json>, n: nat, lines: seq<string>)
    ensures LinesAscend(NdjsonEntries(parse, n, lines)) && From(NdjsonEntries(parse, n, lines), n)
    decreases |lines|
  {
    if lines != [] {
      if Trim(lines[0]) == "" {
        NdjsonLinesAscendFrom(parse, n, lines[1..]);
      } else {
        NdjsonLinesAscendFrom(parse, n + 1, lines[1..]);
        ConsAscends(NdjsonEntry(parse, n + 1, Trim(lines[0])), NdjsonEntries(parse, n + 1, lines[1..]));
      }
    }
  }

  lemma {:induction false} JsonLinesAscendFrom(n: nat, items: seq<Json>, failure: Option<string>)
    ensures LinesAscend(JsonEntries(n, items, failure)) && From(JsonEntries(n, items, failure), n)
    decreases |items|
  {
    if items != [] {
      JsonLinesAscendFrom(n + 1, items[1..], failure);
      ConsAscends(Entry(n + 1, items[0], None), JsonEntries(n + 1, items[1..], failure));
    }
  }

  datatype Source =
    | CsvFile(text: string)
    | NdjsonFile(text: string)
    | JsonFile(items: seq<Json>, failure: Option<string>)

  function Records(parse: string -> Option<Json>, source: Source): seq<Entry> {
    match source
    case CsvFile(text) => CsvEntries(None, 0, SplitLines(text))
    case NdjsonFile(text) => NdjsonEntries(parse, 0, SplitLines(text))
    case JsonFile(items, failure) => JsonEntries(0, items, failure)
  }

  /** Whatever the file, no two records carry the same line number, and the first one is at least 1. */
  lemma RecordLinesAscend(parse: string -> Option<Json>, source: Source)
    ensures LinesAscend(Records(parse, source)) && From(Records(parse, source), 0)
  {
    match source
    case CsvFile(text) => CsvLinesAscendFrom(None, 0, SplitLines(text));
    case NdjsonFile(text) => NdjsonLinesAscendFrom(parse, 0, SplitLines(text));
    case JsonFile(items, failure) => JsonLinesAscendFrom(0, items, failure);
  }

  method StreamInputRecords(parse: string -> Option<Json>, source: Source) returns (entries: seq<Entry>)
    ensures entries == Records(parse, source) && LinesAscend(entries)
  {
    match source {
      case CsvFile(text) => entries := StreamCsv(SplitLines(text));
      case NdjsonFile(text) => entries := StreamNdjson(parse, SplitLines(text));
      case JsonFile(items, failure) => entries := StreamJson(items, failure);
    }
    RecordLinesAscend(parse, source);
  }

  /** So the staging key (job, line) is never used twice, whatever the file, however reads and
      flushes alternate and whatever each flush looks up, and deleting slug conflicts by line
      deletes exactly the conflicts. */
  lemma {:induction false} StagingKeysAreSafe(parse: string -> Option<Json>, source: Source, admit: Admitter,
                                              entity: Entity, turns: seq<Turn>, idBySlug: map<string, Id>)
    requires SoundAdmitter(entity, admit)
    ensures var staged := Follow(admit, Records(parse, source), turns).work.run.staged;
            && Ascending(staged)
            && DeleteLines(staged, LinesOf(Sift(idBySlug, staged).conflicts)) == Sift(idBySlug, staged).kept
  {
    RecordLinesAscend(parse, source);
    FollowOnTrack(admit, entity, Records(parse, source), turns);
    DeletingByLineKeepsTheRest(idBySlug, Follow(admit, Records(parse, source), turns).work.run.staged);
  }

  // ---- Which lines become records ----

  // The header in force once the given lines were read.
  function HeaderOf(lines: seq<string>): Option<seq<string>> {
    if lines == [] then None
    else HeaderAfter(HeaderOf(lines[..|lines| - 1]), lines[|lines| - 1])
  }

  // The entry stands on the line it names, one of those after line n.
  predicate OnLineAfter(lines: seq<string>, n: nat, e: Entry) {
    n < e.line <= |lines| && e in EntryFor(HeaderOf(lines[..e.line - 1]), e.line, lines[e.line - 1])
  }

  lemma {:induction false} HeaderStep(lines: seq<string>, n: nat)
    requires n < |lines|
    ensures HeaderOf(lines[..n + 1]) == HeaderAfter(HeaderOf(lines[..n]), lines[n])
  {
    assert lines[..n + 1][..n] == lines[..n];
  }

  lemma {:induction false} CsvEntriesStep(header: Option<seq<string>>, lines: seq<string>, n: nat)
    requires n < |lines|
    ensures CsvEntries(header, n, lines[n..]) ==
            EntryFor(header, n + 1, lines[n]) + CsvEntries(HeaderAfter(header, lines[n]), n + 1, lines[n + 1..])
  {
    assert lines[n..][0] == lines[n] && lines[n..][1..] == lines[n + 1..];
  }

  lemma EntryForLine(header: Option<seq<string>>, n: nat, line: string, e: Entry)
    requires e in EntryFor(header, n, line)
    ensures e.line == n
  {
  }

  lemma {:induction false} EntryOnItsLine(lines: seq<string>, n: nat, e: Entry)
    requires n <= |lines|
    ensures e in CsvEntries(HeaderOf(lines[..n]), n, lines[n..]) <==> OnLineAfter(lines, n, e)
    decreases |lines| - n
  {
    if n < |lines| {
      var header := HeaderOf(lines[..n]);
      HeaderStep(lines, n);
      CsvEntriesStep(header, lines, n);
      EntryOnItsLine(lines, n + 1, e);
      if e in EntryFor(header, n + 1, lines[n]) {
        EntryForLine(header, n + 1, lines[n], e);
      }
    }
  }

  /** A record is reported at the physical line it stands on: the entries of a CSV file are
      those of its lines that are neither blank nor the header, each read on its own. */
  lemma {:induction false} CsvLineIsPhysical(lines: seq<string>, e: Entry)
    ensures e in CsvEntries(None, 0, lines) <==>
            && 1 <= e.line <= |lines|
            && !Blank(lines[e.line - 1])
            && !BecomesHeader(HeaderOf(lines[..e.line - 1]), lines[e.line - 1])
            && e == DataEntry(GetOr(HeaderOf(lines[..e.line - 1]), []), e.line, lines[e.line - 1])
  {
    EntryOnItsLine(lines, 0, e);
    assert lines[0..] == lines && lines[..0] == [];
  }
}
