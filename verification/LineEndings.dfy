/** Files with LF, with CR LF, or with some of each: the records are the same. */
module LineEndings {
  import opened Model
  import opened Text
  import opened ImportSpec
  import opened RecordStream

  predicate PlainLine(line: string) {
    '\r' !in line && '\n' !in line
  }

  ghost predicate PlainLines(lines: seq<string>) {
    forall i :: 0 <= i < |lines| ==> PlainLine(lines[i])
  }

  // Line i ends in CR LF if crlf[i], and in LF if not.
  function Ended(lines: seq<string>, crlf: seq<bool>): string
    requires |lines| == |crlf|
  {
    if lines == [] then "" else lines[0] + (if crlf[0] then "\r\n" else "\n") + Ended(lines[1..], crlf[1..])
  }

  // A last line that no LF ends; a CR may.
  function LastLine(line: string, cr: bool): string {
    if cr then line + "\r" else line
  }

  lemma OneEnding(line: string, crlf: bool, rest: string)
    requires PlainLine(line)
    ensures SplitLines(line + (if crlf then "\r\n" else "\n") + rest) == [line] + SplitLines(rest)
  {
    var text := LastLine(line, crlf);
    assert line + (if crlf then "\r\n" else "\n") + rest == text + "\n" + rest;
    SplitAtBreak("", text, rest);
    assert "" + text == text;
  }

  /** Lines without CR and LF, each ended either way, are cut into just those lines. */
  lemma {:induction false} EndedLines(lines: seq<string>, crlf: seq<bool>, rest: string)
    requires |lines| == |crlf| && PlainLines(lines)
    ensures SplitLines(Ended(lines, crlf) + rest) == lines + SplitLines(rest)
  {
    if lines == [] {
      assert Ended(lines, crlf) + rest == rest;
      assert lines + SplitLines(rest) == SplitLines(rest);
    } else {
      var first := lines[0] + (if crlf[0] then "\r\n" else "\n");
      var more := Ended(lines[1..], crlf[1..]);
      assert first + more + rest == first + (more + rest);
      OneEnding(lines[0], crlf[0], more + rest);
      EndedLines(lines[1..], crlf[1..], rest);
      assert [lines[0]] + (lines[1..] + SplitLines(rest)) == lines + SplitLines(rest);
    }
  }

  lemma {:induction false} NoBreakIsOneLine(current: string, s: string)
    requires '\n' !in s
    ensures SplitFrom(current, s) == if current + s == "" then [] else [current + s]
    decreases |s|
  {
    if s != "" {
      NoBreakIsOneLine(current + [s[0]], s[1..]);
      assert current + [s[0]] + s[1..] == current + s;
    } else {
      assert current + s == current;
    }
  }

  lemma LastIsOneLine(line: string, cr: bool)
    requires PlainLine(line)
    ensures SplitLines(LastLine(line, cr)) == if LastLine(line, cr) == "" then [] else [LastLine(line, cr)]
  {
    NoBreakIsOneLine("", LastLine(line, cr));
    assert "" + LastLine(line, cr) == LastLine(line, cr);
  }

  // ---- CSV ----

  lemma LastAscends(entries: seq<Entry>, e: Entry)
    requires LinesAscend(entries) && e in entries
    ensures e.line <= entries[|entries| - 1].line
    ensures e in entries[..|entries| - 1] <==> e != entries[|entries| - 1]
  {
    var i :| 0 <= i < |entries| && entries[i] == e;
    if i < |entries| - 1 {
      assert entries[..|entries| - 1][i] == e;
    }
  }

  // Streams of ascending lines with the same entries are the same.
  lemma {:induction false} StreamDetermined(a: seq<Entry>, b: seq<Entry>)
    requires LinesAscend(a) && LinesAscend(b) && forall e :: e in a <==> e in b
    ensures a == b
  {
    assert |b| > 0 ==> b[0] in b;
    if a != [] {
      var x := a[|a| - 1];
      assert x in b;
      var y := b[|b| - 1];
      assert y in a;
      LastAscends(a, y);
      LastAscends(b, x);
      var p, q := a[..|a| - 1], b[..|b| - 1];
      LastOfBoth(b, x, y);
      forall e | e in p ensures e in q {
        LastAscends(a, e);
        LastAscends(b, e);
      }
      forall e | e in q ensures e in p {
        LastAscends(a, e);
        LastAscends(b, e);
      }
      StreamDetermined(p, q);
    }
  }

  lemma LastOfBoth(entries: seq<Entry>, x: Entry, y: Entry)
    requires LinesAscend(entries) && x in entries && y == entries[|entries| - 1] && y.line <= x.line
    ensures x == y
  {
  }

  // The lines are alike up to a CR at the end, or blank at the end of one of the files.
  predicate AlikeAt(a: seq<string>, b: seq<string>, i: nat) {
    if i < |a| && i < |b| then StripCr(a[i]) == StripCr(b[i])
    else (i < |a| ==> StripCr(a[i]) == "") && (i < |b| ==> StripCr(b[i]) == "")
  }

  lemma AlikeLine(a: string, b: string, header: Option<seq<string>>, line: nat)
    requires StripCr(a) == StripCr(b)
    ensures Blank(a) == Blank(b) && BecomesHeader(header, a) == BecomesHeader(header, b)
    ensures DataEntry(GetOr(header, []), line, a) == DataEntry(GetOr(header, []), line, b)
    ensures HeaderAfter(header, a) == HeaderAfter(header, b)
  {
  }

  lemma {:induction false} AlikeHeader(a: seq<string>, b: seq<string>, n: nat)
    requires n <= |a| && n <= |b| && forall i: nat :: AlikeAt(a, b, i)
    ensures HeaderOf(a[..n]) == HeaderOf(b[..n])
  {
    if n > 0 {
      AlikeHeader(a, b, n - 1);
      assert AlikeAt(a, b, n - 1);
      assert a[..n][..n - 1] == a[..n - 1] && b[..n][..n - 1] == b[..n - 1];
      AlikeLine(a[n - 1], b[n - 1], HeaderOf(a[..n - 1]), n);
    }
  }

  // What line number e.line, with the header read before it, gives.
  predicate GivenBy(header: Option<seq<string>>, chunk: string, e: Entry) {
    !Blank(chunk) && !BecomesHeader(header, chunk) && e == DataEntry(GetOr(header, []), e.line, chunk)
  }

  predicate GivenAt(lines: seq<string>, e: Entry) {
    1 <= e.line <= |lines| && GivenBy(HeaderOf(lines[..e.line - 1]), lines[e.line - 1], e)
  }

  lemma {:induction false} GivenByLine(lines: seq<string>, e: Entry)
    ensures e in CsvEntries(None, 0, lines) <==> GivenAt(lines, e)
  {
    CsvLineIsPhysical(lines, e);
  }

  lemma AlikeGives(a: string, b: string, header: Option<seq<string>>, e: Entry)
    requires StripCr(a) == StripCr(b) && GivenBy(header, a, e)
    ensures GivenBy(header, b, e)
  {
    AlikeLine(a, b, header, e.line);
  }

  lemma BlankGivesNothing(header: Option<seq<string>>, chunk: string, e: Entry)
    requires GivenBy(header, chunk, e)
    ensures StripCr(chunk) != ""
  {
  }

  lemma {:induction false} AlikeGivenAt(a: seq<string>, b: seq<string>, e: Entry)
    requires (forall i: nat :: AlikeAt(a, b, i)) && GivenAt(a, e)
    ensures GivenAt(b, e)
  {
    var n, header := e.line - 1, HeaderOf(a[..e.line - 1]);
    assert AlikeAt(a, b, n);
    BlankGivesNothing(header, a[n], e);
    AlikeHeader(a, b, n);
    AlikeGives(a[n], b[n], header, e);
  }

  lemma {:induction false} AlikeEntry(a: seq<string>, b: seq<string>, e: Entry)
    requires forall i: nat :: AlikeAt(a, b, i)
    ensures e in CsvEntries(None, 0, a) ==> e in CsvEntries(None, 0, b)
  {
    GivenByLine(a, e);
    GivenByLine(b, e);
    if GivenAt(a, e) {
      AlikeGivenAt(a, b, e);
    }
  }

  lemma {:induction false} AlikeFiles(a: seq<string>, b: seq<string>)
    requires forall i: nat :: AlikeAt(a, b, i)
    ensures CsvEntries(None, 0, a) == CsvEntries(None, 0, b)
  {
    assert forall i: nat :: AlikeAt(a, b, i) ==> AlikeAt(b, a, i);
    forall e ensures e in CsvEntries(None, 0, a) <==> e in CsvEntries(None, 0, b) {
      AlikeEntry(a, b, e);
      AlikeEntry(b, a, e);
    }
    CsvLinesAscendFrom(None, 0, a);
    CsvLinesAscendFrom(None, 0, b);
    StreamDetermined(CsvEntries(None, 0, a), CsvEntries(None, 0, b));
  }

  // A CR behind the last line changes nothing, even on an empty line.
  lemma SameLastLine(lines: seq<string>, line: string, a: seq<string>, b: seq<string>)
    requires PlainLine(line) && a == lines + [line + "\r"] && b == lines + if line == "" then [] else [line]
    ensures forall i: nat :: AlikeAt(a, b, i)
  {
    assert StripCr(line + "\r") == line && StripCr(line) == line;
    assert forall i: nat :: i < |lines| ==> a[i] == lines[i] && b[i] == lines[i];
    assert a[|lines|] == line + "\r" && (line != "" ==> b[|lines|] == line);
  }

  lemma {:induction false} SameCsvTail(lines: seq<string>, line: string, cr: bool, a: seq<string>, b: seq<string>)
    requires PlainLine(line)
    requires a == lines + SplitLines(LastLine(line, cr)) && b == lines + SplitLines(line)
    ensures CsvEntries(None, 0, a) == CsvEntries(None, 0, b)
  {
    if cr {
      LastIsOneLine(line, true);
      LastIsOneLine(line, false);
      SameLastLine(lines, line, a, b);
      AlikeFiles(a, b);
    }
  }

  // ---- NDJSON ----

  lemma Recut<T>(lines: seq<T>, first: T, rest: seq<T>, tail: seq<T>)
    requires lines != [] && first == lines[0] && rest == lines[1..]
    ensures lines + tail == [first] + (rest + tail) && lines == [first] + rest
  {
  }

  lemma {:induction false} TrimDropsCr(s: string)
    ensures Trim(s + "\r") == Trim(s)
  {
    TrimmedBetweenGaps(s);
    var before, after :| Between(before, Trim(s), after, s);
    assert AllSpace(after + "\r");
    assert s + "\r" == before + Trim(s) + (after + "\r");
    TrimTakesGaps(before, Trim(s), after + "\r");
  }

  lemma {:induction false} NdjsonCons(parse: string -> Option<Json>, n: nat, line: string, rest: seq<string>)
    ensures NdjsonEntries(parse, n, [line] + rest) ==
            if Trim(line) == "" then NdjsonEntries(parse, n, rest)
            else [NdjsonEntry(parse, n + 1, Trim(line))] + NdjsonEntries(parse, n + 1, rest)
  {
    assert ([line] + rest)[0] == line && ([line] + rest)[1..] == rest;
  }

  lemma {:induction false} SameNdjsonCons(parse: string -> Option<Json>, n: nat, line: string, a: seq<string>,
                                          b: seq<string>)
    requires var m := if Trim(line) == "" then n else n + 1; NdjsonEntries(parse, m, a) == NdjsonEntries(parse, m, b)
    ensures NdjsonEntries(parse, n, [line] + a) == NdjsonEntries(parse, n, [line] + b)
  {
    NdjsonCons(parse, n, line, a);
    NdjsonCons(parse, n, line, b);
  }

  lemma {:induction false} LastNdjsonLine(parse: string -> Option<Json>, n: nat, line: string, cr: bool)
    requires PlainLine(line)
    ensures NdjsonEntries(parse, n, SplitLines(LastLine(line, cr))) == NdjsonEntries(parse, n, SplitLines(line))
  {
    if cr {
      LastIsOneLine(line, true);
      LastIsOneLine(line, false);
      TrimDropsCr(line);
      assert [line + "\r"] + [] == [line + "\r"] && [line] + [] == [line];
      NdjsonCons(parse, n, line + "\r", []);
      NdjsonCons(parse, n, line, []);
    }
  }

  function CountThrough(n: nat, lines: seq<string>): nat
    decreases |lines|
  {
    if lines == [] then n else CountThrough(if Trim(lines[0]) == "" then n else n + 1, lines[1..])
  }

  lemma {:induction false} SameNdjsonTail(parse: string -> Option<Json>, n: nat, lines: seq<string>, a: seq<string>,
                                          b: seq<string>, m: nat)
    requires m == CountThrough(n, lines) && NdjsonEntries(parse, m, a) == NdjsonEntries(parse, m, b)
    ensures NdjsonEntries(parse, n, lines + a) == NdjsonEntries(parse, n, lines + b)
    decreases |lines|
  {
    if lines == [] {
      assert lines + a == a && lines + b == b;
    } else {
      var first, rest := lines[0], lines[1..];
      SameNdjsonTail(parse, if Trim(first) == "" then n else n + 1, rest, a, b, m);
      SameNdjsonCons(parse, n, first, rest + a, rest + b);
      Recut(lines, first, rest, a);
      Recut(lines, first, rest, b);
    }
  }

  // ---- The theorem ----

  function FileOf(lines: seq<string>, crlf: seq<bool>, last: string, cr: bool): string
    requires |lines| == |crlf|
  {
    Ended(lines, crlf) + LastLine(last, cr)
  }

  lemma {:induction false} SameNdjsonFile(parse: string -> Option<Json>, lines: seq<string>, last: string, cr: bool)
    requires PlainLine(last)
    ensures NdjsonEntries(parse, 0, lines + SplitLines(LastLine(last, cr))) ==
            NdjsonEntries(parse, 0, lines + SplitLines(last))
  {
    var m := CountThrough(0, lines);
    LastNdjsonLine(parse, m, last, cr);
    SameNdjsonTail(parse, 0, lines, SplitLines(LastLine(last, cr)), SplitLines(last), m);
  }

  /** Whether the lines of a file, free of CR and LF themselves, end in LF or in CR LF, each as it
      likes, and whether an unended last line has a CR, the records are the same. */
  lemma {:induction false} AnyEndingSameRecords(parse: string -> Option<Json>, lines: seq<string>, crlf: seq<bool>,
                                                last: string, cr: bool)
    requires |lines| == |crlf| && PlainLines(lines) && PlainLine(last)
    ensures var unix := FileOf(lines, seq(|lines|, i => false), last, false);
            && Records(parse, CsvFile(FileOf(lines, crlf, last, cr))) == Records(parse, CsvFile(unix))
            && Records(parse, NdjsonFile(FileOf(lines, crlf, last, cr))) == Records(parse, NdjsonFile(unix))
  {
    EndedLines(lines, crlf, LastLine(last, cr));
    EndedLines(lines, seq(|lines|, i => false), last);
    SameCsvTail(lines, last, cr, lines + SplitLines(LastLine(last, cr)), lines + SplitLines(last));
    SameNdjsonFile(parse, lines, last, cr);
  }
}
