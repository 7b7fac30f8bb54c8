/** The CSV dialect of the staging writer and of the file reader (section 2 of RFC 4180). */
module Csv {
  // ---- The writer ----

  datatype Cell = Text(s: string) | Num(n: nat)

  predicate NeedsQuotes(s: string) {
    '"' in s || ',' in s || '\n' in s || '\r' in s
  }

  // Every quote written twice.
  function Doubled(s: string): string {
    if s == "" then "" else (if s[0] == '"' then "\"\"" else [s[0]]) + Doubled(s[1..])
  }

  function CsvEscape(s: string): string {
    if NeedsQuotes(s) then "\"" + Doubled(s) + "\"" else s
  }

  function Decimal(n: nat): string {
    if n < 10 then ["0123456789"[n]] else Decimal(n / 10) + ["0123456789"[n % 10]]
  }

  function Shown(c: Cell): string {
    match c
    case Text(s) => s
    case Num(n) => Decimal(n)
  }

  function Written(c: Cell): string {
    match c
    case Text(s) => CsvEscape(s)
    case Num(n) => Decimal(n)
  }

  function Joined(cells: seq<Cell>): string {
    if cells == [] then ""
    else if |cells| == 1 then Written(cells[0])
    else Written(cells[0]) + "," + Joined(cells[1..])
  }

  function BuildCsvRow(cells: seq<Cell>): string {
    Joined(cells) + "\n"
  }

  function Texts(values: seq<string>): seq<Cell> {
    seq(|values|, i requires 0 <= i < |values| => Text(values[i]))
  }

  // ---- The reader ----

  datatype Parsed = Values(values: seq<string>) | Bad(message: string)

  const UNEXPECTED_QUOTE := "Invalid CSV row: unexpected quote"
  const UNTERMINATED_QUOTE := "Invalid CSV row: unterminated quote"

  // What the scanner makes of the rest s of a line.
  function Scan(s: string, current: string, inQuotes: bool, values: seq<string>): Parsed
    decreases |s|
  {
    if s == "" then
      if inQuotes then Bad(UNTERMINATED_QUOTE) else Values(values + [current])
    else if inQuotes then
      if s[0] != '"' then Scan(s[1..], current + [s[0]], true, values)
      else if |s| > 1 && s[1] == '"' then Scan(s[2..], current + "\"", true, values)
      else Scan(s[1..], current, false, values)
    else if s[0] == ',' then Scan(s[1..], "", false, values + [current])
    else if s[0] == '"' then
      if current != "" then Bad(UNEXPECTED_QUOTE) else Scan(s[1..], current, true, values)
    else Scan(s[1..], current + [s[0]], false, values)
  }

  function Parse(line: string): Parsed {
    Scan(line, "", false, [])
  }

  method ParseCsvLine(line: string) returns (r: Parsed)
    ensures r == Parse(line)
  {
    var values: seq<string> := [];
    var current := "";
    var inQuotes := false;
    var i := 0;
    while i < |line|
      invariant 0 <= i <= |line|
      invariant Parse(line) == Scan(line[i..], current, inQuotes, values)
    {
      var ch := line[i];
      if inQuotes {
        if ch == '"' {
          if i + 1 < |line| && line[i + 1] == '"' {
            current := current + "\"";
            i := i + 1;
          } else {
            inQuotes := false;
          }
        } else {
          current := current + [ch];
        }
      } else if ch == ',' {
        values := values + [current];
        current := "";
      } else if ch == '"' {
        if |current| > 0 {
          return Bad(UNEXPECTED_QUOTE);
        }
        inQuotes := true;
      } else {
        current := current + [ch];
      }
      i := i + 1;
    }
    if inQuotes {
      return Bad(UNTERMINATED_QUOTE);
    }
    values := values + [current];
    return Values(values);
  }

  // ---- The dialect, as a grammar ----

  // A field is plain text, or quoted text followed by plain text.
  datatype Piece = Plain(text: string) | Quoted(body: string, tail: string)

  predicate PlainText(s: string) {
    '"' !in s && ',' !in s
  }

  predicate Grammatical(p: Piece) {
    match p
    case Plain(text) => PlainText(text)
    case Quoted(_, tail) => PlainText(tail)
  }

  function Spelled(p: Piece): string {
    match p
    case Plain(text) => text
    case Quoted(body, tail) => "\"" + Doubled(body) + "\"" + tail
  }

  function Meant(p: Piece): string {
    match p
    case Plain(text) => text
    case Quoted(body, tail) => body + tail
  }

  ghost predicate AllGrammatical(pieces: seq<Piece>) {
    forall i :: 0 <= i < |pieces| ==> Grammatical(pieces[i])
  }

  // The pieces of a line after its first one, each behind its comma.
  function Following(pieces: seq<Piece>): string {
    if pieces == [] then "" else "," + Spelled(pieces[0]) + Following(pieces[1..])
  }

  function Line(pieces: seq<Piece>): string
    requires pieces != []
  {
    Spelled(pieces[0]) + Following(pieces[1..])
  }

  function Meanings(pieces: seq<Piece>): seq<string> {
    if pieces == [] then [] else [Meant(pieces[0])] + Meanings(pieces[1..])
  }

  // ---- Every line of the dialect is read as what it means ----

  lemma {:induction false} PlainIsCopied(text: string, rest: string, current: string, values: seq<string>)
    requires PlainText(text)
    ensures Scan(text + rest, current, false, values) == Scan(rest, current + text, false, values)
  {
    if text == "" {
      assert text + rest == rest && current + text == current;
    } else {
      assert (text + rest)[1..] == text[1..] + rest;
      PlainIsCopied(text[1..], rest, current + [text[0]], values);
      assert current + [text[0]] + text[1..] == current + text;
    }
  }

  lemma {:induction false} QuotedIsUndoubled(body: string, rest: string, current: string, values: seq<string>)
    requires rest != "" ==> rest[0] != '"'
    ensures Scan(Doubled(body) + "\"" + rest, current, true, values) == Scan(rest, current + body, false, values)
  {
    var s := Doubled(body) + "\"" + rest;
    if body == "" {
      assert s[1..] == rest && current + body == current;
    } else {
      QuotedIsUndoubled(body[1..], rest, current + [body[0]], values);
      assert current + [body[0]] + body[1..] == current + body;
      var next := Doubled(body[1..]) + "\"" + rest;
      if body[0] == '"' {
        assert s == "\"\"" + next && s[2..] == next;
      } else {
        assert s == [body[0]] + next && s[1..] == next;
      }
    }
  }

  lemma {:induction false} PieceIsRead(p: Piece, rest: string, values: seq<string>)
    requires Grammatical(p) && (rest != "" ==> rest[0] == ',')
    ensures Scan(Spelled(p) + rest, "", false, values) == Scan(rest, Meant(p), false, values)
  {
    match p
    case Plain(text) =>
      PlainIsCopied(text, rest, "", values);
      assert "" + text == text;
    case Quoted(body, tail) =>
      QuotedIsUndoubled(body, tail + rest, "", values);
      assert "" + body == body;
      assert (Spelled(p) + rest)[1..] == Doubled(body) + "\"" + (tail + rest);
      PlainIsCopied(tail, rest, body, values);
  }

  lemma Reassociate<T>(a: seq<T>, b: seq<T>, c: seq<T>)
    ensures a + b + c == a + (b + c)
  {
  }

  lemma PrependTo(c: char, s: string, a: string, b: string)
    requires s != "" && s[0] == c && s[1..] == a + b
    ensures s == [c] + a + b
  {
  }

  lemma {:induction false} FollowingIsLine(pieces: seq<Piece>)
    requires pieces != []
    ensures Following(pieces) == "," + Line(pieces) && Following(pieces)[0] == ','
    ensures Following(pieces)[1..] == Line(pieces)
  {
  }

  lemma {:induction false} ConsPiece(p: Piece, more: seq<Piece>)
    requires Grammatical(p) && AllGrammatical(more)
    ensures AllGrammatical([p] + more) && Line([p] + more) == Spelled(p) + Following(more)
    ensures Meanings([p] + more) == [Meant(p)] + Meanings(more)
  {
  }

  lemma {:induction false} LineIsRead(pieces: seq<Piece>, values: seq<string>)
    requires pieces != [] && AllGrammatical(pieces)
    ensures Scan(Line(pieces), "", false, values) == Values(values + Meanings(pieces))
  {
    var p, more := pieces[0], pieces[1..];
    if more == [] {
      PieceIsRead(p, "", values);
      assert Spelled(p) + "" == Line(pieces);
    } else {
      FollowingIsLine(more);
      PieceIsRead(p, Following(more), values);
      LineIsRead(more, values + [Meant(p)]);
      Reassociate(values, [Meant(p)], Meanings(more));
    }
  }

  // ---- Every accepted line is in the dialect ----

  // The rest of a line that is inside plain text ends the current value with `tail`.
  lemma {:induction false} InPlain(s: string, current: string, values: seq<string>)
    returns (tail: string, more: seq<Piece>)
    requires Scan(s, current, false, values).Values? && (s != "" && s[0] == '"' ==> current != "")
    ensures PlainText(tail) && AllGrammatical(more) && s == tail + Following(more)
    ensures Scan(s, current, false, values).values == values + ([current + tail] + Meanings(more))
    decreases |s|, 0
  {
    if s == "" {
      tail, more := "", [];
      EmptyIsNeutral(current);
    } else if s[0] == ',' {
      tail := "";
      more := AtField(s[1..], values + [current]);
      FollowingIsLine(more);
      Reassociate(values, [current], Meanings(more));
      EmptyIsNeutral(current);
    } else {
      var rest;
      rest, more := InPlain(s[1..], current + [s[0]], values);
      tail := [s[0]] + rest;
      PrependTo(s[0], s, rest, Following(more));
      Reassociate(current, [s[0]], rest);
    }
  }

  // The rest of a line that is inside quotes ends the current value with `body` and `tail`.
  lemma {:induction false} InQuoted(s: string, current: string, values: seq<string>)
    returns (body: string, tail: string, more: seq<Piece>)
    requires Scan(s, current, true, values).Values?
    ensures PlainText(tail) && AllGrammatical(more) && s == Doubled(body) + ("\"" + tail + Following(more))
    ensures Scan(s, current, true, values).values == values + ([current + body + tail] + Meanings(more))
    decreases |s|, 0
  {
    if s[0] != '"' {
      var rest;
      rest, tail, more := InQuoted(s[1..], current + [s[0]], values);
      body := [s[0]] + rest;
      DoubledCons(s[0], rest);
      PrependTo(s[0], s, Doubled(rest), "\"" + tail + Following(more));
      Reassociate(current, [s[0]], rest);
    } else if |s| > 1 && s[1] == '"' {
      var rest;
      rest, tail, more := InQuoted(s[2..], current + "\"", values);
      body := "\"" + rest;
      DoubledCons('"', rest);
      PrependTo('"', s[1..], Doubled(rest), "\"" + tail + Following(more));
      PrependTo('"', s, "\"" + Doubled(rest), "\"" + tail + Following(more));
      Reassociate("\"", "\"", Doubled(rest));
      Reassociate(current, "\"", rest);
    } else {
      body := "";
      EmptyIsNeutral(current);
      tail, more := InPlain(s[1..], current, values);
      PrependTo('"', s, tail, Following(more));
    }
  }

  lemma {:induction false} DoubledCons(c: char, s: string)
    ensures Doubled([c] + s) == (if c == '"' then "\"\"" else [c]) + Doubled(s)
  {
  }

  lemma {:induction false} AtField(s: string, values: seq<string>) returns (pieces: seq<Piece>)
    requires Scan(s, "", false, values).Values?
    ensures pieces != [] && AllGrammatical(pieces) && s == Line(pieces)
    ensures Scan(s, "", false, values).values == values + Meanings(pieces)
    decreases |s|, 1
  {
    if s != "" && s[0] == '"' {
      var body, tail, more := InQuoted(s[1..], "", values);
      pieces := [Quoted(body, tail)] + more;
      ConsPiece(Quoted(body, tail), more);
      EmptyIsNeutral(body);
      SpelledQuoted(s, body, tail, Following(more));
    } else {
      var tail, more := InPlain(s, "", values);
      pieces := [Plain(tail)] + more;
      ConsPiece(Plain(tail), more);
      EmptyIsNeutral(tail);
    }
  }

  lemma EmptyIsNeutral(s: string)
    ensures "" + s == s == s + ""
  {
  }

  lemma {:induction false} SpelledQuoted(s: string, body: string, tail: string, rest: string)
    requires s != "" && s[0] == '"' && s[1..] == Doubled(body) + ("\"" + tail + rest)
    ensures s == Spelled(Quoted(body, tail)) + rest
  {
  }

  /** The scanner accepts exactly the lines of the dialect. */
  lemma AcceptedIffGrammatical(line: string)
    ensures Parse(line).Values? <==> exists pieces :: pieces != [] && AllGrammatical(pieces) && line == Line(pieces)
  {
    if Parse(line).Values? {
      var pieces := AtField(line, []);
    }
    if pieces :| pieces != [] && AllGrammatical(pieces) && line == Line(pieces) {
      LineIsRead(pieces, []);
    }
  }

  /** However a line of the dialect is spelled, its values are what its pieces mean. */
  lemma {:induction false} ValuesAreMeanings(line: string, pieces: seq<Piece>)
    requires pieces != [] && AllGrammatical(pieces) && line == Line(pieces)
    ensures Parse(line) == Values(Meanings(pieces))
  {
    LineIsRead(pieces, []);
    assert [] + Meanings(pieces) == Meanings(pieces);
  }

  // ---- Round trip ----

  function PieceOf(c: Cell): Piece {
    match c
    case Text(s) => if NeedsQuotes(s) then Quoted(s, "") else Plain(s)
    case Num(n) => Plain(Decimal(n))
  }

  function PiecesOf(cells: seq<Cell>): seq<Piece> {
    if cells == [] then [] else [PieceOf(cells[0])] + PiecesOf(cells[1..])
  }

  function AllShown(cells: seq<Cell>): seq<string> {
    seq(|cells|, i requires 0 <= i < |cells| => Shown(cells[i]))
  }

  lemma {:induction false} DecimalIsPlain(n: nat)
    ensures PlainText(Decimal(n)) && '\n' !in Decimal(n) && '\r' !in Decimal(n)
    ensures Decimal(n) != ""
  {
    if n >= 10 {
      DecimalIsPlain(n / 10);
    }
  }

  function DigitOf(c: char): int {
    c as int - '0' as int
  }

  // The number a text of digits stands for.
  function NumberOf(s: string): int {
    if s == "" then 0 else 10 * NumberOf(s[..|s| - 1]) + DigitOf(s[|s| - 1])
  }

  lemma DigitIsOwn(n: nat)
    requires n < 10
    ensures DigitOf("0123456789"[n]) == n
  {
  }

  /** A number is written in digits that stand for it, without a leading zero. */
  lemma {:induction false} DecimalDenotes(n: nat)
    ensures NumberOf(Decimal(n)) == n && Decimal(n) != "" && (n > 0 ==> Decimal(n)[0] != '0')
  {
    DigitIsOwn(n % 10);
    if n >= 10 {
      DecimalDenotes(n / 10);
      assert Decimal(n)[..|Decimal(n)| - 1] == Decimal(n / 10);
    } else {
      assert Decimal(n)[..0] == "";
    }
  }

  lemma PieceIsWritten(c: Cell)
    ensures Grammatical(PieceOf(c)) && Spelled(PieceOf(c)) == Written(c) && Meant(PieceOf(c)) == Shown(c)
  {
    match c
    case Text(s) =>
      assert "\"" + Doubled(s) + "\"" + "" == "\"" + Doubled(s) + "\"";
      assert s + "" == s;
    case Num(n) => DecimalIsPlain(n);
  }

  lemma {:induction false} RowIsGrammatical(cells: seq<Cell>)
    requires cells != []
    ensures var p := PiecesOf(cells);
            p != [] && AllGrammatical(p) && Line(p) == Joined(cells) && Meanings(p) == AllShown(cells)
  {
    var c, more := cells[0], cells[1..];
    PieceIsWritten(c);
    assert AllShown(cells) == [Shown(c)] + AllShown(more);
    if more == [] {
      ConsPiece(PieceOf(c), []);
      assert Written(c) + "" == Written(c);
    } else {
      RowIsGrammatical(more);
      ConsPiece(PieceOf(c), PiecesOf(more));
      FollowingIsLine(PiecesOf(more));
      Reassociate(Written(c), ",", Joined(more));
    }
  }

  /** Reading back a written row, without its final newline, gives exactly the row. */
  lemma {:induction false} ReadingUndoesWriting(cells: seq<Cell>)
    requires cells != []
    ensures Parse(Joined(cells)) == Values(AllShown(cells))
  {
    RowIsGrammatical(cells);
    ValuesAreMeanings(Joined(cells), PiecesOf(cells));
  }

  /** Two different non-empty rows of text are never written the same way. */
  lemma WriterIsInjective(a: seq<string>, b: seq<string>)
    requires a != [] && b != [] && BuildCsvRow(Texts(a)) == BuildCsvRow(Texts(b))
    ensures a == b
  {
    ReadingUndoesWriting(Texts(a));
    ReadingUndoesWriting(Texts(b));
    assert Joined(Texts(a)) == BuildCsvRow(Texts(a))[..|BuildCsvRow(Texts(a))| - 1];
    assert Joined(Texts(b)) == BuildCsvRow(Texts(b))[..|BuildCsvRow(Texts(b))| - 1];
    assert AllShown(Texts(a)) == a && AllShown(Texts(b)) == b;
  }

  /** Only the empty text is written as an unquoted empty field, which the staging copy reads as NULL. */
  lemma EmptyFieldIsEmptyText(s: string)
    ensures CsvEscape(s) == "" <==> s == ""
  {
  }

  /** The empty row is the one exception: it is written like the row of one empty value. */
  lemma EmptyRowCollides(a: seq<string>)
    ensures BuildCsvRow(Texts(a)) == BuildCsvRow(Texts([])) <==> a == [] || a == [""]
  {
  }
}
