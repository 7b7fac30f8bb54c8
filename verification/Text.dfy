/** JSON values and JavaScript string trimming. */
module Text {

  datatype Json =
    | Null
    | Bool(b: bool)
    | Number(n: int)
    | Str(s: string)
    | Arr(items: seq<Json>)
    | Obj(fields: map<string, Json>)

  // The characters String.prototype.trim removes.
  predicate IsSpace(c: char) {
    || c in " \t\n\r" || c == '\U{0B}' || c == '\U{0C}' || c == '\U{A0}' || c == '\U{1680}'
    || '\U{2000}' <= c <= '\U{200A}' || c == '\U{2028}' || c == '\U{2029}' || c == '\U{202F}'
    || c == '\U{205F}' || c == '\U{3000}' || c == '\U{FEFF}'
  }

  function TrimStart(s: string): string {
    if s != "" && IsSpace(s[0]) then TrimStart(s[1..]) else s
  }

  function TrimEnd(s: string): string {
    if s != "" && IsSpace(s[|s| - 1]) then TrimEnd(s[..|s| - 1]) else s
  }

  function Trim(s: string): string {
    TrimEnd(TrimStart(s))
  }

  predicate Trimmed(s: string) {
    s != "" ==> !IsSpace(s[0]) && !IsSpace(s[|s| - 1])
  }

  lemma TrimmedIsFixed(s: string)
    requires Trimmed(s)
    ensures Trim(s) == s
  {
  }

  // A string holding any visible character does not trim to nothing.
  lemma {:induction false} VisibleIsNotBlank(s: string, i: nat)
    requires i < |s| && !IsSpace(s[i])
    ensures Trim(s) != ""
  {
    TrimStartKeeps(s, i);
    var j :| 0 <= j < |TrimStart(s)| && !IsSpace(TrimStart(s)[j]);
    TrimEndKeeps(TrimStart(s), j);
  }

  lemma {:induction false} TrimStartKeeps(s: string, i: nat)
    requires i < |s| && !IsSpace(s[i])
    ensures exists j :: 0 <= j < |TrimStart(s)| && !IsSpace(TrimStart(s)[j])
  {
    if IsSpace(s[0]) {
      assert s[1..][i - 1] == s[i];
      TrimStartKeeps(s[1..], i - 1);
      var j :| 0 <= j < |TrimStart(s[1..])| && !IsSpace(TrimStart(s[1..])[j]);
      assert !IsSpace(TrimStart(s)[j]);
    } else {
      assert !IsSpace(TrimStart(s)[i]);
    }
  }

  lemma {:induction false} TrimEndKeeps(s: string, i: nat)
    requires i < |s| && !IsSpace(s[i])
    ensures TrimEnd(s) != ""
    decreases |s|
  {
    if IsSpace(s[|s| - 1]) {
      TrimEndKeeps(s[..|s| - 1], i);
    }
  }

  lemma {:induction false} TrimEndEnds(s: string)
    ensures TrimEnd(s) <= s
    ensures TrimEnd(s) != "" ==> !IsSpace(TrimEnd(s)[|TrimEnd(s)| - 1])
  {
    if s != "" && IsSpace(s[|s| - 1]) {
      TrimEndEnds(s[..|s| - 1]);
    }
  }

  lemma {:induction false} TrimStartStarts(s: string)
    ensures TrimStart(s) != "" ==> !IsSpace(TrimStart(s)[0])
  {
    if s != "" && IsSpace(s[0]) {
      TrimStartStarts(s[1..]);
    }
  }

  lemma TrimTrims(s: string)
    ensures Trimmed(Trim(s))
  {
    TrimStartStarts(s);
    TrimEndEnds(TrimStart(s));
  }

  ghost predicate AllSpace(s: string) {
    forall i :: 0 <= i < |s| ==> IsSpace(s[i])
  }

  lemma {:induction false} TrimStartSkips(gap: string, s: string)
    requires AllSpace(gap) && (s != "" ==> !IsSpace(s[0]))
    ensures TrimStart(gap + s) == s
  {
    if gap == "" {
      assert gap + s == s;
    } else {
      assert (gap + s)[1..] == gap[1..] + s;
      TrimStartSkips(gap[1..], s);
    }
  }

  lemma {:induction false} TrimEndDrops(s: string, gap: string)
    requires AllSpace(gap) && (s != "" ==> !IsSpace(s[|s| - 1]))
    ensures TrimEnd(s + gap) == s
  {
    if gap == "" {
      assert s + gap == s;
    } else {
      assert (s + gap)[..|s + gap| - 1] == s + gap[..|gap| - 1];
      TrimEndDrops(s, gap[..|gap| - 1]);
    }
  }

  /** Trimming takes away the spaces around a text and nothing else: of a trimmed text between two
      gaps it leaves that text. */
  lemma {:induction false} TrimTakesGaps(before: string, s: string, after: string)
    requires AllSpace(before) && Trimmed(s) && AllSpace(after)
    ensures Trim(before + s + after) == s
  {
    if s == "" {
      assert before + s + after == before + after + "";
      TrimStartSkips(before + after, "");
    } else {
      assert before + s + after == before + (s + after);
      TrimStartSkips(before, s + after);
      TrimEndDrops(s, after);
    }
  }

  lemma {:induction false} StartGap(s: string) returns (gap: string)
    ensures AllSpace(gap) && s == gap + TrimStart(s)
  {
    gap := "";
    if s != "" && IsSpace(s[0]) {
      var rest := StartGap(s[1..]);
      gap := [s[0]] + rest;
    }
  }

  lemma {:induction false} EndGap(s: string) returns (gap: string)
    ensures AllSpace(gap) && s == TrimEnd(s) + gap
  {
    gap := "";
    if s != "" && IsSpace(s[|s| - 1]) {
      var rest := EndGap(s[..|s| - 1]);
      gap := rest + [s[|s| - 1]];
    }
  }

  ghost predicate Between(before: string, s: string, after: string, whole: string) {
    AllSpace(before) && AllSpace(after) && whole == before + s + after
  }

  /** Every text is its trimmed form between two gaps; so that form is determined. */
  lemma {:induction false} TrimmedBetweenGaps(s: string)
    ensures Trimmed(Trim(s)) && exists before, after :: Between(before, Trim(s), after, s)
  {
    TrimTrims(s);
    var before := StartGap(s);
    var after := EndGap(TrimStart(s));
    assert before + (Trim(s) + after) == before + Trim(s) + after;
    assert Between(before, Trim(s), after, s);
  }
}
