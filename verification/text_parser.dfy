/** TextParser: splits specification text into significant lines and finds
    the `# language: xx` directive. */
module TextParser {
  import opened Wrappers
  import opened Ascii

  // ---------------------------------------------------------------------
  // Language discovery
  // ---------------------------------------------------------------------

  /** The `(\S+)` capture of `#\s*language\s*:\s*(\S+)` (case-insensitive)
      when that pattern matches starting at position `p`, and None otherwise. */
  function DirectiveAt(text: string, p: nat): (r: Option<string>)
    ensures r.Some? ==> r.value != [] && forall i :: 0 <= i < |r.value| ==> !IsWs(r.value[i])
  {
    if p >= |text| || text[p] != '#' then None
    else
      var a := RunFrom(text, p + 1, Whitespace);
      if !CIMatchAt("language", text, a) then None
      else
        var b := RunFrom(text, a + 8, Whitespace);
        if b == |text| || text[b] != ':' then None
        else
          var c := RunFrom(text, b + 1, Whitespace);
          var d := RunFrom(text, c, NonWhitespace);
          RunFromIsMaximal(text, c, NonWhitespace);
          if d == c then None else Some(text[c..d])
  }

  /** The position of the leftmost directive at or after `from`. */
  function FirstDirective(text: string, from: nat): (r: Option<nat>)
    requires from <= |text|
    ensures r.None? ==> forall p :: from <= p <= |text| ==> DirectiveAt(text, p).None?
    ensures r.Some? ==> from <= r.value <= |text| && DirectiveAt(text, r.value).Some?
    ensures r.Some? ==> forall q :: from <= q < r.value ==> DirectiveAt(text, q).None?
    decreases |text| - from
  {
    if from == |text| then None
    else if DirectiveAt(text, from).Some? then Some(from)
    else FirstDirective(text, from + 1)
  }

  /** DiscoverLanguage: the code named by the first directive anywhere in the
      text, or "en" when there is none. */
  function DiscoverLanguage(text: string): (r: string)
    ensures (forall p :: 0 <= p <= |text| ==> DirectiveAt(text, p).None?) ==> r == "en"
    ensures forall p :: 0 <= p <= |text| && DirectiveAt(text, p).Some?
                        && (forall q :: 0 <= q < p ==> DirectiveAt(text, q).None?)
                        ==> r == DirectiveAt(text, p).value
    ensures r != [] && forall i :: 0 <= i < |r| ==> !IsWs(r[i])
  {
    match FirstDirective(text, 0)
    case Some(p) => DirectiveAt(text, p).value
    case None => "en"
  }

  // ---------------------------------------------------------------------
  // Line extraction
  // ---------------------------------------------------------------------

  /** `StringReader.ReadLine` with the reader at `pos < |text|`: the text up
      to the first CR or LF, and the position after its terminator ("\r\n",
      "\r" or "\n"; none at the end of the text). */
  function ReadLine(text: string, pos: nat): (r: (string, nat))
    requires pos < |text|
    ensures pos < r.1 <= |text|
    ensures forall i :: 0 <= i < |r.0| ==> !IsLineBreak(r.0[i])
  {
    var n := RunFrom(text, pos, NonLineBreak);
    RunFromIsMaximal(text, pos, NonLineBreak);
    var next := if n == |text| then n
                else if text[n] == '\r' && n + 1 < |text| && text[n + 1] == '\n' then n + 2
                else n + 1;
    (text[pos..n], next)
  }

  /** Every line `ReadLine` returns from position `pos` on, in order, until it
      returns null. */
  function LinesFrom(text: string, pos: nat): seq<string>
    requires pos <= |text|
    decreases |text| - pos
  {
    if pos == |text| then [] else [ReadLine(text, pos).0] + LinesFrom(text, ReadLine(text, pos).1)
  }

  /** The raw lines of `text`. */
  function SplitLines(text: string): seq<string> {
    LinesFrom(text, 0)
  }

  /** Whether a trimmed line is kept: it is non-empty and does not start
      with `#`. */
  predicate LineIsNotEmptyAndNotAComment(line: string) {
    line != "" && line[0] != '#'
  }

  /** The trimmed lines of `raw` that pass the filter, in order. */
  function Clean(raw: seq<string>): seq<string> {
    if raw == [] then []
    else (if LineIsNotEmptyAndNotAComment(Trim(raw[0])) then [Trim(raw[0])] else [])
         + Clean(raw[1..])
  }

  /** What one `ReadLine` contributes to the result. */
  function Contribution(line: string): seq<string> {
    if LineIsNotEmptyAndNotAComment(Trim(line)) then [Trim(line)] else []
  }

  /** What GetLines returns for `text`: never more lines than the text has,
      each of them trimmed, non-empty, not a comment and free of line
      breaks. */
  function Lines(text: string): (r: seq<string>)
    ensures forall l :: l in r ==> IsCleanLine(l)
    ensures |r| <= |SplitLines(text)|
  {
    LinesFromHaveNoBreaks(text, 0);
    CleanLinesAreClean(SplitLines(text));
    CleanIsOrderedFilter(SplitLines(text));
    KeptIndicesBounded(SplitLines(text));
    Clean(SplitLines(text))
  }

  /** GetLines: reads `text` line by line, trims each line and keeps the
      non-empty, non-comment ones. */
  method GetLines(text: string) returns (lines: seq<string>)
    ensures lines == Lines(text)
  {
    lines := [];
    var pos := 0;
    while pos < |text|
      invariant pos <= |text|
      invariant lines + Clean(LinesFrom(text, pos)) == Lines(text)
      decreases |text| - pos
    {
      var read := ReadLine(text, pos);
      ghost var before := lines;
      var line := Trim(read.0);
      if LineIsNotEmptyAndNotAComment(line) {
        lines := lines + [line];
      }
      KeepsLines(text, pos, before, lines);
      pos := read.1;
    }
  }

  // ---------------------------------------------------------------------
  // Properties of GetLines
  // ---------------------------------------------------------------------

  /** A line as GetLines hands it to the reader. */
  predicate IsCleanLine(line: string) {
    && line != []
    && line[0] != '#'
    && Trimmed(line)
    && forall i :: 0 <= i < |line| ==> !IsLineBreak(line[i])
  }

  lemma {:induction false} LinesFromHaveNoBreaks(text: string, pos: nat)
    requires pos <= |text|
    ensures forall l :: l in LinesFrom(text, pos) ==> forall i :: 0 <= i < |l| ==> !IsLineBreak(l[i])
    decreases |text| - pos
  {
    if pos < |text| {
      LinesFromHaveNoBreaks(text, ReadLine(text, pos).1);
    }
  }

  lemma {:induction false} CleanLinesAreClean(raw: seq<string>)
    requires forall l :: l in raw ==> forall i :: 0 <= i < |l| ==> !IsLineBreak(l[i])
    ensures forall l :: l in Clean(raw) ==> IsCleanLine(l)
  {
    if raw != [] {
      TrimKeepsNoBreaks(raw[0]);
      CleanLinesAreClean(raw[1..]);
    }
  }

  /** The positions of `raw` whose trimmed line passes the filter, in order. */
  function KeptIndices(raw: seq<string>): seq<nat>
  {
    if raw == [] then []
    else KeptIndices(raw[..|raw| - 1])
         + (if LineIsNotEmptyAndNotAComment(Trim(raw[|raw| - 1])) then [|raw| - 1] else [])
  }

  /** GetLines keeps exactly the lines that pass the filter, trimmed, in their
      original order: the k-th result is the trimmed line at the k-th kept
      position, the kept positions increase, and a position is kept if and
      only if its trimmed line is non-empty and not a comment. */
  lemma {:induction false} CleanIsOrderedFilter(raw: seq<string>)
    ensures |Clean(raw)| == |KeptIndices(raw)|
    ensures forall k :: 0 <= k < |KeptIndices(raw)| ==>
              KeptIndices(raw)[k] < |raw| && Clean(raw)[k] == Trim(raw[KeptIndices(raw)[k]])
    ensures forall k, m :: 0 <= k < m < |KeptIndices(raw)| ==> KeptIndices(raw)[k] < KeptIndices(raw)[m]
    ensures forall i :: 0 <= i < |raw| ==>
              (i in KeptIndices(raw) <==> LineIsNotEmptyAndNotAComment(Trim(raw[i])))
  {
    if raw != [] {
      var init, last := raw[..|raw| - 1], raw[|raw| - 1];
      CleanIsOrderedFilter(init);
      assert Clean(raw) == Clean(init) + Contribution(last) by {
        assert raw == init + [last];
        CleanAppend(init, [last]);
        assert Clean([last]) == Contribution(last) by {
          assert [last][1..] == [];
        }
      }
      var keep := LineIsNotEmptyAndNotAComment(Trim(last));
      assert KeptIndices(raw) == KeptIndices(init) + (if keep then [|init|] else []);
      assert raw == init + [last];
      FilterExtends(init, last, KeptIndices(init), Clean(init));
    }
  }

  /** `kept` and `cleaned` are `raw` filtered as `CleanIsOrderedFilter` states. */
  predicate IsOrderedFilter(raw: seq<string>, kept: seq<nat>, cleaned: seq<string>) {
    && |cleaned| == |kept|
    && (forall k :: 0 <= k < |kept| ==> kept[k] < |raw| && cleaned[k] == Trim(raw[kept[k]]))
    && (forall k, m :: 0 <= k < m < |kept| ==> kept[k] < kept[m])
    && (forall i :: 0 <= i < |raw| ==> (i in kept <==> LineIsNotEmptyAndNotAComment(Trim(raw[i]))))
  }

  /** Lines are read the same way from a suffix. */
  lemma {:induction false} LinesFromShift(x: string, y: string, p: nat)
    requires p <= |y|
    ensures LinesFrom(x + y, |x| + p) == LinesFrom(y, p)
    decreases |y| - p
  {
    if p < |y| {
      var line, next := ReadLine(y, p).0, ReadLine(y, p).1;
      assert ReadLine(x + y, |x| + p) == (line, |x| + next) by {
        ReadLineShift(x, y, p);
      }
      var later := LinesFrom(x + y, |x| + next);
      assert later == LinesFrom(y, next) by {
        LinesFromShift(x, y, next);
      }
      assert LinesFrom(y, p) == [line] + LinesFrom(y, next);
      assert LinesFrom(x + y, |x| + p) == [line] + later;
    }
  }

  /** Splitting lines joined by "\n" gives them back, when none is empty or
      holds a line break. */
  lemma {:induction false} SplitJoin(ls: seq<string>)
    requires forall l :: l in ls ==> l != [] && forall i :: 0 <= i < |l| ==> !IsLineBreak(l[i])
    ensures SplitLines(Join("\n", ls)) == ls
  {
    if |ls| == 1 {
      var l := ls[0];
      RunFromEnds(l, 0, |l|, NonLineBreak);
      assert l[0..|l|] == l;
      assert ReadLine(l, 0) == (l, |l|);
      assert LinesFrom(l, |l|) == [];
    } else if |ls| > 1 {
      var x, y := ls[0] + "\n", Join("\n", ls[1..]);
      var text := x + y;
      RunFromEnds(text, 0, |ls[0]|, NonLineBreak);
      assert text[0..|ls[0]|] == ls[0];
      assert ReadLine(text, 0) == (ls[0], |x| + 0);
      LinesFromShift(x, y, 0);
      SplitJoin(ls[1..]);
    }
  }

  lemma {:induction false} CleanKeepsCleanLines(ls: seq<string>)
    requires forall l :: l in ls ==> IsCleanLine(l)
    ensures Clean(ls) == ls
  {
    if ls != [] {
      assert ls[0] in ls;
      assert forall l :: l in ls[1..] ==> l in ls;
      TrimOfTrimmed(ls[0]);
      CleanKeepsCleanLines(ls[1..]);
    }
  }

  /** A comment, a blank line and an indented step: only the step is kept,
      trimmed. */
  lemma CleanExample(raw: seq<string>)
    requires raw == ["# note", "", " Given a "]
    ensures Clean(raw) == ["Given a"]
  {
    TrimOfTrimmed(raw[0]);
    assert Trim(raw[1]) == [];
    var t := raw[2];
    RunFromEnds(t, 0, 1, Whitespace);
    RunBackEnds(t, 1, 8, 9, Whitespace);
    assert Trim(t) == t[1..8] == "Given a";
    assert Clean([t]) == ["Given a"] by {
      CleanCons(t, []);
    }
    CleanCons(raw[1], [t]);
    assert raw == [raw[0]] + [raw[1], t];
    CleanCons(raw[0], [raw[1], t]);
  }

  /** GetLines is idempotent: re-reading its own output, joined by newlines,
      yields the same lines. */
  lemma GetLinesIdempotent(text: string)
    ensures Lines(Join("\n", Lines(text))) == Lines(text)
  {
    SplitJoin(Lines(text));
    CleanKeepsCleanLines(Lines(text));
  }

  // ---------------------------------------------------------------------
  // Properties of DiscoverLanguage
  // ---------------------------------------------------------------------

  /** Text without any '#' declares no language, so "en" is used. */
  lemma NoDirectiveMeansEnglish(text: string)
    requires '#' !in text
    ensures DiscoverLanguage(text) == "en"
  {
    forall p | 0 <= p <= |text|
      ensures DirectiveAt(text, p).None?
    {
      if p < |text| {
        assert text[p] in text;
      }
    }
  }

  /** The directive recogniser in terms of positions: `#` at `p`, blanks up
      to `a`, `language` at `a`, blanks up to the `:` at `b`, blanks up to `c`
      and a non-blank run from `c` to `d` that ends at a blank or the end. */
  lemma DirectiveAtPositions(s: string, p: nat, a: nat, b: nat, c: nat, d: nat)
    requires p < a && a + 8 <= b < c < d <= |s|
    requires s[p] == '#' && s[b] == ':'
    requires forall i :: p < i < a ==> IsWs(s[i])
    requires CIMatchAt("language", s, a)
    requires forall i :: a + 8 <= i < b ==> IsWs(s[i])
    requires forall i :: b < i < c ==> IsWs(s[i])
    requires forall i :: c <= i < d ==> !IsWs(s[i])
    requires d < |s| ==> IsWs(s[d])
    ensures DirectiveAt(s, p) == Some(s[c..d])
  {
    assert RunFrom(s, p + 1, Whitespace) == a by {
      assert !IsWs(s[a]) by {
        assert Lower("language"[0]) == Lower(s[a + 0]);
      }
      RunFromEnds(s, p + 1, a, Whitespace);
    }
    assert RunFrom(s, a + 8, Whitespace) == b by {
      RunFromEnds(s, a + 8, b, Whitespace);
    }
    DirectiveValue(s, b, c, d);
  }

  /** A directive on the first line names the language, whatever follows:
      `# language: ` then a code without whitespace, then a line break. */
  lemma DirectiveOnFirstLine(code: string, rest: string)
    requires code != [] && forall i :: 0 <= i < |code| ==> !IsWs(code[i])
    ensures DiscoverLanguage("# language: " + code + "\n" + rest) == code
  {
    var t := DirectiveLine(code, rest);
    DirectiveAtPositions(t, 0, 2, 10, 12, 12 + |code|);
  }

  /** "# language: fr" on the first line selects French keywords. */
  lemma DiscoverLanguageExample()
    ensures DiscoverLanguage("# language: fr\n") == "fr"
  {
    DirectiveOnFirstLine("fr", "");
    assert "# language: " + "fr" + "\n" + "" == "# language: fr\n";
  }

  /** Text that only mentions a language without the directive keeps "en". */
  lemma DiscoverLanguageDefaultExample()
    ensures DiscoverLanguage("Feature: Login in another language") == "en"
  {
    NoDirectiveMeansEnglish("Feature: Login in another language");
  }

  // Proof helpers.

  lemma CleanCons(line: string, rest: seq<string>)
    ensures Clean([line] + rest)
            == (if LineIsNotEmptyAndNotAComment(Trim(line)) then [Trim(line)] else []) + Clean(rest)
  {
    assert ([line] + rest)[1..] == rest;
  }

  lemma CleanLinesFrom(text: string, pos: nat)
    requires pos < |text|
    ensures Clean(LinesFrom(text, pos))
            == Contribution(ReadLine(text, pos).0) + Clean(LinesFrom(text, ReadLine(text, pos).1))
  {
    CleanCons(ReadLine(text, pos).0, LinesFrom(text, ReadLine(text, pos).1));
  }

  lemma AppendAssoc(a: seq<string>, b: seq<string>, c: seq<string>)
    ensures a + (b + c) == (a + b) + c
  {
  }

  /** A turn of `GetLines` adds the line's contribution and keeps the rest
      of the text to read. */
  lemma KeepsLines(text: string, pos: nat, before: seq<string>, after: seq<string>)
    requires pos < |text| && before + Clean(LinesFrom(text, pos)) == Lines(text)
    requires after == before + Contribution(ReadLine(text, pos).0)
    ensures after + Clean(LinesFrom(text, ReadLine(text, pos).1)) == Lines(text)
  {
    var read := ReadLine(text, pos);
    CleanLinesFrom(text, pos);
    AppendAssoc(before, Contribution(read.0), Clean(LinesFrom(text, read.1)));
  }

  lemma TrimKeepsNoBreaks(line: string)
    requires forall i :: 0 <= i < |line| ==> !IsLineBreak(line[i])
    ensures Trimmed(Trim(line))
    ensures forall i :: 0 <= i < |Trim(line)| ==> !IsLineBreak(Trim(line)[i])
  {
    TrimByRemovesEnds(line, Whitespace);
  }

  lemma {:induction false} CleanAppend(a: seq<string>, b: seq<string>)
    ensures Clean(a + b) == Clean(a) + Clean(b)
  {
    if a != [] {
      assert (a + b)[1..] == a[1..] + b;
      CleanAppend(a[1..], b);
    } else {
      assert a + b == b;
    }
  }

  /** The filter of the lines and one more. */
  lemma FilterExtends(init: seq<string>, last: string, kept: seq<nat>, cleaned: seq<string>)
    requires IsOrderedFilter(init, kept, cleaned)
    ensures var keep := LineIsNotEmptyAndNotAComment(Trim(last));
            IsOrderedFilter(init + [last], kept + (if keep then [|init|] else []), cleaned + Contribution(last))
  {
    var raw := init + [last];
    assert forall i :: 0 <= i < |init| ==> raw[i] == init[i];
  }

  lemma {:induction false} KeptIndicesBounded(raw: seq<string>)
    ensures |KeptIndices(raw)| <= |raw|
  {
    if raw != [] {
      KeptIndicesBounded(raw[..|raw| - 1]);
    }
  }

  lemma LinesFromCons(text: string, pos: nat)
    requires pos < |text|
    ensures LinesFrom(text, pos) == [ReadLine(text, pos).0] + LinesFrom(text, ReadLine(text, pos).1)
  {
  }

  lemma ReadLineShift(x: string, y: string, p: nat)
    requires p < |y|
    ensures ReadLine(x + y, |x| + p) == (ReadLine(y, p).0, |x| + ReadLine(y, p).1)
  {
    var n := RunFrom(y, p, NonLineBreak);
    RunFromShift(x, y, p, NonLineBreak);
    assert (x + y)[|x| + p..|x| + n] == y[p..n];
    if n < |y| {
      assert (x + y)[|x| + n] == y[n];
    }
    if n + 1 < |y| {
      assert (x + y)[|x| + n + 1] == y[n + 1];
    }
  }

  /** The value after the colon of a directive: whitespace, then the code. */
  lemma DirectiveValue(s: string, b: nat, c: nat, d: nat)
    requires b < c < d <= |s|
    requires forall i :: b < i < c ==> IsWs(s[i])
    requires forall i :: c <= i < d ==> !IsWs(s[i])
    requires d < |s| ==> IsWs(s[d])
    ensures RunFrom(s, b + 1, Whitespace) == c && RunFrom(s, c, NonWhitespace) == d
  {
    RunFromEnds(s, b + 1, c, Whitespace);
    RunFromEnds(s, c, d, NonWhitespace);
  }

  /** The characters of a directive line, position by position. */
  lemma DirectiveLine(code: string, rest: string) returns (t: string)
    ensures t == "# language: " + code + "\n" + rest
    ensures t[0] == '#' && t[1] == ' ' && t[10] == ':' && t[11] == ' '
    ensures CIMatchAt("language", t, 2)
    ensures |t| > 12 + |code| && t[12..12 + |code|] == code && t[12 + |code|] == '\n'
  {
    var prefix := "# language: ";
    t := prefix + code + "\n" + rest;
    assert forall i :: 0 <= i < |prefix| ==> t[i] == prefix[i];
    assert t[12..12 + |code|] == code;
  }
}
