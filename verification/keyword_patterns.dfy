/** The keyword table and the three line shapes the reader recognises:
    `^\s*K\s*:\s*(.+)` for a feature header, `^\s*K\s*\d*\s*:\s*(.+)` for a
    scenario header and `^\s*(K)\s+.+` for a step, each matched without regard
    to case. The patterns are written out as scans over the line. */
module KeywordPatterns {
  import opened Wrappers
  import opened Ascii

  /** The six localised keywords a language supplies. */
  datatype Keywords = Keywords(
    featureWord: string, scenarioWord: string,
    givenWord: string, whenWord: string, thenWord: string, andWord: string)

  /** The neutral (English) resources. */
  const English := Keywords("Feature", "Scenario", "Given", "When", "Then", "And")

  /** A keyword is non-empty and does not start with whitespace, so the
      pattern's leading `\s*` always consumes the whole indentation. */
  predicate WellFormedKeyword(k: string) {
    k != [] && !IsWs(k[0])
  }

  predicate WellFormed(kw: Keywords) {
    && WellFormedKeyword(kw.featureWord) && WellFormedKeyword(kw.scenarioWord)
    && WellFormedKeyword(kw.givenWord) && WellFormedKeyword(kw.whenWord)
    && WellFormedKeyword(kw.thenWord) && WellFormedKeyword(kw.andWord)
  }

  /** Every language in the table supplies well-formed keywords. */
  predicate WellFormedTable(table: map<string, Keywords>) {
    forall lang :: lang in table ==> WellFormed(table[lang])
  }

  /** The keywords of `language`, falling back to the neutral resources when
      the language has none of its own. */
  function KeywordsFor(table: map<string, Keywords>, language: string): (kw: Keywords)
    ensures language in table ==> kw == table[language]
    ensures language !in table ==> kw == English
    ensures WellFormedTable(table) ==> WellFormed(kw)
  {
    if language in table then table[language] else English
  }

  /** Where the keyword must start: after the leading whitespace. */
  function KeywordStart(line: string): nat {
    RunFrom(line, 0, Whitespace)
  }

  /** The shared tail of both header patterns, from the position where the
      colon must be: `:\s*(.+)`. The `(.+)` group takes the rest of the line;
      when only whitespace follows the colon the engine backtracks and the
      group is the last whitespace character. */
  function ColonTail(line: string, b: nat): (r: Option<string>)
    requires b <= |line|
    ensures r.Some? ==> r.value != [] && |r.value| < |line| - b
  {
    if b == |line| || line[b] != ':' then None
    else
      var c := RunFrom(line, b + 1, Whitespace);
      if c < |line| then Some(line[c..])
      else if c > b + 1 then Some(line[c - 1..])
      else None
  }

  /** `^\s*K\s*:\s*(.+)`: the captured name, if the line is a header. */
  function FeatureMatch(k: string, line: string): (r: Option<string>)
    ensures r.Some? ==> r.value != [] && |r.value| + |k| < |line|
  {
    var a := KeywordStart(line);
    if !CIMatchAt(k, line, a) then None
    else ColonTail(line, RunFrom(line, a + |k|, Whitespace))
  }

  /** `^\s*K\s*\d*\s*:\s*(.+)`: as `FeatureMatch`, with an optional number
      between the keyword and the colon. */
  function ScenarioMatch(k: string, line: string): (r: Option<string>)
    ensures r.Some? ==> r.value != [] && |r.value| + |k| < |line|
  {
    var a := KeywordStart(line);
    if !CIMatchAt(k, line, a) then None
    else
      var b0 := RunFrom(line, a + |k|, Whitespace);
      var b1 := RunFrom(line, b0, Digit);
      ColonTail(line, RunFrom(line, b1, Whitespace))
  }

  /** `^\s*(K)\s+.+`: the keyword, at least one whitespace character, and at
      least one more character. */
  predicate StepMatch(k: string, line: string): (b: bool)
    ensures b ==> |k| + 2 <= |line|
  {
    var a := KeywordStart(line);
    CIMatchAt(k, line, a) && a + |k| + 1 < |line| && IsWs(line[a + |k|])
  }

  // Properties of the shapes.

  /** `ColonTail` on a colon followed by some whitespace and a name that
      starts with a non-whitespace character captures exactly the name. */
  lemma ColonTailOfName(line: string, b: nat, c: nat)
    requires b < c < |line| && line[b] == ':' && !IsWs(line[c])
    requires forall i :: b < i < c ==> IsWs(line[i])
    ensures ColonTail(line, b) == Some(line[c..])
  {
    RunFromEnds(line, b + 1, c, Whitespace);
  }

  /** Formatting a feature header and matching it gives the name back. */
  lemma FeatureHeaderRoundTrip(k: string, name: string)
    requires WellFormedKeyword(k) && name != [] && !IsWs(name[0])
    ensures FeatureMatch(k, k + ": " + name) == Some(name)
    ensures ScenarioMatch(k, k + ": " + name) == Some(name)
  {
    var line := k + ": " + name;
    assert line[0] == k[0];
    RunFromEnds(line, 0, 0, Whitespace);
    assert CIMatchAt(k, line, 0) by {
      forall i | 0 <= i < |k| ensures line[i] == k[i] { }
    }
    assert line[|k|] == ':' && line[|k| + 1] == ' ' && line[|k| + 2] == name[0];
    RunFromEnds(line, |k|, |k|, Whitespace);
    RunFromEnds(line, |k|, |k|, Digit);
    ColonTailOfName(line, |k|, |k| + 2);
    assert line[|k| + 2..] == name;
  }

  /** A numbered scenario header is matched, the number left out of the name. */
  lemma NumberedScenarioRoundTrip(k: string, number: string, name: string)
    requires WellFormedKeyword(k) && name != [] && !IsWs(name[0])
    requires forall i :: 0 <= i < |number| ==> IsDigit(number[i])
    ensures ScenarioMatch(k, k + " " + number + ": " + name) == Some(name)
  {
    var line := NumberedLine(k, number, name);
    var b := |k| + 1 + |number|;
    RunFromEnds(line, 0, 0, Whitespace);
    assert CIMatchAt(k, line, 0);
    RunFromEnds(line, |k|, |k| + 1, Whitespace);
    RunFromEnds(line, |k| + 1, b, Digit);
    RunFromEnds(line, b, b, Whitespace);
    ColonTailOfName(line, b, b + 2);
  }

  /** Every feature-shaped line is also scenario-shaped with the same name:
      the scenario pattern only adds an optional number. */
  lemma FeatureShapeIsScenarioShape(k: string, line: string)
    requires FeatureMatch(k, line).Some?
    ensures ScenarioMatch(k, line) == FeatureMatch(k, line)
  {
    var a := KeywordStart(line);
    var b0 := RunFrom(line, a + |k|, Whitespace);
    assert line[b0] == ':';
    RunFromEnds(line, b0, b0, Digit);
    RunFromEnds(line, b0, b0, Whitespace);
  }

  /** A feature header is, in order: whitespace from the start to `a`, the
      keyword up to case, whitespace up to the colon at `b`, whitespace, and
      the name, which runs to the end of the line. */
  lemma FeatureNameIsSuffix(k: string, line: string) returns (a: nat, b: nat)
    requires FeatureMatch(k, line).Some?
    ensures var name := FeatureMatch(k, line).value;
            && a == KeywordStart(line) && a + |k| <= b < |line| - |name|
            && AllWs(line[..a]) && CIEq(line[a..a + |k|], k)
            && AllWs(line[a + |k|..b]) && line[b] == ':'
            && AllWs(line[b + 1..|line| - |name|])
            && name == line[|line| - |name|..]
            && (Trimmed(line) ==> Trimmed(name))
  {
    a := KeywordStart(line);
    assert CIMatchAt(k, line, a);
    KeywordAt(k, line);
    b := RunFrom(line, a + |k|, Whitespace);
    WsRun(line, a + |k|);
    assert FeatureMatch(k, line) == ColonTail(line, b);
    HeaderNameIsSuffix(line, b);
  }

  /** A scenario header is, in order: whitespace from the start to `a`, the
      keyword up to case, whitespace up to `b0`, digits up to `b1`,
      whitespace up to the colon at `b`, whitespace, and the name, which runs
      to the end of the line. */
  lemma ScenarioNameIsSuffix(k: string, line: string) returns (a: nat, b0: nat, b1: nat, b: nat)
    requires ScenarioMatch(k, line).Some?
    ensures var name := ScenarioMatch(k, line).value;
            && a == KeywordStart(line) && a + |k| <= b0 <= b1 <= b < |line| - |name|
            && AllWs(line[..a]) && CIEq(line[a..a + |k|], k)
            && AllWs(line[a + |k|..b0]) && AllDigits(line[b0..b1]) && AllWs(line[b1..b])
            && line[b] == ':' && AllWs(line[b + 1..|line| - |name|])
            && name == line[|line| - |name|..]
            && (Trimmed(line) ==> Trimmed(name))
  {
    a := KeywordStart(line);
    assert CIMatchAt(k, line, a);
    KeywordAt(k, line);
    b0 := RunFrom(line, a + |k|, Whitespace);
    WsRun(line, a + |k|);
    b1 := RunFrom(line, b0, Digit);
    DigitRun(line, b0);
    b := RunFrom(line, b1, Whitespace);
    WsRun(line, b1);
    assert ScenarioMatch(k, line) == ColonTail(line, b);
    HeaderNameIsSuffix(line, b);
  }

  /** A step line is the keyword (up to case) after the indentation, then a
      whitespace character, then at least one more character; so it is at
      least two characters longer than the keyword. */
  lemma StepShape(k: string, line: string)
    requires StepMatch(k, line)
    ensures var a := KeywordStart(line);
            && AllWs(line[..a])
            && CIEq(line[a..a + |k|], k)
            && IsWs(line[a + |k|])
            && |k| + 2 <= |line| - a
  {
    var a := KeywordStart(line);
    RunFromIsMaximal(line, 0, Whitespace);
  }

  /** The keyword followed by a space is a step line exactly when something
      follows the space. */
  lemma StepRoundTrip(k: string, rest: string)
    requires WellFormedKeyword(k)
    ensures StepMatch(k, k + " " + rest) <==> rest != []
  {
    var line := k + " " + rest;
    assert line[0] == k[0];
    RunFromEnds(line, 0, 0, Whitespace);
    assert CIMatchAt(k, line, 0) by {
      forall i | 0 <= i < |k| ensures line[i] == k[i] { }
    }
    assert line[|k|] == ' ';
  }

  /** Case does not matter on the line's side either: lower-casing the line
      does not change whether it is a step line. */
  lemma StepMatchIgnoresCase(k: string, line: string)
    ensures StepMatch(k, ToLower(line)) == StepMatch(k, line)
  {
    RunFromLower(line, 0, Whitespace);
    var a := KeywordStart(line);
    if a + |k| <= |line| {
      assert CIMatchAt(k, ToLower(line), a) == CIMatchAt(k, line, a) by {
        LowerIdempotent();
      }
      if a + |k| < |line| {
        LowerKeepsWs(line[a + |k|]);
      }
    }
  }


  /** A line that starts, unindented, with a letter other than the keyword's
      first letter is neither a header nor a step of that keyword. */
  lemma OtherFirstLetter(k: string, line: string)
    requires k != [] && line != [] && !IsWs(line[0]) && Lower(k[0]) != Lower(line[0])
    ensures FeatureMatch(k, line).None? && ScenarioMatch(k, line).None? && !StepMatch(k, line)
  {
    RunFromEnds(line, 0, 0, Whitespace);
  }

  // Proof helpers.

  /** The characters of a numbered scenario header, position by position. */
  lemma NumberedLine(k: string, number: string, name: string) returns (line: string)
    requires name != []
    ensures line == k + " " + number + ": " + name
    ensures |line| == |k| + |number| + 3 + |name|
    ensures forall i :: 0 <= i < |k| ==> line[i] == k[i]
    ensures line[|k|] == ' '
    ensures forall i :: |k| + 1 <= i < |k| + 1 + |number| ==> line[i] == number[i - |k| - 1]
    ensures var b := |k| + 1 + |number|;
            line[b] == ':' && line[b + 1] == ' ' && line[b + 2..] == name && line[b + 2] == name[0]
  {
    line := k + " " + number + ": " + name;
    var b := |k| + 1 + |number|;
    assert line[b + 2..] == name;
  }

  /** A header's name is a non-empty suffix of the line that follows the
      colon at `b` and a run of whitespace; in a line without surrounding
      whitespace (as every line the reader sees is), the name starts with a
      non-whitespace character, so it is trimmed. */
  lemma HeaderNameIsSuffix(line: string, b: nat)
    requires b <= |line| && ColonTail(line, b).Some?
    ensures var name := ColonTail(line, b).value;
            && name == line[|line| - |name|..]
            && line[b] == ':' && b < |line| - |name|
            && AllWs(line[b + 1..|line| - |name|])
            && (Trimmed(line) ==> Trimmed(name))
  {
    var c := RunFrom(line, b + 1, Whitespace);
    RunFromIsMaximal(line, b + 1, Whitespace);
  }

  /** What precedes the keyword is whitespace, and the keyword itself is
      there up to case. */
  lemma KeywordAt(k: string, line: string)
    requires CIMatchAt(k, line, KeywordStart(line))
    ensures var a := KeywordStart(line);
            AllWs(line[..a]) && CIEq(line[a..a + |k|], k)
  {
    RunFromIsMaximal(line, 0, Whitespace);
  }

  lemma WsRun(line: string, from: nat)
    requires from <= |line|
    ensures AllWs(line[from..RunFrom(line, from, Whitespace)])
  {
    RunFromIsMaximal(line, from, Whitespace);
  }

  lemma DigitRun(line: string, from: nat)
    requires from <= |line|
    ensures AllDigits(line[from..RunFrom(line, from, Digit)])
  {
    RunFromIsMaximal(line, from, Digit);
  }
}
