/** Turning a step-definition method name into the phrase it matches:
    underscores become spaces, or else camel-case words are spaced apart, and
    optionally a leading given/when/then is dropped and the phrase lower-cased. */
module NameParser {
  import opened Wrappers
  import opened Ascii

  /** The part of a method the parser looks at. */
  datatype MethodInfo = MethodInfo(name: string)

  /** A run of `n` underscores. */
  function Underscores(n: nat): (r: string)
    ensures |r| == n && forall i :: 0 <= i < n ==> r[i] == '_'
  {
    seq(n, _ => '_')
  }

  /** `Regex.Split` on `_+`: the piece before the first run of underscores,
      then the pieces of what follows the run; an empty piece before a leading
      run and after a trailing one. */
  function UnderscorePieces(t: string): (r: seq<string>)
    ensures |r| >= 1
    decreases |t|
  {
    var e := RunFrom(t, 0, NonUnderscore);
    RunFromIsMaximal(t, 0, NonUnderscore);
    if e == |t| then [t]
    else [t[..e]] + UnderscorePieces(t[RunFrom(t, e, Underscore)..])
  }

  /** `Regex.Split` on `(?<!^)(?=[A-Z])`, from position `from`: the pieces
      that start at `from` and at every later upper-case letter. */
  function CamelPieces(s: string, from: nat): (r: seq<string>)
    requires from < |s|
    ensures |r| >= 1
    decreases |s| - from
  {
    var e := RunFrom(s, from + 1, NonUpper);
    if e == |s| then [s[from..e]] else [s[from..e]] + CamelPieces(s, e)
  }

  function CamelSplit(s: string): (r: seq<string>)
    ensures |r| >= 1
  {
    if s == [] then [""] else CamelPieces(s, 0)
  }

  /** The name with its words spaced apart: split on underscores when it has
      any (after trimming them off both ends), otherwise before each inner
      upper-case letter. No underscore is left. */
  function Spaced(name: string): (r: string)
    ensures '_' !in r
  {
    if '_' in name then
      var t := TrimBy(name, Underscore);
      UnderscorePiecesAvoid(t, '_');
      JoinAvoids(" ", UnderscorePieces(t), '_');
      Join(" ", UnderscorePieces(t))
    else
      CamelSplitAvoids(name, '_');
      Join(" ", CamelSplit(name))
  }

  /** `^(given|when|then) ` replaced by nothing, ignoring case. */
  function RemovePrefix(s: string): (r: string)
    ensures |r| <= |s| && r == s[|s| - |r|..]
  {
    if CIMatchAt("given ", s, 0) then s[6..]
    else if CIMatchAt("when ", s, 0) then s[5..]
    else if CIMatchAt("then ", s, 0) then s[5..]
    else s
  }

  /** `Parse(string name, bool removePrefix)`: the spaced name, or, when
      the prefix is removed, what follows it, in lower case. */
  function Parse(name: string, removePrefix: bool): (r: string)
    ensures !removePrefix ==> r == Spaced(name)
    ensures removePrefix ==> ToLower(r) == r && |r| <= |Spaced(name)|
    ensures '_' !in r
  {
    var spaced := Spaced(name);
    if removePrefix then
      var rest := RemovePrefix(spaced);
      RemovePrefixAvoids(spaced, '_');
      ToLowerAvoids(rest, '_');
      ToLowerIdempotent(rest);
      ToLower(rest)
    else spaced
  }

  /** `Parse(string name)`: keeps the prefix and the case; a missing (null)
      name is refused. */
  function ParseName(name: Option<string>): (r: Option<string>)
    ensures r.Some? <==> name.Some?
    ensures r.Some? ==> r.value == Parse(name.value, false)
  {
    match name
    case None => None
    case Some(n) => Some(Parse(n, false))
  }

  /** `Parse(MethodInfo, bool)`: the same parse, of the method's name. */
  function ParseMethod(m: MethodInfo, removePrefix: bool): (r: string)
    ensures r == Parse(m.name, removePrefix)
  {
    var result := m.name;
    var spaced := if '_' in result then Join(" ", UnderscorePieces(TrimBy(result, Underscore)))
                  else Join(" ", CamelSplit(result));
    if removePrefix then ToLower(RemovePrefix(spaced)) else spaced
  }

  /** `Parse(MethodInfo)`: drops the prefix. */
  function ParseMethodDefault(m: MethodInfo): (r: string)
    ensures r == Parse(m.name, true)
  {
    ParseMethod(m, true)
  }

  /** `name` starts with `word`, whose first letter may be either case. */
  predicate StartsWithWord(name: string, word: string)
    requires word != [] && IsUpper(word[0])
  {
    |word| <= |name| && (name[0] == word[0] || name[0] == Lower(word[0])) && name[1..|word|] == word[1..]
  }

  /** The length of the leading `[Gg]iven`, `[Ww]hen` or `[Tt]hen`, or 0. */
  function StepWord(name: string): (w: nat)
    ensures w == 0 || w == 4 || w == 5
    ensures w == 5 <==> StartsWithWord(name, "Given")
    ensures w == 4 <==> StartsWithWord(name, "When") || StartsWithWord(name, "Then")
  {
    if StartsWithWord(name, "Given") then 5
    else if StartsWithWord(name, "When") || StartsWithWord(name, "Then") then 4
    else 0
  }

  /** `name` starts with `p` followed by an underscore or an upper-case letter. */
  predicate Begins(name: string, p: string) {
    |p| < |name| && name[..|p|] == p && (name[|p|] == '_' || IsUpper(name[|p|]))
  }

  /** `^([Gg]iven|[Ww]hen|[Tt]hen)(_|[A-Z])`. */
  predicate IsStepDefinition(name: string): (b: bool)
    ensures b <==> || Begins(name, "Given") || Begins(name, "given")
                   || Begins(name, "When") || Begins(name, "when")
                   || Begins(name, "Then") || Begins(name, "then")
  {
    var w := StepWord(name);
    0 < w < |name| && (name[w] == '_' || IsUpper(name[w]))
  }

  // Splitting on underscores.

  /** Words glued together by runs of underscores, `runs[i]` of them after
      `words[i]`. */
  function Glue(words: seq<string>, runs: seq<nat>): (r: string)
    requires |words| == |runs| + 1
    ensures |words[0]| <= |r| && r[..|words[0]|] == words[0]
  {
    if |runs| == 0 then words[0]
    else words[0] + Underscores(runs[0]) + Glue(words[1..], runs[1..])
  }

  /** Identifier words: non-empty and free of underscores. */
  predicate IsWord(w: string) {
    w != [] && '_' !in w
  }

  predicate AllWords(words: seq<string>) {
    forall i :: 0 <= i < |words| ==> IsWord(words[i])
  }

  predicate AllPositive(runs: seq<nat>) {
    forall i :: 0 <= i < |runs| ==> runs[i] > 0
  }

  /** Glued words start with the first word and end with the last. */
  lemma {:induction false} GlueEnds(words: seq<string>, runs: seq<nat>)
    requires |words| == |runs| + 1 && AllWords(words)
    ensures var g := Glue(words, runs); var last := words[|words| - 1];
            g != [] && g[0] == words[0][0] && g[|g| - 1] == last[|last| - 1]
    decreases |runs|
  {
    assert IsWord(words[0]);
    if |runs| > 0 {
      GlueEnds(words[1..], runs[1..]);
    }
  }

  /** The first piece of a word, a run of underscores and more is the word. */
  lemma SplitsAtFirstRun(w: string, n: nat, rest: string)
    requires IsWord(w) && n > 0 && rest != [] && rest[0] != '_'
    ensures UnderscorePieces(w + Underscores(n) + rest) == [w] + UnderscorePieces(rest)
  {
    var t := w + Underscores(n) + rest;
    WordThenRun(w, n, rest);
    UnderscorePiecesStep(t, |w|, |w| + n);
    assert t[..|w|] == w;
    assert t[|w| + n..] == rest;
  }

  /** Splitting glued words on runs of underscores gives the words back. */
  lemma {:induction false} GlueSplits(words: seq<string>, runs: seq<nat>)
    requires |words| == |runs| + 1 && AllWords(words) && AllPositive(runs)
    ensures UnderscorePieces(Glue(words, runs)) == words
    decreases |runs|
  {
    var w0 := words[0];
    assert IsWord(w0);
    if |runs| == 0 {
      RunFromEnds(w0, 0, |w0|, NonUnderscore);
    } else {
      var rest := Glue(words[1..], runs[1..]);
      assert IsWord(words[1]) && runs[0] > 0;
      GlueEnds(words[1..], runs[1..]);
      SplitsAtFirstRun(w0, runs[0], rest);
      GlueSplits(words[1..], runs[1..]);
      assert words == [w0] + words[1..];
    }
  }

  /** A name made of words separated by runs of underscores, with any number
      of underscores before and after, is parsed into the words separated by
      single spaces: the outer underscores are dropped and each run becomes
      one space. */
  lemma UnderscoreNameParses(a: nat, words: seq<string>, runs: seq<nat>, b: nat)
    requires |words| == |runs| + 1 && AllWords(words) && AllPositive(runs)
    requires a > 0 || b > 0 || |runs| > 0
    ensures Parse(Underscores(a) + Glue(words, runs) + Underscores(b), false) == Join(" ", words)
  {
    var g := Glue(words, runs);
    var name := Underscores(a) + g + Underscores(b);
    assert TrimBy(name, Underscore) == g by {
      assert IsWord(words[0]) && IsWord(words[|words| - 1]);
      GlueEnds(words, runs);
      TrimPadding(a, g, b);
    }
    assert UnderscorePieces(g) == words by {
      GlueSplits(words, runs);
    }
    assert '_' in name by {
      PaddedHasUnderscore(a, words, runs, b);
    }
  }

  /** A glued name with padding or more than one word holds an underscore. */
  lemma PaddedHasUnderscore(a: nat, words: seq<string>, runs: seq<nat>, b: nat)
    requires |words| == |runs| + 1 && AllPositive(runs)
    requires a > 0 || b > 0 || |runs| > 0
    ensures '_' in Underscores(a) + Glue(words, runs) + Underscores(b)
  {
    var g := Glue(words, runs);
    var name := Underscores(a) + g + Underscores(b);
    if a > 0 {
      assert name[0] == '_';
    } else if b > 0 {
      assert name[|name| - 1] == '_';
    } else {
      assert g == words[0] + Underscores(runs[0]) + Glue(words[1..], runs[1..]);
      assert name[|words[0]|] == '_';
    }
  }

  // Splitting camel case.

  /** The reference spacing: a space before every upper-case letter except
      at the very start, every character kept in order. */
  function SpaceBeforeCapitals(s: string, from: nat): string
    requires from <= |s|
    decreases |s| - from
  {
    if from == |s| then []
    else (if from > 0 && IsUpper(s[from]) then " " else []) + [s[from]] + SpaceBeforeCapitals(s, from + 1)
  }

  /** Over a stretch without capitals the reference copies the characters. */
  lemma {:induction false} SpaceBeforeCapitalsRun(s: string, p: nat, e: nat)
    requires 0 < p <= e <= |s|
    requires forall i :: p <= i < e ==> !IsUpper(s[i])
    ensures SpaceBeforeCapitals(s, p) == s[p..e] + SpaceBeforeCapitals(s, e)
    decreases e - p
  {
    if p < e {
      var tail := SpaceBeforeCapitals(s, p + 1);
      assert SpaceBeforeCapitals(s, p) == [s[p]] + tail by {
        assert !IsUpper(s[p]);
        SpaceBeforeCapitalsStep(s, p);
        assert [] + [s[p]] == [s[p]];
      }
      assert tail == s[p + 1..e] + SpaceBeforeCapitals(s, e) by {
        SpaceBeforeCapitalsRun(s, p + 1, e);
      }
      assert s[p..e] == [s[p]] + s[p + 1..e];
      RegroupThree([s[p]], s[p + 1..e], SpaceBeforeCapitals(s, e));
    } else {
      assert s[p..e] == [];
    }
  }

  /** Joining the camel-case pieces from a piece start with spaces is the
      reference spacing from there. */
  lemma {:induction false} CamelPiecesSpaced(s: string, from: nat)
    requires from < |s|
    ensures Join(" ", CamelPieces(s, from)) == [s[from]] + SpaceBeforeCapitals(s, from + 1)
    decreases |s| - from
  {
    var e := CamelPieceEnd(s, from);
    var head := s[from..e];
    var mid := s[from + 1..e];
    assert head == [s[from]] + mid;
    if e == |s| {
      assert SpaceBeforeCapitals(s, from + 1) == mid + [];
    } else {
      var rest := CamelPieces(s, e);
      var tail := [s[e]] + SpaceBeforeCapitals(s, e + 1);
      assert Join(" ", rest) == tail by {
        CamelPiecesSpaced(s, e);
      }
      assert Join(" ", CamelPieces(s, from)) == head + " " + tail by {
        JoinCons(" ", head, rest);
      }
      assert SpaceBeforeCapitals(s, from + 1) == mid + (" " + tail) by {
        assert SpaceBeforeCapitals(s, e) == " " + tail by {
          SpaceBeforeCapitalsStep(s, e);
          RegroupThree(" ", [s[e]], SpaceBeforeCapitals(s, e + 1));
        }
      }
      RegroupPiece(Join(" ", CamelPieces(s, from)), SpaceBeforeCapitals(s, from + 1), head, [s[from]], mid, tail);
    }
  }

  /** Without underscores, a name is spaced before each inner capital. */
  lemma CamelNameParses(name: string)
    requires '_' !in name
    ensures Parse(name, false) == SpaceBeforeCapitals(name, 0)
  {
    assert Parse(name, false) == Join(" ", CamelSplit(name));
    if name != [] {
      CamelPiecesSpaced(name, 0);
      SpaceBeforeCapitalsStart(name);
    }
  }

  /** The name with its spaces taken out. */
  function RemoveSpaces(s: string): (r: string)
    ensures |r| <= |s|
  {
    if s == [] then [] else (if s[0] == ' ' then [] else [s[0]]) + RemoveSpaces(s[1..])
  }

  /** Taking the inserted spaces back out of the reference spacing restores
      the name when it had no spaces of its own. */
  lemma {:induction false} SpacesComeOut(s: string, from: nat)
    requires from <= |s| && ' ' !in s
    ensures RemoveSpaces(SpaceBeforeCapitals(s, from)) == s[from..]
    decreases |s| - from
  {
    if from < |s| {
      var sp: string := if from > 0 && IsUpper(s[from]) then " " else [];
      SpacesComeOut(s, from + 1);
      RemoveSpacesAppend(sp + [s[from]], SpaceBeforeCapitals(s, from + 1));
      RemoveSpacesAppend(sp, [s[from]]);
      assert RemoveSpaces([s[from]]) == [s[from]];
      assert s[from..] == [s[from]] + s[from + 1..];
    }
  }

  /** Camel-case splitting only inserts spaces: removing them restores a
      name that has neither underscores nor spaces. */
  lemma CamelRoundTrip(name: string)
    requires '_' !in name && ' ' !in name
    ensures RemoveSpaces(Parse(name, false)) == name
  {
    CamelNameParses(name);
    SpacesComeOut(name, 0);
  }

  // Characters of the result.

  /** The pieces between runs of underscores hold no underscore, and no
      character that `t` does not hold. */
  lemma {:induction false} UnderscorePiecesAvoid(t: string, c: char)
    requires c == '_' || c !in t
    ensures NoPartHolds(UnderscorePieces(t), c)
    decreases |t|
  {
    var e := RunFrom(t, 0, NonUnderscore);
    RunFromIsMaximal(t, 0, NonUnderscore);
    if e < |t| {
      var b := RunFrom(t, e, Underscore);
      var first, tail := t[..e], t[b..];
      assert c !in first by {
        forall i | 0 <= i < e ensures first[i] != c { assert t[i] in t; }
      }
      assert c == '_' || c !in tail by {
        forall i | 0 <= i < |tail| ensures tail[i] == t[b + i] { }
        if c != '_' {
          forall i | 0 <= i < |tail| ensures tail[i] != c { assert t[b + i] in t; }
        }
      }
      UnderscorePiecesAvoid(tail, c);
      UnderscorePiecesStep(t, e, b);
    } else {
      assert t == t[..e];
    }
  }

  lemma {:induction false} SpaceBeforeCapitalsAvoids(s: string, from: nat, c: char)
    requires from <= |s| && c != ' ' && c !in s
    ensures c !in SpaceBeforeCapitals(s, from)
    decreases |s| - from
  {
    if from < |s| {
      assert s[from] in s;
      SpaceBeforeCapitalsAvoids(s, from + 1, c);
    }
  }

  /** Spacing a name adds no character other than spaces. */
  lemma SpacedAvoids(name: string, c: char)
    requires c != ' ' && c !in name
    ensures c !in Parse(name, false)
  {
    if '_' in name {
      var t := TrimBy(name, Underscore);
      TrimByRemovesEnds(name, Underscore);
      assert c !in t by {
        forall i | 0 <= i < |t| ensures t[i] != c {
          assert t[i] == name[RunFrom(name, 0, Underscore) + i];
        }
      }
      UnderscorePiecesAvoid(t, c);
      JoinAvoids(" ", UnderscorePieces(t), c);
    } else {
      CamelSplitAvoids(name, c);
    }
  }

  // Removing the step word.

  /** The step word is decided by the first few characters only. */
  lemma StepWordKept(x: string, y: string)
    requires 0 < StepWord(x) <= |y| && x[..StepWord(x)] == y[..StepWord(x)]
    ensures StepWord(y) == StepWord(x)
  {
    var w := StepWord(x);
    assert y[0] == x[0] && y[1..w] == x[1..w] by {
      assert y[0] == y[..w][0] && x[0] == x[..w][0];
      assert y[1..w] == y[..w][1..] && x[1..w] == x[..w][1..];
    }
  }

  /** `^(given|when|then) `, replaced by nothing, ignoring case: each word
      and its space are dropped whatever their case, and a phrase that starts
      with none of them is left exactly as it is. */
  lemma RemovePrefixCases(s: string)
    ensures CIMatchAt("given ", s, 0) ==> RemovePrefix(s) == s[6..]
    ensures CIMatchAt("when ", s, 0) ==> RemovePrefix(s) == s[5..]
    ensures CIMatchAt("then ", s, 0) ==> RemovePrefix(s) == s[5..]
    ensures RemovePrefix(s) == s <==>
              !CIMatchAt("given ", s, 0) && !CIMatchAt("when ", s, 0) && !CIMatchAt("then ", s, 0)
  {
    if CIMatchAt("when ", s, 0) || CIMatchAt("then ", s, 0) {
      assert Lower("given "[0]) == 'g' && Lower("when "[0]) == 'w' && Lower("then "[0]) == 't';
      assert !CIMatchAt("given ", s, 0) by {
        assert Lower(s[0]) == 'w' || Lower(s[0]) == 't';
      }
    }
  }

  /** A phrase that starts with the step word and a space loses exactly
      those when the prefix is removed. */
  lemma RemovePrefixDropsWord(x: string)
    requires 0 < StepWord(x) < |x| && x[StepWord(x)] == ' '
    ensures RemovePrefix(x) == x[StepWord(x) + 1..]
  {
    if StartsWithWord(x, "Given") {
      MatchesGiven(x);
    } else if StartsWithWord(x, "When") {
      MatchesWhen(x);
    } else {
      MatchesThen(x);
    }
  }

  /** A name whose first capital after the start is at `w` is spaced as its
      first `w` characters, a space, and the spacing of the rest. */
  lemma SpacedAfterWord(name: string, w: nat) returns (after: string)
    requires 0 < w < |name| && IsUpper(name[w])
    requires forall i :: 1 <= i < w ==> !IsUpper(name[i])
    ensures SpaceBeforeCapitals(name, 0) == name[..w] + " " + after
    ensures after == [name[w]] + SpaceBeforeCapitals(name, w + 1)
  {
    after := [name[w]] + SpaceBeforeCapitals(name, w + 1);
    var word := name[1..w];
    assert SpaceBeforeCapitals(name, w) == " " + after by {
      SpaceBeforeCapitalsStep(name, w);
      RegroupThree(" ", [name[w]], SpaceBeforeCapitals(name, w + 1));
    }
    assert SpaceBeforeCapitals(name, 1) == word + SpaceBeforeCapitals(name, w) by {
      SpaceBeforeCapitalsRun(name, 1, w);
    }
    assert SpaceBeforeCapitals(name, 0) == [name[0]] + SpaceBeforeCapitals(name, 1) by {
      SpaceBeforeCapitalsStart(name);
    }
    assert name[..w] == [name[0]] + word;
    Regroup(SpaceBeforeCapitals(name, 0), SpaceBeforeCapitals(name, 1), SpaceBeforeCapitals(name, w),
            [name[0]], word, after, name[..w]);
  }

  /** A camel-case step definition is spaced as its step word, a space, and
      the spacing of the rest. */
  lemma CamelStepDefinitionSpaced(name: string) returns (after: string)
    requires IsStepDefinition(name) && '_' !in name
    ensures var w := StepWord(name);
            && Spaced(name) == name[..w] + " " + after
            && after == [name[w]] + SpaceBeforeCapitals(name, w + 1)
  {
    var w := StepWord(name);
    assert 0 < w < |name| && IsUpper(name[w]);
    StepWordLowerTail(name);
    after := SpacedAfterWord(name, w);
    CamelNameParses(name);
  }

  /** For a camel-case step definition (`GivenAUser`), removing the prefix
      drops the step word and leaves the rest of the name spaced and lower-cased. */
  lemma CamelStepDefinitionDropsWord(name: string)
    requires IsStepDefinition(name) && '_' !in name
    ensures Parse(name, true) == ToLower(Parse(name[StepWord(name)..], false))
  {
    var w := StepWord(name);
    var after := CamelStepDefinitionSpaced(name);
    assert RemovePrefix(name[..w] + " " + after) == after by {
      StepWordKept(name, name[..w]);
      StepSpacedDropsWord(name[..w], after);
    }
    CamelTailParses(name, w);
  }

  /** Past a position inside a name without underscores, the parse of the
      rest is the reference spacing from that position on. */
  lemma CamelTailParses(name: string, w: nat)
    requires 0 < w < |name| && '_' !in name
    ensures Parse(name[w..], false) == [name[w]] + SpaceBeforeCapitals(name, w + 1)
  {
    var tail := name[w..];
    assert '_' !in tail by {
      forall i | 0 <= i < |tail| ensures tail[i] != '_' { assert tail[i] == name[w + i]; }
    }
    CamelNameParses(tail);
    SpaceBeforeCapitalsShift(name, w, 1);
    SpaceBeforeCapitalsStart(tail);
  }

  /** A step word, one run of underscores, and words separated by runs of
      underscores (`Given_a_user`) is a step definition, and removing the
      prefix leaves the words, lower-cased and separated by single spaces. */
  lemma UnderscoreStepDefinitionDropsWord(word: string, n: nat, words: seq<string>, runs: seq<nat>, b: nat)
    requires 0 < |word| && StepWord(word) == |word| && n > 0
    requires |words| == |runs| + 1 && AllWords(words) && AllPositive(runs)
    ensures var name := word + Underscores(n) + Glue(words, runs) + Underscores(b);
            && IsStepDefinition(name)
            && Parse(name, true) == ToLower(Join(" ", words))
  {
    var rest := Glue(words, runs);
    var name := word + Underscores(n) + rest + Underscores(b);
    var spaced := word + " " + Join(" ", words);
    StepNameSpaced(word, n, words, runs, b);
    StepSpacedDropsWord(word, Join(" ", words));
    StepNameIsDefinition(word, n, rest + Underscores(b));
    assert name == word + Underscores(n) + (rest + Underscores(b));
  }

  /** The spacing of `UnderscoreStepDefinitionDropsWord`'s name keeps the
      step word as the first word. */
  lemma StepNameSpaced(word: string, n: nat, words: seq<string>, runs: seq<nat>, b: nat)
    requires 0 < |word| && StepWord(word) == |word| && n > 0
    requires |words| == |runs| + 1 && AllWords(words) && AllPositive(runs)
    ensures Spaced(word + Underscores(n) + Glue(words, runs) + Underscores(b)) == word + " " + Join(" ", words)
  {
    var name := word + Underscores(n) + Glue(words, runs) + Underscores(b);
    assert IsWord(word) by {
      assert word[1..] == "iven" || word[1..] == "hen";
      assert word[0] != '_';
    }
    var all := [word] + words;
    assert all[1..] == words;
    assert Glue(all, [n] + runs) == word + Underscores(n) + Glue(words, runs);
    assert AllWords(all) && AllPositive([n] + runs);
    assert name == Underscores(0) + Glue(all, [n] + runs) + Underscores(b);
    UnderscoreNameParses(0, all, [n] + runs, b);
    JoinCons(" ", word, words);
  }

  /** Removing the prefix from a step word, a space and more leaves the more. */
  lemma StepSpacedDropsWord(word: string, more: string)
    requires 0 < |word| && StepWord(word) == |word|
    ensures RemovePrefix(word + " " + more) == more
  {
    var spaced := word + " " + more;
    assert spaced[..|word|] == word[..|word|];
    StepWordKept(word, spaced);
    RemovePrefixDropsWord(spaced);
    assert spaced[|word| + 1..] == more;
  }

  /** A step word followed by a run of underscores starts a step definition. */
  lemma StepNameIsDefinition(word: string, n: nat, more: string)
    requires 0 < |word| && StepWord(word) == |word| && n > 0
    ensures IsStepDefinition(word + Underscores(n) + more)
  {
    var name := word + Underscores(n) + more;
    assert name[..|word|] == word[..|word|];
    StepWordKept(word, name);
    assert name[|word|] == '_';
  }

  // Examples.

  lemma UnderscoreExample(name: string)
    requires name == "Given_a_user"
    ensures Parse(name, false) == "Given a user"
  {
    var words := ["Given", "a", "user"];
    GivenNameGlued(name, words);
    UnderscoreNameParses(0, words, [1, 1], 0);
    GivenWordsJoined(words);
  }

  lemma UnderscorePrefixExample(name: string)
    requires name == "When_it_runs"
    ensures Parse(name, true) == "it runs"
  {
    var words := ["it", "runs"];
    WhenNameGlued(name, words);
    UnderscoreStepDefinitionDropsWord("When", 1, words, [1], 0);
    WhenWordsJoined(words);
  }

  /** Lower-casing leaves a string without capitals alone. */
  lemma LowerCaseKept(s: string)
    requires forall i :: 0 <= i < |s| ==> !IsUpper(s[i])
    ensures ToLower(s) == s
  {
  }

  lemma CamelExample(name: string)
    requires name == "GivenAUser"
    ensures Parse(name, false) == "Given A User"
  {
    CamelNameParses(name);
    CamelExampleSpaced(name);
  }

  lemma CamelPrefixExample(name: string)
    requires name == "GivenAUser"
    ensures Parse(name, true) == "a user"
  {
    CamelStepDefinitionDropsWord(name);
    assert StepWord(name) == 5;
    CamelTailExample(name[5..]);
    LowerExample("A User");
  }

  lemma CamelTailExample(tail: string)
    requires tail == "AUser"
    ensures Parse(tail, false) == "A User"
  {
    CamelNameParses(tail);
    assert SpaceBeforeCapitals(tail, 1) == " User" by {
      SpaceBeforeCapitalsRun(tail, 2, 5);
      assert tail[2..5] == "ser";
    }
  }

  lemma LowerExample(p: string)
    requires p == "A User"
    ensures ToLower(p) == "a user"
  {
    assert Lower('A') == 'a' && Lower('U') == 'u';
    assert Lower(' ') == ' ' && Lower('s') == 's' && Lower('e') == 'e' && Lower('r') == 'r';
  }

  /** The prefix is matched in any case, and only with its space. */
  lemma RemovePrefixExample(upper: string, longer: string)
    requires upper == "GIVEN x" && longer == "Whenever x"
    ensures RemovePrefix(upper) == "x"
    ensures RemovePrefix(longer) == longer
  {
    assert CIMatchAt("given ", upper, 0) by {
      forall i | 0 <= i < 6 ensures Lower("given "[i]) == Lower(upper[i]) {
        assert upper[..6] == "GIVEN ";
      }
    }
    assert upper[6..] == "x";
    RemovePrefixCases(upper);
    assert Lower(longer[0]) == 'w' && Lower(longer[4]) == 'e';
    assert !CIMatchAt("when ", longer, 0) by {
      assert Lower("when "[4]) == ' ';
    }
    assert !CIMatchAt("given ", longer, 0) && !CIMatchAt("then ", longer, 0) by {
      assert Lower("given "[0]) == 'g' && Lower("then "[0]) == 't';
    }
  }

  lemma StepDefinitionExamples()
    ensures IsStepDefinition("GivenAUser") && IsStepDefinition("then_it_works")
    ensures !IsStepDefinition("Givenup") && !IsStepDefinition("When") && !IsStepDefinition("Setup")
  {
    assert StepWord("Givenup") == 5;
    assert StepWord("then_it_works") == 4;
  }

  // Proof helpers.

  /** One step of the split: the first piece, then the pieces after the
      first run of underscores. */
  lemma UnderscorePiecesStep(t: string, a: nat, b: nat)
    requires a < |t| && RunFrom(t, 0, NonUnderscore) == a && RunFrom(t, a, Underscore) == b
    ensures UnderscorePieces(t) == [t[..a]] + UnderscorePieces(t[b..])
  {
  }

  /** In a word followed by underscores, the first run of non-underscores is
      the word and the run of underscores after it is all of them. */
  lemma WordThenRun(w: string, n: nat, rest: string)
    requires IsWord(w) && n > 0 && rest != [] && rest[0] != '_'
    ensures var t := w + Underscores(n) + rest;
            RunFrom(t, 0, NonUnderscore) == |w| && RunFrom(t, |w|, Underscore) == |w| + n
  {
    var t := w + Underscores(n) + rest;
    forall i | 0 <= i < |w| ensures In(t[i], NonUnderscore) {
      assert t[i] == w[i] && w[i] in w;
    }
    assert t[|w|] == '_';
    RunFromEnds(t, 0, |w|, NonUnderscore);
    assert forall i :: |w| <= i < |w| + n ==> t[i] == Underscores(n)[i - |w|];
    assert t[|w| + n] == rest[0];
    RunFromEnds(t, |w|, |w| + n, Underscore);
  }

  /** Trimming underscores off glued words padded with underscores leaves
      the glued words. */
  lemma TrimPadding(a: nat, g: string, b: nat)
    requires g != [] && g[0] != '_' && g[|g| - 1] != '_'
    ensures TrimBy(Underscores(a) + g + Underscores(b), Underscore) == g
  {
    var s := Underscores(a) + g + Underscores(b);
    RunFromEnds(s, 0, a, Underscore);
    RunBackEnds(s, a, a + |g|, |s|, Underscore);
    assert s[a..a + |g|] == g;
  }

  /** The string equalities of `CamelPiecesSpaced`, chained. */
  lemma RegroupPiece(joined: string, spaced: string, head: string, first: string, mid: string, tail: string)
    requires joined == head + " " + tail && spaced == mid + (" " + tail) && head == first + mid
    ensures joined == first + spaced
  {
  }

  /** Where the first camel-case piece from `from` ends, and what both
      definitions do up to there. */
  lemma CamelPieceEnd(s: string, from: nat) returns (e: nat)
    requires from < |s|
    ensures from < e <= |s| && e == RunFrom(s, from + 1, NonUpper)
    ensures e == |s| ==> CamelPieces(s, from) == [s[from..e]]
    ensures e < |s| ==> CamelPieces(s, from) == [s[from..e]] + CamelPieces(s, e) && IsUpper(s[e])
    ensures SpaceBeforeCapitals(s, from + 1) == s[from + 1..e] + SpaceBeforeCapitals(s, e)
  {
    e := RunFrom(s, from + 1, NonUpper);
    RunFromIsMaximal(s, from + 1, NonUpper);
    SpaceBeforeCapitalsRun(s, from + 1, e);
  }

  lemma {:induction false} RemoveSpacesAppend(a: string, b: string)
    ensures RemoveSpaces(a + b) == RemoveSpaces(a) + RemoveSpaces(b)
    decreases |a|
  {
    if a != [] {
      assert (a + b)[1..] == a[1..] + b;
      RemoveSpacesAppend(a[1..], b);
    } else {
      assert a + b == b;
    }
  }

  /** Removing the prefix keeps a character out. */
  lemma RemovePrefixAvoids(s: string, c: char)
    requires c !in s
    ensures c !in RemovePrefix(s)
  {
    var r := RemovePrefix(s);
    forall i | 0 <= i < |r| ensures r[i] != c {
      assert r[i] == s[|s| - |r| + i];
    }
  }

  /** Lower-casing keeps a character out only if its upper case is out too. */
  lemma ToLowerAvoids(s: string, c: char)
    requires c !in s && !IsUpper(c) && (c !in "abcdefghijklmnopqrstuvwxyz")
    ensures c !in ToLower(s)
  {
  }

  /** Camel-case splitting adds no character other than spaces. */
  lemma CamelSplitAvoids(name: string, c: char)
    requires c != ' ' && c !in name
    ensures c !in Join(" ", CamelSplit(name))
  {
    if name != [] {
      CamelPiecesSpaced(name, 0);
      assert name[0] in name;
      SpaceBeforeCapitalsAvoids(name, 1, c);
    }
  }

  /** The alternatives of the prefix pattern, tried in order, on a phrase
      that starts with a step word and a space. */
  lemma MatchesGiven(x: string)
    requires StartsWithWord(x, "Given") && 5 < |x| && x[5] == ' '
    ensures CIMatchAt("given ", x, 0)
  {
    assert Lower('G') == 'g';
    assert x[1..5] == "iven";
    assert x[1] == 'i' && x[2] == 'v' && x[3] == 'e' && x[4] == 'n';
  }

  lemma MatchesWhen(x: string)
    requires StartsWithWord(x, "When") && 4 < |x| && x[4] == ' '
    ensures CIMatchAt("when ", x, 0) && !CIMatchAt("given ", x, 0)
  {
    assert Lower('W') == 'w';
    assert Lower(x[0]) == 'w';
    assert !CIMatchAt("given ", x, 0) by { assert Lower("given "[0]) == 'g'; }
    assert x[1..4] == "hen";
    assert x[1] == 'h' && x[2] == 'e' && x[3] == 'n';
  }

  lemma MatchesThen(x: string)
    requires StartsWithWord(x, "Then") && 4 < |x| && x[4] == ' '
    ensures CIMatchAt("then ", x, 0) && !CIMatchAt("given ", x, 0) && !CIMatchAt("when ", x, 0)
  {
    assert Lower('T') == 't';
    assert Lower(x[0]) == 't';
    assert !CIMatchAt("given ", x, 0) by { assert Lower("given "[0]) == 'g'; }
    assert !CIMatchAt("when ", x, 0) by { assert Lower("when "[0]) == 'w'; }
    assert x[1..4] == "hen";
    assert x[1] == 'h' && x[2] == 'e' && x[3] == 'n';
  }

  /** The reference spacing looks only at what follows, once past the start. */
  lemma {:induction false} SpaceBeforeCapitalsShift(s: string, d: nat, from: nat)
    requires 0 < from && d + from <= |s|
    ensures SpaceBeforeCapitals(s[d..], from) == SpaceBeforeCapitals(s, d + from)
    decreases |s| - d - from
  {
    if d + from < |s| {
      var c := s[d + from];
      var later := SpaceBeforeCapitals(s[d..], from + 1);
      assert later == SpaceBeforeCapitals(s, d + from + 1) by {
        SpaceBeforeCapitalsShift(s, d, from + 1);
      }
      assert SpaceBeforeCapitals(s[d..], from) == (if IsUpper(c) then " " else []) + [c] + later by {
        assert s[d..][from] == c;
        SpaceBeforeCapitalsStep(s[d..], from);
      }
      SpaceBeforeCapitalsStep(s, d + from);
    }
  }

  /** The first character of the reference spacing never gets a space. */
  lemma SpaceBeforeCapitalsStart(s: string)
    requires s != []
    ensures SpaceBeforeCapitals(s, 0) == [s[0]] + SpaceBeforeCapitals(s, 1)
  {
    assert [] + [s[0]] == [s[0]];
  }

  /** One character of the reference spacing, past the start. */
  lemma SpaceBeforeCapitalsStep(s: string, p: nat)
    requires 0 < p < |s|
    ensures SpaceBeforeCapitals(s, p) == (if IsUpper(s[p]) then " " else []) + [s[p]] + SpaceBeforeCapitals(s, p + 1)
  {
  }

  /** The letters of a step word after the first are lower case. */
  lemma StepWordLowerTail(name: string)
    requires StepWord(name) > 0
    ensures forall i :: 1 <= i < StepWord(name) ==> !IsUpper(name[i])
  {
    var w := StepWord(name);
    assert name[1..w] == "iven" || name[1..w] == "hen";
    forall i | 1 <= i < w ensures !IsUpper(name[i]) {
      assert name[i] == name[1..w][i - 1];
    }
  }

  lemma RegroupThree(a: string, b: string, c: string)
    ensures a + (b + c) == (a + b) + c
  {
  }

  /** The string equalities of `SpacedAfterWord`, chained. */
  lemma Regroup(x0: string, x1: string, xw: string, first: string, word: string, after: string, prefix: string)
    requires x0 == first + x1 && x1 == word + xw && xw == " " + after && prefix == first + word
    ensures x0 == prefix + " " + after
  {
  }

  lemma GivenNameGlued(name: string, words: seq<string>)
    requires name == "Given_a_user" && words == ["Given", "a", "user"]
    ensures AllWords(words) && AllPositive([1, 1])
    ensures name == Underscores(0) + Glue(words, [1, 1]) + Underscores(0)
  {
    assert Underscores(1) == "_" && Underscores(0) == "";
    assert words[1..] == ["a", "user"] && [1, 1][1..] == [1];
    assert Glue(words[1..], [1]) == "a" + "_" + "user";
    assert Glue(words, [1, 1]) == "Given" + "_" + ("a" + "_" + "user");
  }

  lemma GivenWordsJoined(words: seq<string>)
    requires words == ["Given", "a", "user"]
    ensures Join(" ", words) == "Given a user"
  {
    JoinThree(" ", "Given", "a", "user");
  }

  lemma WhenNameGlued(name: string, words: seq<string>)
    requires name == "When_it_runs" && words == ["it", "runs"]
    ensures AllWords(words) && AllPositive([1]) && StepWord("When") == 4
    ensures name == "When" + Underscores(1) + Glue(words, [1]) + Underscores(0)
  {
    assert Underscores(1) == "_" && Underscores(0) == "";
    assert Glue(words, [1]) == "it" + "_" + "runs";
  }

  lemma WhenWordsJoined(words: seq<string>)
    requires words == ["it", "runs"]
    ensures ToLower(Join(" ", words)) == "it runs"
  {
    JoinCons(" ", "it", ["runs"]);
    LowerCaseKept("it runs");
  }

  lemma CamelExampleSpaced(name: string)
    requires name == "GivenAUser"
    ensures SpaceBeforeCapitals(name, 0) == "Given A User"
  {
    CamelExampleTail(name);
    CamelExampleHead(name);
    assert "Given" + " A User" == "Given A User";
  }

  lemma CamelExampleTail(name: string)
    requires name == "GivenAUser"
    ensures SpaceBeforeCapitals(name, 5) == " A User"
  {
    var user := SpaceBeforeCapitals(name, 6);
    assert user == " User" by {
      SpaceBeforeCapitalsStep(name, 6);
      SpaceBeforeCapitalsRun(name, 7, 10);
      assert name[7..10] == "ser";
    }
    SpaceBeforeCapitalsStep(name, 5);
  }

  lemma CamelExampleHead(name: string)
    requires name == "GivenAUser"
    ensures SpaceBeforeCapitals(name, 0) == "Given" + SpaceBeforeCapitals(name, 5)
  {
    assert SpaceBeforeCapitals(name, 1) == "iven" + SpaceBeforeCapitals(name, 5) by {
      SpaceBeforeCapitalsRun(name, 1, 5);
      assert name[1..5] == "iven";
    }
    assert SpaceBeforeCapitals(name, 0) == "G" + SpaceBeforeCapitals(name, 1);
  }
}
