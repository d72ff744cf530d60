/** What the reader's pass does with each kind of line, and what holds of a
    whole pass. */
module ReaderProperties {
  import opened Wrappers
  import opened KeywordPatterns
  import opened StepCollections
  import opened PlainText

  // Scanning for the end of a feature description.

  /** The scan stops at the first scenario header and at no earlier line. */
  lemma {:induction false} ScenarioHeaderFromIsFirst(c: Context, from: nat)
    requires from <= |c.lines|
    ensures var j := ScenarioHeaderFrom(c, from);
            && (forall k :: from <= k < j ==> ScenarioMatch(c.kw.scenarioWord, c.lines[k]).None?)
            && (j < |c.lines| ==> ScenarioMatch(c.kw.scenarioWord, c.lines[j]).Some?)
    decreases |c.lines| - from
  {
    if from < |c.lines| && ScenarioMatch(c.kw.scenarioWord, c.lines[from]).None? {
      ScenarioHeaderFromIsFirst(c, from + 1);
    }
  }

  // One line at a time.

  /** A scenario header that is not a feature header appends exactly one new,
      empty scenario named by the text after the colon, makes it the current
      scenario and resets the step type; the cursor stays on the line. */
  lemma ScenarioHeaderOpensScenario(c: Context, i: nat, r: ReaderState, name: string)
    requires i < |c.lines| && ValidState(r)
    requires FeatureMatch(c.kw.featureWord, c.lines[i]).None?
    requires ScenarioMatch(c.kw.scenarioWord, c.lines[i]) == Some(name)
    ensures Visit(c, i, r).Success?
    ensures var v := Visit(c, i, r).value;
            && v.0 == i
            && v.1.contents.feature == r.contents.feature
            && v.1.contents.scenarios == r.contents.scenarios + [Scenario(name, [])]
            && v.1.scenario == Some(|r.contents.scenarios|)
            && v.1.stepType == Unknown
  {
  }

  /** Given, When and Then are tried in that order, and each sets the step
      type whatever it was. */
  lemma ConcreteKeywordsSetType(kw: Keywords, line: string, current: StepType)
    ensures StepMatch(kw.givenWord, line) ==> Classify(kw, line, current) == Success(Given)
    ensures !StepMatch(kw.givenWord, line) && StepMatch(kw.whenWord, line) ==>
              Classify(kw, line, current) == Success(When)
    ensures !StepMatch(kw.givenWord, line) && !StepMatch(kw.whenWord, line) && StepMatch(kw.thenWord, line) ==>
              Classify(kw, line, current) == Success(Then)
  {
  }

  /** An "And" line (one that no other keyword matches) keeps the current
      step type, and fails when no type has been set since the last scenario
      header. */
  lemma AndKeepsType(kw: Keywords, line: string, current: StepType)
    requires !StepMatch(kw.givenWord, line) && !StepMatch(kw.whenWord, line) && !StepMatch(kw.thenWord, line)
    requires StepMatch(kw.andWord, line)
    ensures current != Unknown ==> Classify(kw, line, current) == Success(current)
    ensures current == Unknown ==> Classify(kw, line, current) == Failure(AndBeforeConcreteStep)
  {
  }

  /** Whether a line is a step is decided before whether a scenario is open:
      a line no keyword matches is unrecognised whether or not a scenario is
      open, and a recognised step before any scenario is refused as such. */
  lemma UnrecognizedComesFirst(c: Context, i: nat, line: string, scenario: Option<nat>, current: StepType)
    ensures Classify(c.kw, line, current).Failure? ==>
              StepAt(c, i, line, scenario, current) == Failure(Classify(c.kw, line, current).error)
    ensures (!StepMatch(c.kw.givenWord, line) && !StepMatch(c.kw.whenWord, line)
             && !StepMatch(c.kw.thenWord, line) && !StepMatch(c.kw.andWord, line)) ==>
              StepAt(c, i, line, scenario, current) == Failure(UnrecognizedStep(line))
    ensures Classify(c.kw, line, current).Success? && scenario.None? ==>
              StepAt(c, i, line, scenario, current) == Failure(StepBeforeScenario)
  {
  }

  /** A line that is neither header and that no keyword matches stops the
      pass with an unrecognised-step error naming the line, leaving the file
      as it was before the line. */
  lemma UnrecognizedLineStops(c: Context, i: nat, r: ReaderState)
    requires i < |c.lines| && ValidState(r)
    requires FeatureMatch(c.kw.featureWord, c.lines[i]).None?
    requires ScenarioMatch(c.kw.scenarioWord, c.lines[i]).None?
    requires !StepMatch(c.kw.givenWord, c.lines[i]) && !StepMatch(c.kw.whenWord, c.lines[i])
    requires !StepMatch(c.kw.thenWord, c.lines[i]) && !StepMatch(c.kw.andWord, c.lines[i])
    ensures Visit(c, i, r) == Failure((r.contents, UnrecognizedStep(c.lines[i])))
    ensures Run(c, i, r) == Outcome(r.contents, Some(UnrecognizedStep(c.lines[i])))
  {
  }

  /** A step line that is not a header goes to the current scenario: the step
      carries the type it was classified as, the whole line as its text and
      the block that follows it; every other scenario is left alone, and the
      cursor moves past the block. */
  lemma StepGoesToCurrentScenario(c: Context, i: nat, r: ReaderState, t: StepType)
    requires i < |c.lines| && ValidState(r) && r.scenario.Some?
    requires FeatureMatch(c.kw.featureWord, c.lines[i]).None?
    requires ScenarioMatch(c.kw.scenarioWord, c.lines[i]).None?
    requires Classify(c.kw, c.lines[i], r.stepType) == Success(t)
    ensures Visit(c, i, r).Success?
    ensures var v := Visit(c, i, r).value;
            var cur := r.scenario.value;
            var block := BlockAt(c, i);
            && v.0 == block.1
            && v.1.scenario == r.scenario && v.1.stepType == t && t != Unknown
            && v.1.contents.feature == r.contents.feature
            && |v.1.contents.scenarios| == |r.contents.scenarios|
            && v.1.contents.scenarios[cur].name == r.contents.scenarios[cur].name
            && v.1.contents.scenarios[cur].steps
               == r.contents.scenarios[cur].steps + [Step(t, c.lines[i], block.0)]
            && forall k :: 0 <= k < |r.contents.scenarios| && k != cur ==>
                 v.1.contents.scenarios[k] == r.contents.scenarios[k]
  {
  }

  /** The scan for the end of a description finds the first scenario
      header. */
  lemma {:induction false} ScenarioHeaderFromFinds(c: Context, from: nat, j: nat)
    requires from <= j < |c.lines|
    requires forall k :: from <= k < j ==> ScenarioMatch(c.kw.scenarioWord, c.lines[k]).None?
    requires ScenarioMatch(c.kw.scenarioWord, c.lines[j]).Some?
    ensures ScenarioHeaderFrom(c, from) == j
    decreases j - from
  {
    if from < j {
      ScenarioHeaderFromFinds(c, from + 1, j);
    }
  }

  /** A feature header followed, at line `j`, by the first scenario header:
      the feature is named by the capture, its description is the lines in
      between joined by CR LF, and the pass resumes at line `j`, which opens
      a scenario. */
  lemma FeatureThenScenario(c: Context, i: nat, j: nat, r: ReaderState, name: string, scenarioName: string)
    requires i < j < |c.lines| && ValidState(r)
    requires FeatureMatch(c.kw.featureWord, c.lines[i]) == Some(name)
    requires forall k :: i < k < j ==> ScenarioMatch(c.kw.scenarioWord, c.lines[k]).None?
    requires ScenarioMatch(c.kw.scenarioWord, c.lines[j]) == Some(scenarioName)
    ensures Visit(c, i, r).Success?
    ensures var v := Visit(c, i, r).value;
            && v.0 == j
            && v.1.contents.feature == Some(Feature(name, Description(c.lines[i + 1..j])))
            && v.1.contents.scenarios == r.contents.scenarios + [Scenario(scenarioName, [])]
            && v.1.scenario == Some(|r.contents.scenarios|) && v.1.stepType == Unknown
  {
    var f := Feature(name, Description(c.lines[i + 1..j]));
    assert ParseFeatureAt(c, i, name) == FeatureScan(f, j, c.lines[j], Some(scenarioName)) by {
      ScenarioHeaderFromFinds(c, i + 1, j);
    }
  }

  /** A feature header on the last line: the feature has an empty
      description, and the header's own match is reused to open a scenario
      named after the feature. */
  lemma FeatureOnLastLine(c: Context, r: ReaderState, name: string)
    requires |c.lines| > 0 && ValidState(r)
    requires FeatureMatch(c.kw.featureWord, c.lines[|c.lines| - 1]) == Some(name)
    ensures var v := Visit(c, |c.lines| - 1, r);
            && v.Success?
            && v.value.0 == |c.lines|
            && v.value.1.contents.feature == Some(Feature(name, []))
            && v.value.1.contents.scenarios == r.contents.scenarios + [Scenario(name, [])]
  {
    var i := |c.lines| - 1;
    assert ScenarioHeaderFrom(c, i + 1) == i + 1;
    assert c.lines[i + 1..i + 1] == [];
  }

  /** A feature description that runs to the end of the lines: its last line
      is read once more, now as a step at the end of the lines, under the
      step type and scenario that were current. */
  lemma DescriptionToEnd(c: Context, i: nat, r: ReaderState, name: string)
    requires i + 1 < |c.lines| && ValidState(r)
    requires FeatureMatch(c.kw.featureWord, c.lines[i]) == Some(name)
    requires forall k :: i < k < |c.lines| ==> ScenarioMatch(c.kw.scenarioWord, c.lines[k]).None?
    ensures var n := |c.lines|;
            var d := r.contents.(feature := Some(Feature(name, Description(c.lines[i + 1..]))));
            match StepAt(c, n, c.lines[n - 1], r.scenario, r.stepType)
            case Failure(e) => Visit(c, i, r) == Failure((d, e))
            case Success(st) =>
              Visit(c, i, r) == Success((st.2, ReaderState(AddToScenario(d, r.scenario.value, st.1), r.scenario, st.0)))
  {
    var n := |c.lines|;
    assert c.lines[i + 1..n] == c.lines[i + 1..];
    var f := Feature(name, Description(c.lines[i + 1..n]));
    assert ParseFeatureAt(c, i, name) == FeatureScan(f, n, c.lines[n - 1], None) by {
      assert ScenarioHeaderFrom(c, i + 1) == n by {
        ScenarioHeaderFromIsFirst(c, i + 1);
      }
      assert ScenarioMatch(c.kw.scenarioWord, c.lines[n - 1]).None?;
      FeatureScanEnds(c, i, name, n, c.lines[n - 1], None);
    }
  }

  /** In particular, a description whose last line is not a step line makes
      the whole read fail on that line. */
  lemma DescriptionToEndFails(c: Context, i: nat, r: ReaderState, name: string)
    requires i + 1 < |c.lines| && ValidState(r)
    requires FeatureMatch(c.kw.featureWord, c.lines[i]) == Some(name)
    requires forall k :: i < k < |c.lines| ==> ScenarioMatch(c.kw.scenarioWord, c.lines[k]).None?
    requires var last := c.lines[|c.lines| - 1];
             && !StepMatch(c.kw.givenWord, last) && !StepMatch(c.kw.whenWord, last)
             && !StepMatch(c.kw.thenWord, last) && !StepMatch(c.kw.andWord, last)
    ensures Run(c, i, r).error == Some(UnrecognizedStep(c.lines[|c.lines| - 1]))
    ensures Run(c, i, r).contents.feature == Some(Feature(name, Description(c.lines[i + 1..])))
  {
    DescriptionToEnd(c, i, r, name);
  }

  /** A form is looked for before a grid; a form moves the cursor by its size
      and a grid by one more than its row count, so the cursor never moves
      back. */
  lemma FormBeforeGrid(c: Context, i: nat)
    ensures c.blocks.nextLineIsForm(c.lines, i) ==>
              BlockAt(c, i) == (Form(i + 1, c.blocks.formSize(c.lines, i + 1)), i + c.blocks.formSize(c.lines, i + 1))
    ensures !c.blocks.nextLineIsForm(c.lines, i) && c.blocks.nextLineIsGrid(c.lines, i) ==>
              BlockAt(c, i) == (Grid(i + 1, c.blocks.gridRowCount(c.lines, i + 1)),
                                i + 1 + c.blocks.gridRowCount(c.lines, i + 1))
    ensures !c.blocks.nextLineIsForm(c.lines, i) && !c.blocks.nextLineIsGrid(c.lines, i) ==>
              BlockAt(c, i) == (NoBlock, i)
  {
  }

  // A whole pass.

  /** The scenarios from index `from` on hold only steps of a concrete type
      whose text is one of the lines. */
  predicate StepsFromLines(c: Context, d: Contents, from: nat) {
    forall k, s :: from <= k < |d.scenarios| && s in d.scenarios[k].steps ==>
      s.stepType != Unknown && s.text in c.lines
  }

  /** The file as a pass that started on a file holding the scenarios
      `initial` leaves it: those scenarios come first, unchanged, and the
      scenarios after them hold lines of concrete type. */
  predicate ExtendsFile(c: Context, d: Contents, initial: seq<Scenario>) {
    && |initial| <= |d.scenarios|
    && d.scenarios[..|initial|] == initial
    && StepsFromLines(c, d, |initial|)
  }

  /** The state of such a pass between lines: steps only go to scenarios it
      opened. */
  predicate Extends(c: Context, r: ReaderState, initial: seq<Scenario>) {
    && ValidState(r)
    && ExtendsFile(c, r.contents, initial)
    && (r.scenario.Some? ==> |initial| <= r.scenario.value)
  }

  /** Appending a step from a line to a scenario opened during the pass keeps
      `Extends`. */
  lemma AddKeepsExtends(c: Context, r: ReaderState, initial: seq<Scenario>, d: Contents, step: Step)
    requires Extends(c, r, initial) && r.scenario.Some?
    requires d.scenarios == r.contents.scenarios
    requires step.stepType != Unknown && step.text in c.lines
    ensures Extends(c, ReaderState(AddToScenario(d, r.scenario.value, step), r.scenario, step.stepType), initial)
  {
    var cur := r.scenario.value;
    var d' := AddToScenario(d, cur, step);
    assert d'.scenarios[..|initial|] == r.contents.scenarios[..|initial|];
    forall k, s | |initial| <= k < |d'.scenarios| && s in d'.scenarios[k].steps
      ensures s.stepType != Unknown && s.text in c.lines
    {
      if k != cur {
        assert d'.scenarios[k] == r.contents.scenarios[k];
      } else if s != step {
        assert s in r.contents.scenarios[k].steps;
      }
    }
  }

  /** Opening a scenario keeps `Extends`. */
  lemma OpenKeepsExtends(c: Context, r: ReaderState, initial: seq<Scenario>, d: Contents, name: string)
    requires Extends(c, r, initial)
    requires d.scenarios == r.contents.scenarios
    ensures Extends(c, ReaderState(d.(scenarios := d.scenarios + [Scenario(name, [])]), Some(|d.scenarios|), Unknown),
                    initial)
  {
    var d' := d.(scenarios := d.scenarios + [Scenario(name, [])]);
    assert d'.scenarios[..|initial|] == r.contents.scenarios[..|initial|];
    forall k, s | |initial| <= k < |d'.scenarios| && s in d'.scenarios[k].steps
      ensures s.stepType != Unknown && s.text in c.lines
    {
      assert k < |d.scenarios|;
      assert d'.scenarios[k] == r.contents.scenarios[k];
    }
  }

  /** Each turn keeps `Extends`, and a turn that fails leaves the scenarios
      as they were. */
  lemma VisitKeepsExtends(c: Context, i: nat, r: ReaderState, initial: seq<Scenario>)
    requires i < |c.lines| && Extends(c, r, initial)
    ensures Visit(c, i, r).Success? ==> Extends(c, Visit(c, i, r).value.1, initial)
    ensures Visit(c, i, r).Failure? ==> ExtendsFile(c, Visit(c, i, r).error.0, initial)
  {
    var fm := FeatureMatch(c.kw.featureWord, c.lines[i]);
    var scan := if fm.Some? then ParseFeatureAt(c, i, fm.value)
                else FeatureScan(Feature([], []), i, c.lines[i], ScenarioMatch(c.kw.scenarioWord, c.lines[i]));
    var d := if fm.Some? then r.contents.(feature := Some(scan.feature)) else r.contents;
    if scan.header.Some? {
      OpenKeepsExtends(c, r, initial, d, scan.header.value);
    } else {
      var sa := StepAt(c, scan.next, scan.line, r.scenario, r.stepType);
      if sa.Success? {
        assert scan.line in c.lines;
        AddKeepsExtends(c, r, initial, d, sa.value.1);
      }
    }
  }

  /** A whole pass never touches the scenarios the file already had, only
      appends, and every step it records has a concrete type (never
      `Unknown`) and is one of the lines. */
  lemma {:induction false} RunExtends(c: Context, i: nat, r: ReaderState, initial: seq<Scenario>)
    requires Extends(c, r, initial)
    ensures ExtendsFile(c, Run(c, i, r).contents, initial)
    decreases |c.lines| - i
  {
    if i < |c.lines| {
      VisitKeepsExtends(c, i, r, initial);
      match Visit(c, i, r)
      case Success((next, r')) =>
        RunContinues(c, i, r, next, r');
        RunExtends(c, next + 1, r', initial);
      case Failure((d, e)) =>
        RunStops(c, i, r, d, e);
    }
  }

  /** A pass from the first line leaves the file's earlier scenarios alone,
      and every step it adds is one of the lines, of a concrete type. */
  lemma PassKeepsEarlierScenarios(c: Context, initial: Contents)
    ensures ExtendsFile(c, Run(c, 0, ReaderState(initial, None, Unknown)).contents, initial.scenarios)
  {
    var r := ReaderState(initial, None, Unknown);
    assert initial.scenarios[..|initial.scenarios|] == initial.scenarios;
    RunExtends(c, 0, r, initial.scenarios);
  }

  /** A whole pass over a feature header, a scenario header and one step of
      each concrete kind: the feature has an empty description, and the one
      scenario holds the three steps in order, without blocks. */
  lemma WholePassExample(c: Context)
    requires c.kw == English
    requires c.lines == ["Feature: F", "Scenario: S", "Given a", "When b", "Then c"]
    requires !c.blocks.nextLineIsForm(c.lines, 2) && !c.blocks.nextLineIsGrid(c.lines, 2)
    requires !c.blocks.nextLineIsForm(c.lines, 3) && !c.blocks.nextLineIsGrid(c.lines, 3)
    requires !c.blocks.nextLineIsForm(c.lines, 4) && !c.blocks.nextLineIsGrid(c.lines, 4)
    ensures Run(c, 0, ReaderState(Contents(None, []), None, Unknown))
            == Outcome(Contents(Some(Feature("F", [])),
                                [Scenario("S", [Step(Given, "Given a", NoBlock),
                                                Step(When, "When b", NoBlock),
                                                Step(Then, "Then c", NoBlock)])]),
                       None)
  {
    ExampleHeaders(c.lines[0], c.lines[1]);
    ExampleSteps(c);
    ThreeStepPass(c, "F", "S", Given, When, Then);
  }

  // Proof helpers.

  /** A feature header, a scenario header and three step lines without
      blocks: one scenario holding the three steps. */
  lemma ThreeStepPass(c: Context, name: string, scenarioName: string, t2: StepType, t3: StepType, t4: StepType)
    requires |c.lines| == 5
    requires FeatureMatch(c.kw.featureWord, c.lines[0]) == Some(name)
    requires ScenarioMatch(c.kw.scenarioWord, c.lines[1]) == Some(scenarioName)
    requires NoHeaderNorBlock(c, 2) && NoHeaderNorBlock(c, 3) && NoHeaderNorBlock(c, 4)
    requires Classify(c.kw, c.lines[2], Unknown) == Success(t2)
    requires Classify(c.kw, c.lines[3], t2) == Success(t3)
    requires Classify(c.kw, c.lines[4], t3) == Success(t4)
    ensures Run(c, 0, ReaderState(Contents(None, []), None, Unknown))
            == Outcome(Contents(Some(Feature(name, [])),
                                [Scenario(scenarioName, [Step(t2, c.lines[2], NoBlock),
                                                         Step(t3, c.lines[3], NoBlock),
                                                         Step(t4, c.lines[4], NoBlock)])]),
                       None)
  {
    var f := Some(Feature(name, []));
    var s2, s3, s4 := Step(t2, c.lines[2], NoBlock), Step(t3, c.lines[3], NoBlock), Step(t4, c.lines[4], NoBlock);
    var r2 := ReaderState(Contents(f, [Scenario(scenarioName, [])]), Some(0), Unknown);
    var r3 := ReaderState(Contents(f, [Scenario(scenarioName, [s2])]), Some(0), t2);
    var r4 := ReaderState(Contents(f, [Scenario(scenarioName, [s2, s3])]), Some(0), t3);
    var r5 := ReaderState(Contents(f, [Scenario(scenarioName, [s2, s3, s4])]), Some(0), t4);
    HeadersTurn(c, name, scenarioName);
    StepTurn(c, 2, r2, t2);
    assert [] + [s2] == [s2];
    StepTurn(c, 3, r3, t3);
    assert [s2] + [s3] == [s2, s3];
    StepTurn(c, 4, r4, t4);
    assert [s2, s3] + [s4] == [s2, s3, s4];
    assert Run(c, 5, r5) == Outcome(r5.contents, None);
  }

  /** A feature header followed at once by a scenario header, at the top of
      an empty file. */
  lemma HeadersTurn(c: Context, name: string, scenarioName: string)
    requires 2 <= |c.lines|
    requires FeatureMatch(c.kw.featureWord, c.lines[0]) == Some(name)
    requires ScenarioMatch(c.kw.scenarioWord, c.lines[1]) == Some(scenarioName)
    ensures Run(c, 0, ReaderState(Contents(None, []), None, Unknown))
            == Run(c, 2, ReaderState(Contents(Some(Feature(name, [])), [Scenario(scenarioName, [])]), Some(0), Unknown))
  {
    var r0 := ReaderState(Contents(None, []), None, Unknown);
    FeatureThenScenario(c, 0, 1, r0, name, scenarioName);
    assert c.lines[1..1] == [];
    assert Description([]) == [];
    var v := Visit(c, 0, r0).value;
    assert v.1 == ReaderState(Contents(Some(Feature(name, [])), [Scenario(scenarioName, [])]), Some(0), Unknown);
    RunContinues(c, 0, r0, 1, v.1);
  }

  /** The example's first two lines are its headers. */
  lemma ExampleHeaders(featureLine: string, scenarioLine: string)
    requires featureLine == "Feature: F" && scenarioLine == "Scenario: S"
    ensures FeatureMatch("Feature", featureLine) == Some("F")
    ensures ScenarioMatch("Scenario", scenarioLine) == Some("S")
  {
    assert featureLine == "Feature" + ": " + "F" && scenarioLine == "Scenario" + ": " + "S";
    FeatureHeaderRoundTrip("Feature", "F");
    FeatureHeaderRoundTrip("Scenario", "S");
  }

  /** The example's last three lines are step lines without blocks. */
  lemma ExampleSteps(c: Context)
    requires c.kw == English
    requires c.lines == ["Feature: F", "Scenario: S", "Given a", "When b", "Then c"]
    requires !c.blocks.nextLineIsForm(c.lines, 2) && !c.blocks.nextLineIsGrid(c.lines, 2)
    requires !c.blocks.nextLineIsForm(c.lines, 3) && !c.blocks.nextLineIsGrid(c.lines, 3)
    requires !c.blocks.nextLineIsForm(c.lines, 4) && !c.blocks.nextLineIsGrid(c.lines, 4)
    ensures NoHeaderNorBlock(c, 2) && NoHeaderNorBlock(c, 3) && NoHeaderNorBlock(c, 4)
    ensures Classify(c.kw, c.lines[2], Unknown) == Success(Given)
    ensures Classify(c.kw, c.lines[3], Given) == Success(When)
    ensures Classify(c.kw, c.lines[4], When) == Success(Then)
  {
    StepLines(c.lines[2], c.lines[3], c.lines[4]);
  }

  /** The three step lines of the example, classified. */
  lemma StepLines(givenLine: string, whenLine: string, thenLine: string)
    requires givenLine == "Given a" && whenLine == "When b" && thenLine == "Then c"
    ensures FeatureMatch("Feature", givenLine).None? && ScenarioMatch("Scenario", givenLine).None?
    ensures FeatureMatch("Feature", whenLine).None? && ScenarioMatch("Scenario", whenLine).None?
    ensures FeatureMatch("Feature", thenLine).None? && ScenarioMatch("Scenario", thenLine).None?
    ensures Classify(English, givenLine, Unknown) == Success(Given)
    ensures Classify(English, whenLine, Given) == Success(When)
    ensures Classify(English, thenLine, When) == Success(Then)
  {
    assert givenLine == "Given" + " " + "a" && whenLine == "When" + " " + "b" && thenLine == "Then" + " " + "c";
    StepRoundTrip("Given", "a");
    StepRoundTrip("When", "b");
    StepRoundTrip("Then", "c");
    OtherFirstLetter("Feature", givenLine);
    OtherFirstLetter("Scenario", givenLine);
    OtherFirstLetter("Feature", whenLine);
    OtherFirstLetter("Scenario", whenLine);
    OtherFirstLetter("Given", whenLine);
    OtherFirstLetter("Feature", thenLine);
    OtherFirstLetter("Scenario", thenLine);
    OtherFirstLetter("Given", thenLine);
    OtherFirstLetter("When", thenLine);
  }

  /** Line `i` is neither header and has no block after it. */
  predicate NoHeaderNorBlock(c: Context, i: nat) {
    && i < |c.lines|
    && FeatureMatch(c.kw.featureWord, c.lines[i]).None?
    && ScenarioMatch(c.kw.scenarioWord, c.lines[i]).None?
    && !c.blocks.nextLineIsForm(c.lines, i) && !c.blocks.nextLineIsGrid(c.lines, i)
  }

  /** A step line, without a block, inside the file's only scenario. */
  lemma StepTurn(c: Context, i: nat, r: ReaderState, t: StepType)
    requires NoHeaderNorBlock(c, i) && r.scenario == Some(0) && |r.contents.scenarios| == 1
    requires Classify(c.kw, c.lines[i], r.stepType) == Success(t)
    ensures var s := r.contents.scenarios[0];
            Run(c, i, r) == Run(c, i + 1, ReaderState(r.contents.(scenarios := [s.(steps := s.steps + [Step(t, c.lines[i], NoBlock)])]), Some(0), t))
  {
    var step := Step(t, c.lines[i], NoBlock);
    var s := r.contents.scenarios[0];
    var s' := s.(steps := s.steps + [step]);
    assert BlockAt(c, i) == (NoBlock, i);
    assert StepAt(c, i, c.lines[i], Some(0), r.stepType) == Success((t, step, i));
    assert AddToScenario(r.contents, 0, step) == r.contents.(scenarios := [s']) by {
      assert r.contents.scenarios[0 := s'] == [s'];
    }
    var r' := ReaderState(r.contents.(scenarios := [s']), Some(0), t);
    assert Visit(c, i, r) == Success((i, r'));
    RunContinues(c, i, r, i, r');
  }
}
