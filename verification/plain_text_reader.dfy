/** The plain-text specification reader: one forward pass over the cleaned
    lines with a cursor `i`, the scenario being filled and the current step
    type. The pure functions below define the pass line by line; the class
    `PlainTextReader` performs it in place and is proved to agree with them. */
module PlainText {
  import opened Wrappers
  import opened Ascii
  import opened TextParser
  import opened KeywordPatterns
  import opened StepCollections

  datatype Feature = Feature(name: string, description: string)

  datatype Scenario = Scenario(name: string, steps: seq<Step>)

  /** The three failures the reader raises. */
  datatype ParseError =
    | AndBeforeConcreteStep        // an "And" before any Given, When or Then
    | UnrecognizedStep(line: string)
    | StepBeforeScenario

  /** Block recognition, supplied from outside: whether a form (or a grid)
      follows the line at an index, and the size of the form (the row count
      of the grid) that starts at an index. */
  datatype BlockOracles = BlockOracles(
    nextLineIsForm: (seq<string>, nat) -> bool,
    formSize: (seq<string>, nat) -> nat,
    nextLineIsGrid: (seq<string>, nat) -> bool,
    gridRowCount: (seq<string>, nat) -> nat)

  /** What a pass reads: the cleaned lines, the keywords of the language and
      the block oracles. */
  datatype Context = Context(lines: seq<string>, kw: Keywords, blocks: BlockOracles)

  /** What a pass writes: the specifications file's feature and scenarios. */
  datatype Contents = Contents(feature: Option<Feature>, scenarios: seq<Scenario>)

  /** The pass's state between lines: the file, the scenario steps go to (an
      index into the file's scenarios; `None` before the first header) and
      the current step type. */
  datatype ReaderState = ReaderState(contents: Contents, scenario: Option<nat>, stepType: StepType)

  predicate ValidState(r: ReaderState) {
    r.scenario.Some? ==> r.scenario.value < |r.contents.scenarios|
  }

  /** How a pass ends: the file as left, and the error that stopped it. */
  datatype Outcome = Outcome(contents: Contents, error: Option<ParseError>)

  /** `ParseBlock` at the step on line `i`: the block that follows, and the
      cursor moved onto the block's last line. A form is tried first. */
  function BlockAt(c: Context, i: nat): (r: (Block, nat))
    ensures i <= r.1
    ensures r.0.Form? ==> r.1 == i + r.0.size && r.0.first == i + 1
    ensures r.0.Grid? ==> r.1 == i + 1 + r.0.rowCount && r.0.first == i + 1
    ensures r.0.NoBlock? ==> r.1 == i
  {
    if c.blocks.nextLineIsForm(c.lines, i) then
      var size := c.blocks.formSize(c.lines, i + 1);
      (Form(i + 1, size), i + 1 + size - 1)
    else if c.blocks.nextLineIsGrid(c.lines, i) then
      var rows := c.blocks.gridRowCount(c.lines, i + 1);
      (Grid(i + 1, rows), i + 1 + rows)
    else (NoBlock, i)
  }

  /** The step type a line gives, tried in the order Given, When, Then, And. */
  function Classify(kw: Keywords, line: string, current: StepType): (r: Result<StepType, ParseError>)
    ensures r.Success? ==> r.value != Unknown
  {
    if StepMatch(kw.givenWord, line) then Success(Given)
    else if StepMatch(kw.whenWord, line) then Success(When)
    else if StepMatch(kw.thenWord, line) then Success(Then)
    else if StepMatch(kw.andWord, line) then
      if current == Unknown then Failure(AndBeforeConcreteStep) else Success(current)
    else Failure(UnrecognizedStep(line))
  }

  /** `ParseStep` at line `i` reading `line`: the new step type, the step to
      append and the cursor after its block. */
  function StepAt(c: Context, i: nat, line: string, scenario: Option<nat>, current: StepType)
    : (r: Result<(StepType, Step, nat), ParseError>)
    ensures r.Success? ==> i <= r.value.2
  {
    match Classify(c.kw, line, current)
    case Failure(e) => Failure(e)
    case Success(t) =>
      if scenario.None? then Failure(StepBeforeScenario)
      else
        var b := BlockAt(c, i);
        Success((t, Step(t, line, b.0), b.1))
  }

  /** The index of the first scenario header at or after `from`, or the
      number of lines when there is none. */
  function ScenarioHeaderFrom(c: Context, from: nat): (j: nat)
    requires from <= |c.lines|
    ensures from <= j <= |c.lines|
    decreases |c.lines| - from
  {
    if from == |c.lines| || ScenarioMatch(c.kw.scenarioWord, c.lines[from]).Some? then from
    else ScenarioHeaderFrom(c, from + 1)
  }

  /** The description lines joined by CR LF, with line breaks trimmed off
      both ends. */
  function Description(lines: seq<string>): string {
    TrimBy(Join("\r\n", lines), LineBreak)
  }

  /** What `ParseFeature` leaves behind: the feature, the returned cursor,
      and the `line` and match it passes back by reference. */
  datatype FeatureScan = FeatureScan(feature: Feature, next: nat, line: string, header: Option<string>)

  /** `ParseFeature` on the feature header at line `i`, named `name`. */
  function ParseFeatureAt(c: Context, i: nat, name: string): (s: FeatureScan)
    requires i < |c.lines|
    ensures i < s.next <= |c.lines|
  {
    var j := ScenarioHeaderFrom(c, i + 1);
    var f := Feature(name, Description(c.lines[i + 1..j]));
    if j < |c.lines| then FeatureScan(f, j, c.lines[j], ScenarioMatch(c.kw.scenarioWord, c.lines[j]))
    else if j > i + 1 then FeatureScan(f, j, c.lines[j - 1], ScenarioMatch(c.kw.scenarioWord, c.lines[j - 1]))
    else FeatureScan(f, j, c.lines[i], Some(name))
  }

  /** Appends `step` to scenario `index`. */
  function AddToScenario(d: Contents, index: nat, step: Step): (r: Contents)
    requires index < |d.scenarios|
    ensures r.feature == d.feature && |r.scenarios| == |d.scenarios|
  {
    var s := d.scenarios[index];
    d.(scenarios := d.scenarios[index := s.(steps := s.steps + [step])])
  }

  /** One turn of the loop in `ReadTo`, at line `i`: the cursor before the
      loop's increment and the new state, or the file as it stands when an
      error is raised together with the error. */
  function Visit(c: Context, i: nat, r: ReaderState): (out: Result<(nat, ReaderState), (Contents, ParseError)>)
    requires i < |c.lines| && ValidState(r)
    ensures out.Success? ==> i <= out.value.0 && ValidState(out.value.1)
  {
    var fm := FeatureMatch(c.kw.featureWord, c.lines[i]);
    var scan := if fm.Some? then ParseFeatureAt(c, i, fm.value)
                else FeatureScan(Feature([], []), i, c.lines[i], ScenarioMatch(c.kw.scenarioWord, c.lines[i]));
    var d := if fm.Some? then r.contents.(feature := Some(scan.feature)) else r.contents;
    if scan.header.Some? then
      Success((scan.next, ReaderState(d.(scenarios := d.scenarios + [Scenario(scan.header.value, [])]),
                                      Some(|d.scenarios|), Unknown)))
    else
      match StepAt(c, scan.next, scan.line, r.scenario, r.stepType)
      case Failure(e) => Failure((d, e))
      case Success(st) => Success((st.2, ReaderState(AddToScenario(d, r.scenario.value, st.1), r.scenario, st.0)))
  }

  /** The rest of the pass from line `i`: scenarios are only ever added. */
  function Run(c: Context, i: nat, r: ReaderState): (o: Outcome)
    requires ValidState(r)
    ensures |r.contents.scenarios| <= |o.contents.scenarios|
    decreases |c.lines| - i
  {
    if i >= |c.lines| then Outcome(r.contents, None)
    else
      VisitGrows(c, i, r);
      match Visit(c, i, r)
      case Failure(fail) => Outcome(fail.0, Some(fail.1))
      case Success(next) => Run(c, next.0 + 1, next.1)
  }

  /** After a turn that succeeds, the pass goes on at the next line. */
  lemma RunContinues(c: Context, i: nat, r: ReaderState, next: nat, r': ReaderState)
    requires i < |c.lines| && ValidState(r)
    requires Visit(c, i, r) == Success((next, r'))
    ensures ValidState(r') && Run(c, i, r) == Run(c, next + 1, r')
  {
    assert ValidState(r');
  }

  /** A turn that fails ends the pass with the file as it was left. */
  lemma RunStops(c: Context, i: nat, r: ReaderState, d: Contents, e: ParseError)
    requires i < |c.lines| && ValidState(r)
    requires Visit(c, i, r) == Failure((d, e))
    ensures Run(c, i, r) == Outcome(d, Some(e))
  {
  }

  /** The whole of `ReadTo` on `text` into a file holding `initial`: the
      file keeps at least the scenarios it had, and a text without
      significant lines leaves it as it was, without error. */
  function Read(text: string, table: map<string, Keywords>, blocks: BlockOracles, initial: Contents): (o: Outcome)
    ensures |initial.scenarios| <= |o.contents.scenarios|
    ensures Lines(text) == [] ==> o == Outcome(initial, None)
  {
    var c := Context(Lines(text), KeywordsFor(table, DiscoverLanguage(text)), blocks);
    Run(c, 0, ReaderState(initial, None, Unknown))
  }

  /** The file the reader fills. */
  class SpecificationsFile {
    var feature: Option<Feature>
    var scenarios: seq<Scenario>

    constructor()
      ensures feature == None && scenarios == []
    {
      feature := None;
      scenarios := [];
    }

    function Snapshot(): Contents
      reads this
    {
      Contents(feature, scenarios)
    }
  }

  class PlainTextReader {
    const text: string
    const table: map<string, Keywords>
    const blocks: BlockOracles
    /** The keywords the patterns are compiled from. */
    var keywords: Keywords

    constructor(text: string, table: map<string, Keywords>, blocks: BlockOracles)
      ensures this.text == text && this.table == table && this.blocks == blocks
    {
      this.text := text;
      this.table := table;
      this.blocks := blocks;
    }

    /** Looks up the keywords of the language the text declares. */
    method CompileRegexes()
      modifies this
      ensures keywords == KeywordsFor(table, DiscoverLanguage(text))
    {
      var language := DiscoverLanguage(text);
      keywords := KeywordsFor(table, language);
    }

    /** Reads the text into `file`; returns the error that stops the pass,
        leaving in `file` what was read up to it. */
    method ReadTo(file: SpecificationsFile) returns (error: Option<ParseError>)
      modifies this, file
      ensures keywords == KeywordsFor(table, DiscoverLanguage(text))
      ensures Outcome(file.Snapshot(), error) == Read(text, table, blocks, old(file.Snapshot()))
    {
      CompileRegexes();
      var lines := GetLines(text);
      var c := Context(lines, keywords, blocks);
      ghost var start := ReaderState(file.Snapshot(), None, Unknown);
      var scenario: Option<nat> := None;
      var stepType := Unknown;
      var i: nat := 0;
      while i < |lines|
        modifies file
        invariant ValidState(ReaderState(file.Snapshot(), scenario, stepType))
        invariant Run(c, i, ReaderState(file.Snapshot(), scenario, stepType)) == Run(c, 0, start)
        decreases |lines| - i
      {
        ghost var before := ReaderState(file.Snapshot(), scenario, stepType);
        ghost var here := i;
        var failure: Option<ParseError>;
        failure, i, scenario, stepType := ParseLine(lines, i, scenario, stepType, file);
        if failure.Some? {
          RunStops(c, here, before, file.Snapshot(), failure.value);
          return failure;
        }
        RunContinues(c, here, before, i, ReaderState(file.Snapshot(), scenario, stepType));
        i := i + 1;
      }
      error := None;
    }

    /** One turn of the loop in `ReadTo`, at line `i`: the line is tried as
        a feature header, then as a scenario header, then as a step. */
    method ParseLine(lines: seq<string>, i: nat, scenario: Option<nat>, stepType: StepType,
                     file: SpecificationsFile)
      returns (failure: Option<ParseError>, next: nat, newScenario: Option<nat>, newType: StepType)
      requires i < |lines| && ValidState(ReaderState(file.Snapshot(), scenario, stepType))
      modifies file
      ensures match Visit(Context(lines, keywords, blocks), i, ReaderState(old(file.Snapshot()), scenario, stepType))
              case Failure(f) => failure == Some(f.1) && file.Snapshot() == f.0
              case Success(v) => failure.None? && next == v.0 && ReaderState(file.Snapshot(), newScenario, newType) == v.1
    {
      next, newScenario, newType := i, scenario, stepType;
      var line := lines[i];
      var m := FeatureMatch(keywords.featureWord, line);
      if m.Some? {
        next, line, m := ParseFeature(lines, i, line, m, file);
      } else {
        m := ScenarioMatch(keywords.scenarioWord, line);
      }
      if m.Some? {
        newScenario := Some(|file.scenarios|);
        file.scenarios := file.scenarios + [Scenario(m.value, [])];
        newType := Unknown;
        failure := None;
      } else {
        failure, newType, next := ParseStep(lines, scenario, stepType, next, line, file);
      }
    }

    /** Records the feature named `m` whose header is line `i`, collects its
        description up to the next scenario header, and returns the cursor
        together with the last line read and its scenario match. */
    method ParseFeature(lines: seq<string>, i: nat, line: string, m: Option<string>, file: SpecificationsFile)
      returns (next: nat, lastLine: string, header: Option<string>)
      requires i < |lines| && m.Some? && line == lines[i]
      modifies file
      ensures var s := ParseFeatureAt(Context(lines, keywords, blocks), i, m.value);
              && next == s.next && lastLine == s.line && header == s.header
              && file.feature == Some(s.feature)
      ensures file.scenarios == old(file.scenarios)
    {
      ghost var c := Context(lines, keywords, blocks);
      var scenarioWord := keywords.scenarioWord;
      file.feature := Some(Feature(m.value, []));
      var featureLines: seq<string> := [];
      lastLine, header := line, m;
      next := i + 1;
      while next < |lines|
        invariant i + 1 <= next <= |lines|
        invariant featureLines == lines[i + 1..next]
        invariant ScenarioHeaderFrom(c, i + 1) == ScenarioHeaderFrom(c, next)
        invariant next == i + 1 ==> lastLine == line && header == m
        invariant next > i + 1 ==> lastLine == lines[next - 1] && header == ScenarioMatch(scenarioWord, lastLine)
        modifies {}
        decreases |lines| - next
      {
        lastLine := lines[next];
        header := ScenarioMatch(scenarioWord, lastLine);
        if header.Some? {
          break;
        }
        ScanContinues(c, i, next, featureLines, lastLine);
        featureLines := featureLines + [lastLine];
        next := next + 1;
      }
      file.feature := Some(Feature(m.value, Description(featureLines)));
      FeatureScanEnds(c, i, m.value, next, lastLine, header);
    }

    /** Classifies `line`, the step at line `i`, and appends it with its
        block to the current scenario. */
    method ParseStep(lines: seq<string>, scenario: Option<nat>, stepType: StepType, i: nat, line: string,
                     file: SpecificationsFile)
      returns (failure: Option<ParseError>, newType: StepType, next: nat)
      requires scenario.Some? ==> scenario.value < |file.scenarios|
      modifies file
      ensures file.feature == old(file.feature)
      ensures match StepAt(Context(lines, keywords, blocks), i, line, scenario, stepType)
              case Failure(e) => failure == Some(e) && file.scenarios == old(file.scenarios)
              case Success(st) =>
                && failure.None? && newType == st.0 && next == st.2
                && file.Snapshot() == AddToScenario(old(file.Snapshot()), scenario.value, st.1)
    {
      newType, next := stepType, i;
      if StepMatch(keywords.givenWord, line) {
        newType := Given;
      } else if StepMatch(keywords.whenWord, line) {
        newType := When;
      } else if StepMatch(keywords.thenWord, line) {
        newType := Then;
      } else if StepMatch(keywords.andWord, line) {
        if stepType == Unknown {
          return Some(AndBeforeConcreteStep), newType, next;
        }
      } else {
        return Some(UnrecognizedStep(line)), newType, next;
      }
      if scenario.None? {
        return Some(StepBeforeScenario), newType, next;
      }
      var block;
      block, next := ParseBlock(lines, i);
      var s := file.scenarios[scenario.value];
      file.scenarios := file.scenarios[scenario.value := s.(steps := s.steps + [Step(newType, line, block)])];
      failure := None;
    }

    /** Parses the form or grid that follows line `i`, if any, and moves the
        cursor onto its last line. */
    method ParseBlock(lines: seq<string>, i: nat) returns (block: Block, next: nat)
      ensures (block, next) == BlockAt(Context(lines, keywords, blocks), i)
    {
      block, next := NoBlock, i;
      if blocks.nextLineIsForm(lines, i) {
        next := next + 1;
        var size := blocks.formSize(lines, next);
        next := next + size - 1;
        block := Form(i + 1, size);
      } else if blocks.nextLineIsGrid(lines, i) {
        next := next + 1;
        var rows := blocks.gridRowCount(lines, next);
        next := next + rows;
        block := Grid(i + 1, rows);
      }
    }
  }

  // Proof helpers.

  /** A line that is no scenario header is passed over and joins the
      description read so far. */
  lemma ScanContinues(c: Context, i: nat, next: nat, featureLines: seq<string>, line: string)
    requires i + 1 <= next < |c.lines| && featureLines == c.lines[i + 1..next] && line == c.lines[next]
    requires ScenarioMatch(c.kw.scenarioWord, line).None?
    ensures featureLines + [line] == c.lines[i + 1..next + 1]
    ensures ScenarioHeaderFrom(c, next) == ScenarioHeaderFrom(c, next + 1)
  {
  }

  /** Where the scan of a feature ends, read from where its loop stops: at
      the first scenario header after the feature header, or at the end. */
  lemma FeatureScanEnds(c: Context, i: nat, name: string, next: nat, lastLine: string, header: Option<string>)
    requires i < next <= |c.lines| && ScenarioHeaderFrom(c, i + 1) == ScenarioHeaderFrom(c, next)
    requires next < |c.lines| ==>
               lastLine == c.lines[next] && header.Some? && header == ScenarioMatch(c.kw.scenarioWord, lastLine)
    requires next == i + 1 == |c.lines| ==> lastLine == c.lines[i] && header == Some(name)
    requires i + 1 < next == |c.lines| ==>
               lastLine == c.lines[next - 1] && header == ScenarioMatch(c.kw.scenarioWord, lastLine)
    ensures var s := ParseFeatureAt(c, i, name);
            && s.next == next && s.line == lastLine && s.header == header
            && s.feature == Feature(name, Description(c.lines[i + 1..next]))
  {
  }

  /** A turn never removes a scenario, and a turn that fails adds none. */
  lemma VisitGrows(c: Context, i: nat, r: ReaderState)
    requires i < |c.lines| && ValidState(r)
    ensures Visit(c, i, r).Success? ==> |r.contents.scenarios| <= |Visit(c, i, r).value.1.contents.scenarios|
    ensures Visit(c, i, r).Failure? ==> Visit(c, i, r).error.0.scenarios == r.contents.scenarios
  {
  }
}
