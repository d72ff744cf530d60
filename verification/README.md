# BehaveN plain-text specification reader, in Dafny

BehaveN runs plain-text specifications: a feature header, scenarios, and
Given/When/Then/And steps, optionally followed by a form or grid block. It
binds each step to a method whose name reads like the step. This project
models the core of that pipeline and proves properties of it:

- **Text parsing** (`TextParser`, `text_parser.dfy`):
  - the `# language: xx` directive, with `en` as the default;
  - breaking the text into trimmed lines, minus blank lines and `#` comments.
- **Keyword patterns** (`KeywordPatterns`, `keyword_patterns.dfy`). The three
  regular expressions built per language are written as matchers:
  - the feature header;
  - the scenario header, with an optional scenario number;
  - the step line.

  Each language's keywords come from a table passed in as a map. A language
  missing from the table falls back to English.
- **The reader** (`PlainText`, `plain_text_reader.dfy`):
  - `PlainTextReader.ReadTo` walks the lines and fills a `SpecificationsFile`;
  - `ParseFeature` reads the feature's description up to the first scenario
    header;
  - `ParseStep` classifies a step, with `And` taking the type of the step
    before it, then attaches it to the current scenario;
  - `ParseBlock` decides whether a form or a grid follows the step.

  The imperative methods are proved against the functions `Visit`, `Run` and
  `Read`. The properties of those functions are in `ReaderProperties`
  (`reader_properties.dfy`).
- **Step collections** (`StepCollections`, `step_collection.dfy`): a class
  that appends steps and keeps them in order.
- **Name parsing** (`NameParser`, `name_parser.dfy`):
  - turning `Given_a_user` or `GivenAUser` into `Given a user` /
    `Given A User`;
  - optionally dropping the leading given/when/then word and lower-casing;
  - recognising step-definition method names.

  `Splitting` (`split.dfy`) holds `String.Split` on separator characters and
  its round trips with `String.Join`. `Ascii` (`ascii.dfy`) holds character
  classes, case folding, trimming and joining.
- **Inline types** (`InlineTypes`, `Int32InlineType`, `EnumInlineType`):
  - which parameter types each one handles;
  - the regular-expression fragment each one contributes: a named group with
    an optional ordinal suffix for `int`, and one alternative per field for
    enums;
  - for `int`, what the fragment captures from a whole token.

Modelling choices:

- Exceptions become `Result` or `Option` values.
- Blocks (forms and grids) are decided by oracle functions over the lines
  (`BlockOracles`). Their own parsing is outside the core.
- The regular-expression shapes are modelled by hand-written matchers and
  recognisers.
- The cursor arithmetic of the reader follows the code as written:
  - after a feature, the line that stopped the description is handled again by the loop, through the `line` and match passed back by reference;
  - a form spans `size` lines from the step line;
  - a grid spans `rows` lines after it.

## Model

| member | source | states |
|---|---|---|
| TextParser.DiscoverLanguage | BehaveN/TextParser.cs:37-46 | the language is the value of the first `# language:` directive anywhere in the text, non-empty and without whitespace; with no directive it is `en` |
| TextParser.FirstDirective | BehaveN/TextParser.cs:37-43 | finds the earliest position at which the directive pattern matches, and none is skipped |
| TextParser.NoDirectiveMeansEnglish | BehaveN/TextParser.cs:45 | a text without any `#` is read as English |
| TextParser.DirectiveAtPositions | BehaveN/TextParser.cs:37 | a `#`, optional spaces, `language` in any case, optional spaces, `:`, optional spaces and a run of non-whitespace match the directive, and the run is its value |
| TextParser.DirectiveOnFirstLine | BehaveN/TextParser.cs:37-43 | a first line `# language: ` followed by a code without whitespace selects that code, whatever text follows |
| TextParser.DiscoverLanguageExample | BehaveN/TextParser.cs:39-43 | `# language: fr` selects `fr` |
| TextParser.DiscoverLanguageDefaultExample | BehaveN/TextParser.cs:45 | a text with no directive selects `en` |
| TextParser.GetLines | BehaveN/TextParser.cs:48-68 | the loop yields exactly the trimmed lines of the text that are neither empty nor comments, in order |
| TextParser.ReadLine | BehaveN/TextParser.cs:56-58 | one `ReadLine` step advances past the line and returns a line without line breaks |
| TextParser.CleanIsOrderedFilter | BehaveN/TextParser.cs:56-73 | the result is the kept input lines, trimmed, in their original order, and a line is kept exactly when its trimmed form is non-empty and not a comment |
| TextParser.Lines | BehaveN/TextParser.cs:48-73 | every line produced is trimmed, non-empty, does not start with `#` and holds no line break, and there are never more lines out than lines in |
| TextParser.CleanExample | BehaveN/TextParser.cs:56-73 | of `# note`, an empty line and ` Given a `, only `Given a` is kept: the comment and the blank line are dropped and the step is trimmed |
| TextParser.SplitJoin | BehaveN/TextParser.cs:56-58 | lines without breaks joined by newlines are read back as the same lines |
| TextParser.CleanKeepsCleanLines | BehaveN/TextParser.cs:58-62 | filtering already-clean lines changes nothing |
| TextParser.GetLinesIdempotent | BehaveN/TextParser.cs:48-68 | reading the lines of the joined lines gives the same lines again |
| TextParser.LinesFromShift | BehaveN/TextParser.cs:56-64 | reading lines from inside a suffix does not depend on the prefix |
| KeywordPatterns.KeywordsFor | BehaveN/PlainTextReader.cs:144-175 | a language in the table gets its own keywords, a language missing from it gets the English ones, and a well-formed table gives well-formed keywords |
| KeywordPatterns.FeatureMatch | BehaveN/PlainTextReader.cs:184 | a matched feature name is non-empty and shorter than the line less the keyword, which the header must also hold |
| KeywordPatterns.ScenarioMatch | BehaveN/PlainTextReader.cs:185 | a matched scenario name is non-empty and shorter than the line less the keyword, which the header must also hold |
| KeywordPatterns.StepMatch | BehaveN/PlainTextReader.cs:186 | a step line is at least two characters longer than its keyword: the whitespace after it and at least one more character |
| KeywordPatterns.FeatureHeaderRoundTrip | BehaveN/PlainTextReader.cs:184-185 | `Keyword: name` is matched as a feature header and as a scenario header, and the captured name is `name` |
| KeywordPatterns.NumberedScenarioRoundTrip | BehaveN/PlainTextReader.cs:185 | `Keyword 12: name` is a scenario header with name `name`; the number is not part of the name |
| KeywordPatterns.FeatureShapeIsScenarioShape | BehaveN/PlainTextReader.cs:184-185 | whatever matches the feature pattern matches the scenario pattern with the same name |
| KeywordPatterns.FeatureNameIsSuffix | BehaveN/PlainTextReader.cs:184 | a feature line is leading whitespace, the keyword in any case at the keyword's position, whitespace, a colon, whitespace, then the name: a non-empty, trimmed suffix of the line |
| KeywordPatterns.ScenarioNameIsSuffix | BehaveN/PlainTextReader.cs:185 | a scenario line is leading whitespace, the keyword in any case, whitespace, a run of digits (possibly empty), whitespace, a colon, whitespace, then the name: a non-empty, trimmed suffix of the line |
| KeywordPatterns.StepShape | BehaveN/PlainTextReader.cs:186 | a step line is optional whitespace, the keyword in any case, then whitespace, then more text |
| KeywordPatterns.StepRoundTrip | BehaveN/PlainTextReader.cs:186 | `Keyword rest` is a step exactly when `rest` is non-empty |
| KeywordPatterns.StepMatchIgnoresCase | BehaveN/PlainTextReader.cs:186 | step matching is case-insensitive: lower-casing the line does not change the verdict |
| KeywordPatterns.ColonTailOfName | BehaveN/PlainTextReader.cs:184-185 | after the colon and any whitespace, the name is the rest of the line from its first non-whitespace character |
| StepCollections.StepCollection.constructor | BehaveN/StepCollection.cs:39 | a new collection is empty |
| StepCollections.StepCollection.Add | BehaveN/StepCollection.cs:47-54 | adding a type, text and block appends one step built from them; the count grows by one and earlier steps are unchanged |
| StepCollections.StepCollection.AddStep | BehaveN/StepCollection.cs:60-63 | a step is appended at the end; the count grows by one and earlier steps are unchanged |
| StepCollections.StepCollection.Count | BehaveN/StepCollection.cs:81 | the count is the number of steps held |
| StepCollections.StepCollection.Get | BehaveN/StepCollection.cs:69-75 | the indexer gives the step at a valid index and an error outside the range |
| StepCollections.StepCollection.Enumerate | BehaveN/StepCollection.cs:89-103 | enumeration yields every step once, in index order |
| StepCollections.AddInOrder | BehaveN/StepCollection.cs:47-75 | two additions to a new collection enumerate in insertion order, and index 2 is out of range |
| PlainText.BlockAt | BehaveN/PlainTextReader.cs:124-142 | a form starts on the next line and moves the cursor to the step line plus its size; a grid starts on the next line and moves the cursor past its rows; otherwise the cursor stays |
| PlainText.Classify | BehaveN/PlainTextReader.cs:94-114 | a classified step is never of unknown type |
| PlainText.StepAt | BehaveN/PlainTextReader.cs:92-122 | a parsed step never moves the cursor backwards |
| PlainText.ParseFeatureAt | BehaveN/PlainTextReader.cs:67-90 | the description scan always moves past the feature line and stays within the lines |
| PlainText.AddToScenario | BehaveN/PlainTextReader.cs:121 | adding a step keeps the feature and the number of scenarios |
| PlainText.Visit | BehaveN/PlainTextReader.cs:40-63 | handling one line never moves the cursor backwards and keeps the current scenario a valid index |
| PlainText.Run | BehaveN/PlainTextReader.cs:38-64 | the rest of the pass never leaves fewer scenarios than it started with |
| PlainText.Read | BehaveN/PlainTextReader.cs:29-65 | a whole read keeps at least the file's earlier scenarios, and a text without significant lines leaves the file as it was, without error |
| PlainText.RunContinues | BehaveN/PlainTextReader.cs:38-64 | after a line is handled, reading continues on the line after the cursor |
| PlainText.RunStops | BehaveN/PlainTextReader.cs:38-64 | an error on a line stops the reading with that error, keeping what was read so far |
| PlainText.PlainTextReader.constructor | BehaveN/PlainTextReader.cs:20-23 | the reader keeps its text, keyword table and block parsers |
| PlainText.PlainTextReader.CompileRegexes | BehaveN/PlainTextReader.cs:144-175 | the keywords in use are those of the text's declared language, with English as the fallback |
| PlainText.PlainTextReader.ReadTo | BehaveN/PlainTextReader.cs:29-65 | the file after reading, and the error if one was raised, are exactly what the line-by-line specification `Read` gives from the file before |
| PlainText.PlainTextReader.ParseLine | BehaveN/PlainTextReader.cs:40-63 | one turn of the loop does to the file, cursor, scenario and step type what `Visit` says |
| PlainText.PlainTextReader.ParseFeature | BehaveN/PlainTextReader.cs:67-90 | the feature gets the header's name and the description up to the first scenario header, the cursor moves as `ParseFeatureAt` says, and the scenarios are unchanged |
| PlainText.PlainTextReader.ParseStep | BehaveN/PlainTextReader.cs:92-122 | the step is classified, refused with no current scenario, and otherwise appended to the current scenario with its block; the feature is unchanged |
| PlainText.PlainTextReader.ParseBlock | BehaveN/PlainTextReader.cs:124-142 | the block and the new cursor are those of `BlockAt` |
| ReaderProperties.ScenarioHeaderFromIsFirst | BehaveN/PlainTextReader.cs:74-86 | the description scan stops at the first scenario header, or at the end |
| ReaderProperties.ScenarioHeaderFromFinds | BehaveN/PlainTextReader.cs:74-86 | the first scenario header after the feature line is where the scan stops |
| ReaderProperties.ScenarioHeaderOpensScenario | BehaveN/PlainTextReader.cs:50-59 | a scenario header appends an empty scenario with that name, makes it current and resets the step type to unknown |
| ReaderProperties.ConcreteKeywordsSetType | BehaveN/PlainTextReader.cs:94-105 | Given, When and Then lines, tried in that order, set the step type to that keyword |
| ReaderProperties.AndKeepsType | BehaveN/PlainTextReader.cs:106-110 | an And line takes the previous step's type, and is an error before any concrete step |
| ReaderProperties.UnrecognizedComesFirst | BehaveN/PlainTextReader.cs:94-117 | a line that matches no step keyword is an unrecognised-step error with that line, whether or not a scenario is open; any classification error is reported before the missing scenario; a classified step with no scenario open is a step-before-scenario error |
| ReaderProperties.UnrecognizedLineStops | BehaveN/PlainTextReader.cs:40-117 | a line that is no header and matches no step keyword stops the whole read with an unrecognised-step error naming it, leaving the file as it was |
| ReaderProperties.StepGoesToCurrentScenario | BehaveN/PlainTextReader.cs:116-121 | a recognised step inside a scenario is appended to that scenario and becomes the step type in force |
| ReaderProperties.FeatureThenScenario | BehaveN/PlainTextReader.cs:42-47 | a feature header followed by a scenario header sets the feature's name and description, and the scenario header is read next |
| ReaderProperties.FeatureOnLastLine | BehaveN/PlainTextReader.cs:67-90 | a feature header on the last line gives a feature with an empty description, and its own match, passed back by reference, opens a scenario named after the feature |
| ReaderProperties.DescriptionToEnd | BehaveN/PlainTextReader.cs:74-90 | with no scenario header after the feature, the description takes every remaining line, the last one included, and that last line is then read again as a step |
| ReaderProperties.DescriptionToEndFails | BehaveN/PlainTextReader.cs:74-117 | in that case a last line that is no step makes the whole read fail with an unrecognised step |
| ReaderProperties.FormBeforeGrid | BehaveN/PlainTextReader.cs:124-141 | a form is preferred to a grid, and a step with neither has no block |
| ReaderProperties.VisitKeepsExtends | BehaveN/PlainTextReader.cs:40-63 | handling a line never alters a scenario that was already in the file, and every added step has a known type and comes from the text |
| ReaderProperties.RunExtends | BehaveN/PlainTextReader.cs:38-64 | the same holds for the whole loop |
| ReaderProperties.PassKeepsEarlierScenarios | BehaveN/PlainTextReader.cs:29-65 | reading into a file keeps its earlier scenarios unchanged, whether the read succeeds or fails |
| ReaderProperties.ThreeStepPass | BehaveN/PlainTextReader.cs:29-121 | a feature header, a scenario header and three classified step lines without blocks read into one feature with an empty description and one scenario holding the three steps in order, without error |
| ReaderProperties.WholePassExample | BehaveN/PlainTextReader.cs:29-121 | `Feature: F`, `Scenario: S`, `Given a`, `When b`, `Then c` read into feature `F` and scenario `S` with a Given, a When and a Then step, without error |
| NameParser.ParseName | BehaveN/NameParser.cs:42-47 | a missing name is an error, and a present name is parsed without removing a prefix |
| NameParser.ParseMethod | BehaveN/NameParser.cs:55-74 | parsing a method's name gives the same result as parsing the name as a string |
| NameParser.ParseMethodDefault | BehaveN/NameParser.cs:32-35 | parsing a method removes the step word by default |
| NameParser.StepWord | BehaveN/NameParser.cs:12 | the step-word length is 5 exactly when the name starts with the word `Given`, 4 exactly when it starts with `When` or `Then`, and 0 otherwise |
| NameParser.IsStepDefinition | BehaveN/NameParser.cs:12-25 | a name is a step definition exactly when it starts with `Given`, `given`, `When`, `when`, `Then` or `then` followed by `_` or a capital letter |
| NameParser.Spaced | BehaveN/NameParser.cs:86-93 | splitting on underscores or before capitals and joining with spaces leaves no underscore |
| NameParser.Parse | BehaveN/NameParser.cs:82-100 | without prefix removal the result is the spaced name; with it, the result is lower-case and no longer than the spaced name; either way it holds no underscore |
| NameParser.RemovePrefix | BehaveN/NameParser.cs:15 | removing the step word leaves a suffix of the text |
| NameParser.GlueSplits | BehaveN/NameParser.cs:13 | splitting on runs of underscores gives back the words, whatever the run lengths |
| NameParser.UnderscoreNameParses | BehaveN/NameParser.cs:86-89 | a name made of words joined by underscore runs, with any leading or trailing underscores, parses to the words joined by single spaces |
| NameParser.CamelNameParses | BehaveN/NameParser.cs:90-93 | a name without underscores parses to itself with a space before every capital letter except the first character |
| NameParser.CamelRoundTrip | BehaveN/NameParser.cs:90-93 | taking the spaces back out of a parsed camel-case name gives the name again |
| NameParser.SpacedAvoids | BehaveN/NameParser.cs:86-93 | parsing adds no character other than spaces |
| NameParser.RemovePrefixCases | BehaveN/NameParser.cs:15 | a leading `given `, `when ` or `then `, in any case, is cut off; the text is left unchanged exactly when none of them starts it |
| NameParser.RemovePrefixDropsWord | BehaveN/NameParser.cs:95-98 | a step word that `StepWord` recognises (`Given`, `When` or `Then`, first letter in either case), followed by a space, is removed with the space; every other casing is covered by `RemovePrefixCases` |
| NameParser.CamelStepDefinitionDropsWord | BehaveN/NameParser.cs:82-98 | for a camel-case step definition, removing the prefix is parsing what follows the step word, lower-cased |
| NameParser.UnderscoreStepDefinitionDropsWord | BehaveN/NameParser.cs:82-98 | a step word, underscores and words form a step definition whose prefixed parse is the words, joined by spaces and lower-cased |
| NameParser.UnderscoreExample | BehaveN/NameParser.cs:86-89 | `Given_a_user` parses to `Given a user` |
| NameParser.UnderscorePrefixExample | BehaveN/NameParser.cs:86-98 | `When_it_runs` with prefix removal parses to `it runs` |
| NameParser.CamelExample | BehaveN/NameParser.cs:90-93 | `GivenAUser` parses to `Given A User` |
| NameParser.CamelPrefixExample | BehaveN/NameParser.cs:90-98 | `GivenAUser` with prefix removal parses to `a user` |
| NameParser.RemovePrefixExample | BehaveN/NameParser.cs:15 | `GIVEN x` loses its step word, and `Whenever x`, where no space follows the word, is unchanged |
| NameParser.StepDefinitionExamples | BehaveN/NameParser.cs:12-25 | `GivenAUser` and `then_it_works` are step definitions; `Givenup`, `When` and `Setup` are not |
| Splitting.Split | BehaveN/EnumInlineType.cs:21 | a split gives one piece more than the string has separators |
| Splitting.SplitJoin | BehaveN/EnumInlineType.cs:21 | when all the separators in a string are one character, joining the pieces with it gives the string back |
| Splitting.JoinSplit | BehaveN/EnumInlineType.cs:21-24 | splitting parts joined by a separator gives the parts back when no part holds a separator |
| Splitting.SplitAvoids | BehaveN/EnumInlineType.cs:21 | no piece of a split holds a separator |
| Splitting.SplitKeepsOut | BehaveN/EnumInlineType.cs:21 | a split brings in no character the string does not hold |
| InlineTypes.GroupPlaceholderOnce | BehaveN/Int32InlineType.cs:43-45 | the named group's `{0}` placeholder is the only `{` in the pattern when the capture has none |
| Int32InlineType.HandlesType | BehaveN/Int32InlineType.cs:35-38 | a handled type is not nullable, and its pattern is the named number group followed by the optional ordinal suffix |
| Int32InlineType.GetPattern | BehaveN/Int32InlineType.cs:40-46 | the pattern has exactly one placeholder, at the group's name, and ends with the optional ordinal suffix |
| Int32InlineType.Capture | BehaveN/Int32InlineType.cs:43-45 | a matched token is a capture followed by an optional ordinal suffix, and the value is the capture |
| Int32InlineType.CaptureComplete | BehaveN/Int32InlineType.cs:43-45 | every number, or `null` when nullable, followed by `st`, `nd`, `rd`, `th` or nothing, is matched with exactly that capture |
| Int32InlineType.CaptureRejects | BehaveN/Int32InlineType.cs:43-45 | a token that does not match cannot be split into a capture and a suffix |
| Int32InlineType.NullableOnlyAddsNull | BehaveN/Int32InlineType.cs:42-45 | the nullable pattern accepts what the plain one does, with the same capture, and only `null` besides |
| Int32InlineType.HandlesOnlyInt | BehaveN/Int32InlineType.cs:35-38 | `int` is handled and `int?` is not, so a handled type always gets the pattern without `null` |
| Int32InlineType.OrdinalExamples | BehaveN/Int32InlineType.cs:45 | `3rd` captures `3`, and `42nd` captures `42` |
| Int32InlineType.NegativeExample | BehaveN/Int32InlineType.cs:45 | `-12` captures `-12` |
| Int32InlineType.NullExamples | BehaveN/Int32InlineType.cs:43-45 | `null` is refused for `int` and captured for `int?` |
| EnumInlineType.HandlesType | BehaveN/EnumInlineType.cs:9-12 | a handled type is a non-nullable enum, and its pattern is built from its own fields |
| EnumInlineType.Alternative | BehaveN/EnumInlineType.cs:20-21 | a field's sub-pattern holds no character the field name lacks, other than the parentheses, `?:`, `\s*` and spaces |
| EnumInlineType.Alternatives | BehaveN/EnumInlineType.cs:16-22 | there is one sub-pattern per field, in field order |
| EnumInlineType.GetPattern | BehaveN/EnumInlineType.cs:14-25 | the pattern is one named group around the fields' alternatives, in field order, joined by `|` |
| EnumInlineType.SubPatterns | BehaveN/EnumInlineType.cs:16-22 | the loop yields one sub-pattern per field, in order: the field's parsed words joined by `\s*` |
| EnumInlineType.Words | BehaveN/EnumInlineType.cs:20-21 | a field name gives at least one word, and no word holds whitespace |
| EnumInlineType.AlternativesInFieldOrder | BehaveN/EnumInlineType.cs:16-24 | splitting the group's body on `|` gives back one alternative per field, in field order, when no field name holds a `|` |
| EnumInlineType.EnumPlaceholderOnce | BehaveN/EnumInlineType.cs:24 | with no `{` in the field names, the placeholder occurs once, in the group's name |
| EnumInlineType.WordsRejoin | BehaveN/EnumInlineType.cs:20-21 | the words of an alternative, joined by spaces, are the field's parsed name again |
| EnumInlineType.PatternExample | BehaveN/EnumInlineType.cs:14-25 | an enum whose one field is `GivenAUser` gets the named group around `(?:Given\s*A\s*User)` |
| EnumInlineType.CamelFieldExample | BehaveN/EnumInlineType.cs:20-21 | the field `GivenAUser` gives `(?:Given\s*A\s*User)` |
| EnumInlineType.HandlesOnlyEnums | BehaveN/EnumInlineType.cs:9-12 | enums are handled; `int` and nullable enums are not |

## Left out

- Character classes are ASCII. `char.IsWhiteSpace`, `ToLowerInvariant` and culture-aware case-insensitive matching are modelled on ASCII letters and on space, tab, CR, LF, vertical tab and form feed. Non-ASCII letters and spaces are not modelled.
- The regex `.` in the header patterns is taken to match any character of a line. Lines never hold line breaks, so this agrees with the engine on the lines the reader sees.
- KeywordPatterns.FeatureMatch, KeywordPatterns.ScenarioMatch and KeywordPatterns.StepMatch treat a keyword as literal text. A keyword holding regular-expression metacharacters is not modelled. The round-trip lemmas require well-formed keywords: non-empty, with a first character that is not whitespace.
- Culture lookup and the resource manager are a map from language name to keywords. The culture-not-found exception becomes the English fallback, which is what the code does with it.
- Scenarios are values holding a sequence of steps, not `StepCollection` objects. Appending to the current scenario is an update of the file's scenario list at its index. The `StepCollection` class is modelled on its own.
- PlainText.PlainTextReader.ParseLine is not a method of the code. It is the body of the `ReadTo` loop, split out so that the loop's invariant is one call.
- Thrown exceptions (`InvalidOperationException`, `ArgumentNullException`, out-of-range indexing) become `Result` or `Option` values. The messages are not modelled.
- Form and grid parsing (`FormBlock`, `GridBlock`) are not part of this model. Whether a form or grid follows, and its size, are oracle functions of the lines.
- The regular-expression engine is not interpreted. The inline types' patterns are modelled as strings. `Int32InlineType.Capture` is a recogniser of what the `int` pattern matches in a whole token. The matching semantics of the enum pattern's `\s*` separators are not modelled.
- Reflection (`MethodInfo`, `Type.GetFields`) becomes plain data: a method's name, and a type's public static field names in declaration order. `int` has the public static fields `MaxValue` and `MinValue`.
- NameParser.IsStepDefinition is modelled on the method's name, which is all the code looks at.
- `SpecificationsFile` is not part of this model beyond its feature and its list of scenarios.
- The inline-type registry, the code generator, step execution, reporting and file I/O are not part of this model.
- NameParser.UnderscorePrefixExample uses the short name `When_it_runs`, to keep the proof small.
