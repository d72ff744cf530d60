/** The inline type for enum parameters: one alternative per enum field,
    each the field's name split into words by the name parser and matched
    with any whitespace between the words. */
module EnumInlineType {
  import opened Ascii
  import opened Splitting
  import opened NameParser
  import opened InlineTypes

  /** `HandlesType`: every enum type, and nothing else; the pattern of a
      handled type is built from the enum's own fields. */
  predicate HandlesType(t: Type): (b: bool)
    ensures b ==> t.Enum? && !IsNullable(t) && PublicStaticFields(t) == t.fields
  {
    t.Enum?
  }

  /** The separator placed between the words of an alternative, `\s*`. */
  const AnySpace := "\\s*"

  /** The words of a field name: the name parsed without removing a prefix
      and without lower-casing, then `Split()` on whitespace. */
  function Words(fieldName: string): (r: seq<string>)
    ensures |r| >= 1 && NoneIn(r, Whitespace)
  {
    SplitAvoids(Parse(fieldName, false), Whitespace);
    Split(Parse(fieldName, false), Whitespace)
  }

  /** One field's sub-pattern, `(?:` the words joined by `\s*` `)`. It holds
      no character the field name lacks, other than spaces, the `\s*`
      separators and the parentheses around it. */
  function Alternative(fieldName: string): (r: string)
    ensures forall c :: c !in fieldName && c !in "(?:)\\s* " ==> c !in r
  {
    var r := "(?:" + Join(AnySpace, Words(fieldName)) + ")";
    assert forall c :: c !in fieldName && c !in "(?:)\\s* " ==> c !in r by {
      forall c | c !in fieldName && c !in "(?:)\\s* " ensures c !in r {
        SpacedAvoids(fieldName, c);
        SplitKeepsOut(Parse(fieldName, false), Whitespace, c);
        JoinAvoids(AnySpace, Words(fieldName), c);
      }
    }
    r
  }

  /** The alternatives of the fields, in field order. */
  function Alternatives(fields: seq<string>): (r: seq<string>)
    ensures |r| == |fields|
    ensures forall i :: 0 <= i < |fields| ==> r[i] == Alternative(fields[i])
  {
    seq(|fields|, i requires 0 <= i < |fields| => Alternative(fields[i]))
  }

  /** The pattern the fields give: one named group around the alternatives
      joined by `|`. */
  function Pattern(fields: seq<string>): string {
    Group(Join("|", Alternatives(fields)))
  }

  /** `GetPattern`: collects one sub-pattern per public static field, in
      order, then joins them into one named group. */
  method GetPattern(t: Type) returns (pattern: string)
    ensures pattern == Pattern(PublicStaticFields(t))
  {
    var subPatterns := SubPatterns(PublicStaticFields(t));
    pattern := "(?<{0}>" + Join("|", subPatterns) + ")";
  }

  /** The loop of `GetPattern` over the fields. */
  method SubPatterns(fields: seq<string>) returns (subPatterns: seq<string>)
    ensures subPatterns == Alternatives(fields)
  {
    subPatterns := [];
    for i := 0 to |fields|
      invariant |subPatterns| == i
      invariant forall j :: 0 <= j < i ==> subPatterns[j] == Alternative(fields[j])
    {
      var parsed := Parse(fields[i], false);
      subPatterns := subPatterns + ["(?:" + Join(AnySpace, Split(parsed, Whitespace)) + ")"];
    }
  }

  // Properties of the pattern.

  /** Splitting what is inside the group on `|` gives back one alternative
      per field, in field order, when no field name holds a `|`. */
  lemma AlternativesInFieldOrder(fields: seq<string>)
    requires fields != []
    requires forall i :: 0 <= i < |fields| ==> '|' !in fields[i]
    ensures Pattern(fields) == "(?<{0}>" + Join("|", Alternatives(fields)) + ")"
    ensures Split(Join("|", Alternatives(fields)), Bar) == Alternatives(fields)
  {
    var alts := Alternatives(fields);
    forall i, j | 0 <= i < |alts| && 0 <= j < |alts[i]| ensures !In(alts[i][j], Bar) {
      assert '|' !in Alternative(fields[i]);
    }
    JoinSplit(alts, Bar, '|');
  }

  /** With no `{` in any field name, the placeholder occurs once, at the
      start of the pattern. */
  lemma EnumPlaceholderOnce(fields: seq<string>)
    requires forall i :: 0 <= i < |fields| ==> '{' !in fields[i]
    ensures PlaceholderOnce(Pattern(fields))
  {
    var alts := Alternatives(fields);
    forall i | 0 <= i < |alts| ensures '{' !in alts[i] {
      assert '{' !in Alternative(fields[i]);
    }
    JoinAvoids("|", alts, '{');
    GroupPlaceholderOnce(Join("|", alts), "");
    assert Group(Join("|", alts)) + "" == Pattern(fields);
  }

  /** The words of an alternative, joined by single spaces, are the parsed
      name again, when the field name has no whitespace: the alternative
      matches the parsed name with `\s*` wherever it has a space. */
  lemma WordsRejoin(fieldName: string)
    requires forall i :: 0 <= i < |fieldName| ==> !IsWs(fieldName[i])
    ensures Join(" ", Words(fieldName)) == Parse(fieldName, false)
  {
    var parsed := Parse(fieldName, false);
    forall i | 0 <= i < |parsed| && In(parsed[i], Whitespace) ensures parsed[i] == ' ' {
      if parsed[i] != ' ' {
        assert parsed[i] !in fieldName by {
          forall j | 0 <= j < |fieldName| ensures fieldName[j] != parsed[i] { }
        }
        SpacedAvoids(fieldName, parsed[i]);
      }
    }
    SplitJoin(parsed, Whitespace, ' ');
  }

  /** The pattern of an enum whose one field is `GivenAUser`. */
  lemma PatternExample(fields: seq<string>)
    requires fields == ["GivenAUser"]
    ensures Pattern(fields) == "(?<{0}>" + "(?:Given\\s*A\\s*User)" + ")"
  {
    var a := "(?:Given\\s*A\\s*User)";
    assert Join("|", Alternatives(fields)) == a by {
      CamelFieldExample(fields[0]);
      assert Alternatives(fields) == [a];
    }
  }

  /** The words of a camel-case field keep their case and any leading step
      word: the enum field `GivenAUser` gives `(?:Given\s*A\s*User)`. */
  lemma CamelFieldExample(fieldName: string)
    requires fieldName == "GivenAUser"
    ensures Alternative(fieldName) == "(?:Given\\s*A\\s*User)"
  {
    var words := ["Given", "A", "User"];
    assert Words(fieldName) == words by {
      CamelExample(fieldName);
      SpacedWordsSplit(Parse(fieldName, false), words);
    }
    WordsWithAnySpace(words, Join(AnySpace, words));
  }

  /** Only enums are handled; a nullable enum is not an enum. */
  lemma HandlesOnlyEnums(fields: seq<string>)
    ensures HandlesType(Enum(fields))
    ensures !HandlesType(Int) && !HandlesType(Nullable(Enum(fields)))
  {
  }

  // Proof helpers.

  /** The three words joined by `\s*` and wrapped as a non-capturing group. */
  lemma WordsWithAnySpace(words: seq<string>, joined: string)
    requires words == ["Given", "A", "User"] && joined == Join(AnySpace, words)
    ensures "(?:" + joined + ")" == "(?:Given\\s*A\\s*User)"
  {
    JoinThree(AnySpace, "Given", "A", "User");
  }

  /** `Split()` on `Given A User` gives the three words. */
  lemma SpacedWordsSplit(spaced: string, words: seq<string>)
    requires spaced == "Given A User" && words == ["Given", "A", "User"]
    ensures Split(spaced, Whitespace) == words
  {
    assert Join(" ", words) == spaced by {
      JoinThree(" ", "Given", "A", "User");
    }
    assert NoneIn(words, Whitespace) by {
      forall i, j | 0 <= i < 3 && 0 <= j < |words[i]| ensures !In(words[i][j], Whitespace) {
        assert words[i] == "Given" || words[i] == "A" || words[i] == "User";
      }
    }
    JoinSplit(words, Whitespace, ' ');
  }
}
