/** The types step parameters can have, as the inline types see them, and
    what every inline type's pattern shares: one named group whose name is
    the `{0}` placeholder, filled in later by `String.Format`. */
module InlineTypes {
  /** A parameter type: `int`, `Nullable<T>`, an enum with its public static
      fields in declaration order, or any other type with its public static
      fields. */
  datatype Type =
    | Int
    | Nullable(underlying: Type)
    | Enum(fields: seq<string>)
    | Other(name: string, staticFields: seq<string>)

  /** `TypeExtensions.IsNullable`: a `Nullable<T>`. */
  predicate IsNullable(t: Type) {
    t.Nullable?
  }

  /** `type.GetFields(BindingFlags.Public | BindingFlags.Static)`, by name:
      `int` has its two constants and `Nullable<T>` has none. */
  function PublicStaticFields(t: Type): seq<string> {
    match t
    case Int => ["MaxValue", "MinValue"]
    case Nullable(_) => []
    case Enum(fields) => fields
    case Other(_, fields) => fields
  }

  /** The named group `(?<{0}>…)` around a capture pattern. */
  function Group(capture: string): string {
    "(?<{0}>" + capture + ")"
  }

  /** The pattern holds the placeholder `{0}` once, at its start, and no
      other opening brace. */
  predicate PlaceholderOnce(pattern: string) {
    && |pattern| >= 6 && pattern[3..6] == "{0}"
    && forall i :: 0 <= i < |pattern| && pattern[i] == '{' ==> i == 3
  }

  /** A group around a capture pattern without braces has the placeholder
      once, and whatever follows without braces keeps it so. */
  lemma GroupPlaceholderOnce(capture: string, after: string)
    requires '{' !in capture && '{' !in after
    ensures PlaceholderOnce(Group(capture) + after)
  {
    var p := Group(capture) + after;
    var open := "(?<{0}>";
    assert p == open + capture + ")" + after;
    assert p[3..6] == open[3..6];
    forall i | 0 <= i < |p| && p[i] == '{' ensures i == 3 {
      if i < 7 {
        assert p[i] == open[i];
      }
    }
  }
}
