/** The inline type for `int` parameters: which types it handles, the
    pattern it contributes to a step's regular expression, and what that
    pattern captures from a parameter token. */
module Int32InlineType {
  import opened Wrappers
  import opened Ascii
  import opened InlineTypes

  /** `HandlesType`: exactly `int`; `int?` is a different type, so a
      handled type always gets the pattern without `null`. */
  predicate HandlesType(t: Type): (b: bool)
    ensures b ==> !IsNullable(t) && GetPattern(t) == Group(NumberCapture) + OrdinalSuffix
  {
    t == Int
  }

  /** The capture of the non-nullable pattern, `-?\d+`. */
  const NumberCapture := "-?\\d+"

  /** The capture of the nullable pattern: a number or the word `null`. */
  const NullableCapture := "(?:-?\\d+)|(?:null)"

  /** The optional ordinal suffix, outside the named group. */
  const OrdinalSuffix := "(?:st|nd|rd|th)?"

  /** `GetPattern`: the named group around the capture (with `null` allowed
      when the type is nullable), then the optional ordinal suffix outside the
      group. The tokens it accepts, and what it captures from them, are
      `Capture(token, IsNullable(t))` below. */
  function GetPattern(t: Type): (r: string)
    ensures PlaceholderOnce(r)
    ensures |r| > |OrdinalSuffix| && r[|r| - |OrdinalSuffix|..] == OrdinalSuffix
  {
    var capture := if IsNullable(t) then NullableCapture else NumberCapture;
    GroupPlaceholderOnce(capture, OrdinalSuffix);
    Group(capture) + OrdinalSuffix
  }

  // What the patterns accept, for a whole parameter token.

  /** `-?\d+`: an optional minus sign and at least one digit. */
  predicate IsNumber(c: string) {
    || (c != [] && AllDigits(c))
    || (|c| >= 2 && c[0] == '-' && AllDigits(c[1..]))
  }

  /** What the named group can capture. */
  predicate IsCapture(c: string, nullable: bool) {
    IsNumber(c) || (nullable && c == "null")
  }

  /** `(?:st|nd|rd|th)?`. */
  predicate IsOrdinal(x: string) {
    x == [] || x == "st" || x == "nd" || x == "rd" || x == "th"
  }

  /** The token with a trailing ordinal suffix taken off, if it has one. */
  function StripOrdinal(s: string): (r: string)
    ensures |r| <= |s| && r == s[..|r|] && IsOrdinal(s[|r|..])
  {
    if |s| >= 2 && IsOrdinal(s[|s| - 2..]) then s[..|s| - 2] else s
  }

  /** The value the pattern captures from a whole token, or `None` when the
      token does not match: a capture followed by an optional suffix. */
  function Capture(s: string, nullable: bool): (r: Option<string>)
    ensures r.Some? ==> && |r.value| <= |s| && r.value == s[..|r.value|]
                        && IsCapture(r.value, nullable)
                        && IsOrdinal(s[|r.value|..])
  {
    var body := StripOrdinal(s);
    if IsCapture(body, nullable) then Some(body) else None
  }

  /** A capture ends with a digit or with the `l` of `null`, never with a
      letter a suffix can end with. */
  lemma CaptureEnd(c: string, nullable: bool)
    requires IsCapture(c, nullable)
    ensures c != [] && (IsDigit(c[|c| - 1]) || c[|c| - 1] == 'l')
  {
    if IsNumber(c) && !(c != [] && AllDigits(c)) {
      assert c[|c| - 1] == c[1..][|c| - 2];
    }
  }

  /** Every capture followed by a suffix is matched, with exactly that
      capture: the suffix never ends up inside the group. */
  lemma CaptureComplete(c: string, x: string, nullable: bool)
    requires IsCapture(c, nullable) && IsOrdinal(x)
    ensures Capture(c + x, nullable) == Some(c)
  {
    var s := c + x;
    CaptureEnd(c, nullable);
    if x == [] {
      assert s == c;
      if |s| >= 2 {
        assert s[|s| - 2..][1] == c[|c| - 1];
      }
    } else {
      assert s[|s| - 2..] == x;
      assert s[..|s| - 2] == c;
    }
  }

  /** A token that is no capture followed by a suffix does not match. */
  lemma CaptureRejects(s: string, nullable: bool)
    requires Capture(s, nullable).None?
    ensures forall i :: 0 <= i <= |s| ==> !(IsCapture(s[..i], nullable) && IsOrdinal(s[i..]))
  {
    forall i | 0 <= i <= |s| && IsCapture(s[..i], nullable) && IsOrdinal(s[i..])
      ensures false
    {
      assert s[..i] + s[i..] == s;
      CaptureComplete(s[..i], s[i..], nullable);
    }
  }

  /** Allowing `null` only adds the token `null` (with a suffix): every
      non-nullable match is a nullable match with the same capture, and the
      nullable pattern matches nothing else but `null`. */
  lemma NullableOnlyAddsNull(s: string)
    ensures Capture(s, false).Some? ==> Capture(s, true) == Capture(s, false)
    ensures Capture(s, true).Some? && Capture(s, false).None? ==> Capture(s, true) == Some("null")
  {
  }

  /** `int` is handled and `int?` is not, so a handled type always gets the
      pattern without `null`. */
  lemma HandlesOnlyInt()
    ensures HandlesType(Int)
    ensures !HandlesType(Nullable(Int))
    ensures forall t :: HandlesType(t) ==> !IsNullable(t) && GetPattern(t) == Group(NumberCapture) + OrdinalSuffix
  {
  }

  // Examples.

  lemma OrdinalExamples(third: string, fortySecond: string)
    requires third == "3rd" && fortySecond == "42nd"
    ensures Capture(third, false) == Some("3")
    ensures Capture(fortySecond, false) == Some("42")
  {
    CaptureComplete("3", "rd", false);
    assert "3" + "rd" == third;
    CaptureComplete("42", "nd", false);
    assert "42" + "nd" == fortySecond;
  }

  lemma NegativeExample(s: string)
    requires s == "-12"
    ensures Capture(s, false) == Some("-12")
  {
    assert s[1..] == "12";
    CaptureComplete(s, "", false);
    assert s + "" == s;
  }

  lemma NullExamples(s: string)
    requires s == "null"
    ensures Capture(s, false) == None
    ensures Capture(s, true) == Some("null")
  {
    assert !IsNumber(s) by {
      assert !IsDigit(s[0]) && s[0] != '-';
    }
    assert StripOrdinal(s) == s by {
      assert s[2..] == "ll";
    }
  }
}
