/** Character classes, ASCII case folding, trimming and joining, as the
    string operations of the modelled code use them. Whitespace is the ASCII
    set that `\s` and `String.Trim()` agree on. */
module Ascii {
  /** Space, tab, line feed, vertical tab, form feed, carriage return. */
  predicate IsWs(c: char) {
    c == ' ' || c == '\t' || c == '\n' || c == '\U{B}' || c == '\U{C}' || c == '\r'
  }

  predicate IsLineBreak(c: char) { c == '\r' || c == '\n' }

  predicate IsUpper(c: char) { 'A' <= c <= 'Z' }

  predicate IsDigit(c: char) { '0' <= c <= '9' }

  /** The character classes that runs are measured and strings trimmed by. */
  datatype CharClass =
    Whitespace | NonWhitespace | LineBreak | NonLineBreak | Underscore | NonUnderscore | NonUpper | Digit | Bar

  predicate In(c: char, k: CharClass) {
    match k
    case Whitespace => IsWs(c)
    case NonWhitespace => !IsWs(c)
    case LineBreak => IsLineBreak(c)
    case NonLineBreak => !IsLineBreak(c)
    case Underscore => c == '_'
    case NonUnderscore => c != '_'
    case NonUpper => !IsUpper(c)
    case Digit => IsDigit(c)
    case Bar => c == '|'
  }

  function Lower(c: char): char {
    if IsUpper(c) then (c as int + 32) as char else c
  }

  /** `ToLowerInvariant`, restricted to ASCII letters. */
  function ToLower(s: string): string {
    seq(|s|, i requires 0 <= i < |s| => Lower(s[i]))
  }

  /** `a` and `b` are equal up to ASCII case folding (`RegexOptions.IgnoreCase`). */
  predicate CIEq(a: string, b: string) {
    |a| == |b| && forall i :: 0 <= i < |a| ==> Lower(a[i]) == Lower(b[i])
  }

  /** `s` holds `p` at position `at`, ignoring ASCII case. */
  predicate CIMatchAt(p: string, s: string, at: nat) {
    at + |p| <= |s| && forall i :: 0 <= i < |p| ==> Lower(p[i]) == Lower(s[at + i])
  }

  predicate AllWs(s: string) {
    forall i :: 0 <= i < |s| ==> IsWs(s[i])
  }

  predicate AllDigits(s: string) {
    forall i :: 0 <= i < |s| ==> IsDigit(s[i])
  }

  /** The end of the run of characters in class `k` that starts at `from`. */
  function RunFrom(s: string, from: nat, k: CharClass): (j: nat)
    requires from <= |s|
    ensures from <= j <= |s|
    decreases |s| - from
  {
    if from == |s| || !In(s[from], k) then from else RunFrom(s, from + 1, k)
  }

  /** The run found by `RunFrom` is maximal. */
  lemma {:induction false} RunFromIsMaximal(s: string, from: nat, k: CharClass)
    requires from <= |s|
    ensures forall i :: from <= i < RunFrom(s, from, k) ==> In(s[i], k)
    ensures RunFrom(s, from, k) < |s| ==> !In(s[RunFrom(s, from, k)], k)
    decreases |s| - from
  {
    if from < |s| && In(s[from], k) {
      RunFromIsMaximal(s, from + 1, k);
    }
  }

  /** A run that is known to end at `to` is the one `RunFrom` finds. */
  lemma RunFromEnds(s: string, from: nat, to: nat, k: CharClass)
    requires from <= to <= |s|
    requires forall i :: from <= i < to ==> In(s[i], k)
    requires to < |s| ==> !In(s[to], k)
    ensures RunFrom(s, from, k) == to
  {
    RunFromIsMaximal(s, from, k);
  }

  /** The start of the run of characters in class `k` that ends at `hi`,
      going back no further than `lo`. */
  function RunBack(s: string, lo: nat, hi: nat, k: CharClass): (i: nat)
    requires lo <= hi <= |s|
    ensures lo <= i <= hi
    decreases hi
  {
    if hi == lo || !In(s[hi - 1], k) then hi else RunBack(s, lo, hi - 1, k)
  }

  /** The run found by `RunBack` is maximal. */
  lemma {:induction false} RunBackIsMaximal(s: string, lo: nat, hi: nat, k: CharClass)
    requires lo <= hi <= |s|
    ensures forall m :: RunBack(s, lo, hi, k) <= m < hi ==> In(s[m], k)
    ensures lo < RunBack(s, lo, hi, k) ==> !In(s[RunBack(s, lo, hi, k) - 1], k)
    decreases hi
  {
    if hi > lo && In(s[hi - 1], k) {
      RunBackIsMaximal(s, lo, hi - 1, k);
    }
  }

  /** A run that is known to start at `lo` is the one `RunBack` finds. */
  lemma RunBackEnds(s: string, lo: nat, start: nat, hi: nat, k: CharClass)
    requires lo <= start <= hi <= |s|
    requires forall i :: start <= i < hi ==> In(s[i], k)
    requires lo < start ==> !In(s[start - 1], k)
    ensures RunBack(s, lo, hi, k) == start
  {
    RunBackIsMaximal(s, lo, hi, k);
  }

  /** `String.Trim(chars)`. */
  function TrimBy(s: string, k: CharClass): (r: string)
    ensures |r| <= |s|
  {
    var a := RunFrom(s, 0, k);
    s[a..RunBack(s, a, |s|, k)]
  }

  /** `TrimBy` removes every leading and trailing character in class `k`, and
      nothing else: its result is the infix of `s` between two runs of `k`,
      and neither starts nor ends with a character of `k`. */
  lemma TrimByRemovesEnds(s: string, k: CharClass)
    ensures var r := TrimBy(s, k);
            && (r == [] || (!In(r[0], k) && !In(r[|r| - 1], k)))
            && RunFrom(s, 0, k) + |r| <= |s|
            && r == s[RunFrom(s, 0, k)..RunFrom(s, 0, k) + |r|]
            && forall i :: RunFrom(s, 0, k) + |r| <= i < |s| ==> In(s[i], k)
  {
    var a := RunFrom(s, 0, k);
    RunFromIsMaximal(s, 0, k);
    RunBackIsMaximal(s, a, |s|, k);
  }

  /** `String.Trim()`. */
  function Trim(s: string): string {
    TrimBy(s, Whitespace)
  }

  /** `s` has no whitespace at either end. */
  predicate Trimmed(s: string) {
    s == [] || (!IsWs(s[0]) && !IsWs(s[|s| - 1]))
  }

  /** A string with no whitespace at its ends is left alone by `Trim`. */
  lemma TrimOfTrimmed(s: string)
    requires Trimmed(s)
    ensures Trim(s) == s
  {
    assert RunFrom(s, 0, Whitespace) == 0;
    assert RunBack(s, 0, |s|, Whitespace) == |s|;
  }

  /** `String.Join(sep, parts)`. */
  function Join(sep: string, parts: seq<string>): string {
    if parts == [] then []
    else if |parts| == 1 then parts[0]
    else parts[0] + sep + Join(sep, parts[1..])
  }

  predicate NoPartHolds(parts: seq<string>, c: char) {
    forall i :: 0 <= i < |parts| ==> c !in parts[i]
  }

  /** A character that is neither the separator nor in any part is not in
      the joined string. */
  lemma {:induction false} JoinAvoids(sep: string, parts: seq<string>, c: char)
    requires c !in sep && NoPartHolds(parts, c)
    ensures c !in Join(sep, parts)
    decreases |parts|
  {
    if |parts| > 1 {
      JoinAvoids(sep, parts[1..], c);
    }
  }

  // Proof helpers.

  lemma LowerKeepsWs(c: char)
    ensures IsWs(Lower(c)) == IsWs(c)
  {
  }

  lemma LowerIdempotent()
    ensures forall c :: Lower(Lower(c)) == Lower(c)
  {
  }

  lemma ToLowerIdempotent(s: string)
    ensures ToLower(ToLower(s)) == ToLower(s)
  {
    LowerIdempotent();
  }

  /** Lower-casing does not move whitespace runs. */
  lemma {:induction false} RunFromLower(s: string, from: nat, k: CharClass)
    requires from <= |s| && k == Whitespace
    ensures RunFrom(ToLower(s), from, k) == RunFrom(s, from, k)
    decreases |s| - from
  {
    if from < |s| {
      LowerKeepsWs(s[from]);
      RunFromLower(s, from + 1, k);
    }
  }

  /** Runs are found the same way in a suffix. */
  lemma {:induction false} RunFromShift(x: string, y: string, p: nat, k: CharClass)
    requires p <= |y|
    ensures RunFrom(x + y, |x| + p, k) == |x| + RunFrom(y, p, k)
    decreases |y| - p
  {
    if p < |y| {
      assert (x + y)[|x| + p] == y[p];
      if In(y[p], k) {
        RunFromShift(x, y, p + 1, k);
      }
    }
  }

  /** Joining a part in front of at least one more. */
  lemma JoinCons(sep: string, head: string, rest: seq<string>)
    requires rest != []
    ensures Join(sep, [head] + rest) == head + sep + Join(sep, rest)
  {
    assert ([head] + rest)[1..] == rest;
  }

  lemma JoinThree(sep: string, a: string, b: string, c: string)
    ensures Join(sep, [a, b, c]) == a + sep + b + sep + c
  {
    JoinCons(sep, b, [c]);
    JoinCons(sep, a, [b, c]);
    assert [a] + [b, c] == [a, b, c];
  }
}
