/** `String.Split` on single separator characters, keeping empty pieces, and
    its round trips with `String.Join`. */
module Splitting {
  import opened Ascii

  /** The first position at or after `from` that holds a character of class
      `k`, or `|s|` when there is none. */
  function Find(s: string, from: nat, k: CharClass): (j: nat)
    requires from <= |s|
    ensures from <= j <= |s|
    decreases |s| - from
  {
    if from == |s| || In(s[from], k) then from else Find(s, from + 1, k)
  }

  lemma {:induction false} FindIsFirst(s: string, from: nat, k: CharClass)
    requires from <= |s|
    ensures forall i :: from <= i < Find(s, from, k) ==> !In(s[i], k)
    ensures Find(s, from, k) < |s| ==> In(s[Find(s, from, k)], k)
    decreases |s| - from
  {
    if from < |s| && !In(s[from], k) {
      FindIsFirst(s, from + 1, k);
    }
  }

  /** `s.Split(separators)`, separators being the characters of class `k`:
      the piece before the first separator, then the pieces of the rest;
      one more piece than there are separators. */
  function Split(s: string, k: CharClass): (r: seq<string>)
    ensures |r| == Separators(s, k) + 1
    decreases |s|
  {
    var e := Find(s, 0, k);
    FindIsFirst(s, 0, k);
    SeparatorsSkip(s, k, e);
    if e == |s| then [s]
    else
      assert s[e..][1..] == s[e + 1..];
      [s[..e]] + Split(s[e + 1..], k)
  }

  /** The number of separators in `s`. */
  function Separators(s: string, k: CharClass): nat
    decreases |s|
  {
    if s == [] then 0 else (if In(s[0], k) then 1 else 0) + Separators(s[1..], k)
  }

  predicate NoneIn(parts: seq<string>, k: CharClass) {
    forall i, j :: 0 <= i < |parts| && 0 <= j < |parts[i]| ==> !In(parts[i][j], k)
  }

  /** The pieces hold no separator. */
  lemma {:induction false} SplitAvoids(s: string, k: CharClass)
    ensures NoneIn(Split(s, k), k)
    decreases |s|
  {
    var e := Find(s, 0, k);
    FindIsFirst(s, 0, k);
    if e < |s| {
      var first, rest := s[..e], Split(s[e + 1..], k);
      SplitAvoids(s[e + 1..], k);
      SplitStep(s, k, e);
      assert forall j :: 0 <= j < |first| ==> !In(first[j], k);
      assert Split(s, k) == [first] + rest;
    }
  }

  /** Joining the pieces with the separator gives the string back, when the
      string's separators are all the same character `d`. */
  lemma {:induction false} SplitJoin(s: string, k: CharClass, d: char)
    requires forall i :: 0 <= i < |s| && In(s[i], k) ==> s[i] == d
    ensures Join([d], Split(s, k)) == s
    decreases |s|
  {
    var e := Find(s, 0, k);
    if e < |s| {
      var first, tail := s[..e], s[e + 1..];
      var rest := Split(tail, k);
      assert Join([d], rest) == tail by {
        assert forall i :: 0 <= i < |tail| ==> tail[i] == s[e + 1 + i];
        SplitJoin(tail, k, d);
      }
      assert s == first + [d] + tail by {
        FindIsFirst(s, 0, k);
      }
      SplitStep(s, k, e);
      JoinCons([d], first, rest);
    }
  }

  /** Splitting a part followed by the separator and more cuts off the part. */
  lemma SplitsAtFirst(part: string, d: char, more: string, k: CharClass)
    requires In(d, k) && forall j :: 0 <= j < |part| ==> !In(part[j], k)
    ensures Split(part + [d] + more, k) == [part] + Split(more, k)
  {
    var s := part + [d] + more;
    FindEnds(s, 0, |part|, k);
    assert s[..|part|] == part;
    assert s[|part| + 1..] == more;
    SplitStep(s, k, |part|);
  }

  /** Splitting parts joined by a separator character gives the parts back,
      when no part holds a separator. */
  lemma {:induction false} JoinSplit(parts: seq<string>, k: CharClass, d: char)
    requires parts != [] && In(d, k) && NoneIn(parts, k)
    ensures Split(Join([d], parts), k) == parts
    decreases |parts|
  {
    var p := parts[0];
    assert forall j :: 0 <= j < |p| ==> !In(p[j], k);
    if |parts| == 1 {
      assert Join([d], parts) == p;
      FindEnds(p, 0, |p|, k);
      SplitStops(p, k);
    } else {
      var rest := parts[1..];
      assert NoneIn(rest, k) by {
        forall i, j | 0 <= i < |rest| && 0 <= j < |rest[i]| ensures !In(rest[i][j], k) {
          assert rest[i] == parts[i + 1];
        }
      }
      assert parts == [p] + rest;
      JoinCons([d], p, rest);
      JoinSplit(rest, k, d);
      SplitsAtFirst(p, d, Join([d], rest), k);
    }
  }

  /** The pieces hold only characters of the string. */
  lemma {:induction false} SplitKeepsOut(s: string, k: CharClass, c: char)
    requires c !in s
    ensures NoPartHolds(Split(s, k), c)
    decreases |s|
  {
    var e := Find(s, 0, k);
    if e < |s| {
      var first, tail := s[..e], s[e + 1..];
      assert c !in first by {
        forall i | 0 <= i < e ensures first[i] != c { assert s[i] in s; }
      }
      assert c !in tail by {
        forall i | 0 <= i < |tail| ensures tail[i] != c { assert s[e + 1 + i] in s; }
      }
      SplitKeepsOut(tail, k, c);
      SplitStep(s, k, e);
    }
  }

  // Proof helpers.

  lemma FindEnds(s: string, from: nat, e: nat, k: CharClass)
    requires from <= e <= |s|
    requires forall i :: from <= i < e ==> !In(s[i], k)
    requires e < |s| ==> In(s[e], k)
    ensures Find(s, from, k) == e
  {
    FindIsFirst(s, from, k);
  }

  /** One step of the split, at the first separator `e`. */
  lemma SplitStep(s: string, k: CharClass, e: nat)
    requires e < |s| && Find(s, 0, k) == e
    ensures Split(s, k) == [s[..e]] + Split(s[e + 1..], k)
  {
  }

  /** A string without separators is one piece. */
  lemma SplitStops(s: string, k: CharClass)
    requires Find(s, 0, k) == |s|
    ensures Split(s, k) == [s]
  {
  }

  /** Characters that are no separators do not count. */
  lemma {:induction false} SeparatorsSkip(s: string, k: CharClass, e: nat)
    requires e <= |s| && forall i :: 0 <= i < e ==> !In(s[i], k)
    ensures Separators(s, k) == Separators(s[e..], k)
    decreases e
  {
    if e > 0 {
      SeparatorsSkip(s[1..], k, e - 1);
      assert s[1..][e - 1..] == s[e..];
    }
  }
}
