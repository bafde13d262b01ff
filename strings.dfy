/**
  Text helpers shared by the formatters: JavaScript's `Array.prototype.join`,
  and a splitter that undoes it when no part contains the separator.
 */
module Strings {

  /** `parts.join(sep)`: the parts in order, with `sep` between neighbours. */
  function Join(parts: seq<string>, sep: string): string
    decreases |parts|
  {
    if |parts| == 0 then ""
    else if |parts| == 1 then parts[0]
    else parts[0] + sep + Join(parts[1..], sep)
  }

  lemma JoinPair(a: string, b: string, sep: string)
    ensures Join([a, b], sep) == a + sep + b
  {
    assert [a, b][1..] == [b];
  }

  /** `sep` occurs in `s` starting at index `j`. */
  predicate OccursAt(s: string, sep: string, j: nat)
  {
    j + |sep| <= |s| && s[j..j + |sep|] == sep
  }

  /** Index of the first occurrence of `sep` in `s`, or `|s|` when there is none. */
  function Find(s: string, sep: string): (i: nat)
    requires |sep| > 0
    ensures i <= |s|
    ensures i < |s| ==> OccursAt(s, sep, i)
    ensures forall j: nat | j < i :: !OccursAt(s, sep, j)
    decreases |s|
  {
    if |s| < |sep| then |s|
    else if s[..|sep|] == sep then 0
    else
      var k := 1 + Find(s[1..], sep);
      assert forall j: nat | 1 <= j :: OccursAt(s, sep, j) == OccursAt(s[1..], sep, j - 1) by {
        forall j: nat | 1 <= j ensures OccursAt(s, sep, j) == OccursAt(s[1..], sep, j - 1) {
          if j + |sep| <= |s| {
            SliceOfTail(s, j, j + |sep|);
          }
        }
      }
      k
  }

  lemma SliceOfTail(s: string, a: nat, b: nat)
    requires 1 <= a <= b <= |s|
    ensures s[1..][a - 1..b - 1] == s[a..b]
  {
    assert forall k | a <= k < b :: s[1..][k - 1] == s[k];
  }

  /** Cuts `s` at every occurrence of `sep`, from left to right. */
  function Split(s: string, sep: string): (parts: seq<string>)
    requires |sep| > 0
    ensures |parts| >= 1
    decreases |s|
  {
    var i := Find(s, sep);
    if i == |s| then [s] else [s[..i]] + Split(s[i + |sep|..], sep)
  }

  lemma FindAbsent(s: string, sep: string)
    requires |sep| > 0 && sep[0] !in s
    ensures Find(s, sep) == |s|
  {
  }

  lemma FindAfter(p: string, sep: string, rest: string)
    requires |sep| > 0 && sep[0] !in p
    ensures Find(p + sep + rest, sep) == |p|
  {
    var s := p + sep + rest;
    assert OccursAt(s, sep, |p|) by {
      assert s[|p|..|p| + |sep|] == sep;
    }
  }

  /** Splitting on the separator recovers the parts of a join, when no part contains the separator's first character. */
  lemma {:induction false} SplitJoin(parts: seq<string>, sep: string)
    requires |parts| > 0 && |sep| > 0
    requires forall i | 0 <= i < |parts| :: sep[0] !in parts[i]
    ensures Split(Join(parts, sep), sep) == parts
    decreases |parts|
  {
    if |parts| == 1 {
      FindAbsent(parts[0], sep);
    } else {
      var rest := Join(parts[1..], sep);
      var s := parts[0] + sep + rest;
      FindAfter(parts[0], sep, rest);
      assert s[..|parts[0]|] == parts[0];
      assert s[|parts[0]| + |sep|..] == rest;
      SplitJoin(parts[1..], sep);
      assert [parts[0]] + parts[1..] == parts;
    }
  }

  /** A character occurs in a join exactly when it occurs in a part, or in the separator between two parts. */
  lemma {:induction false} JoinContains(parts: seq<string>, sep: string, c: char)
    ensures c in Join(parts, sep) <==>
      (exists i | 0 <= i < |parts| :: c in parts[i]) || (|parts| >= 2 && c in sep)
    decreases |parts|
  {
    if |parts| >= 2 {
      JoinContains(parts[1..], sep, c);
      assert forall i | 1 <= i < |parts| :: parts[i] == parts[1..][i - 1];
      if c in Join(parts, sep) && c !in parts[0] && c !in sep {
        var i :| 0 <= i < |parts| - 1 && c in parts[1..][i];
        assert c in parts[i + 1];
      }
    }
  }

  /**
    Joining with `suffix + sep` and then appending `suffix` only when `tail`
    holds is the same as joining with `sep` after giving every part the suffix,
    except the last part when `tail` is false.
   */
  lemma {:induction false} JoinWithSuffixedSeparator(xs: seq<string>, suffix: string, sep: string, tail: bool)
    requires |xs| > 0
    ensures Join(xs, suffix + sep) + (if tail then suffix else "") ==
      Join(seq(|xs|, i requires 0 <= i < |xs| => xs[i] + (if tail || i < |xs| - 1 then suffix else "")), sep)
    decreases |xs|
  {
    var lits := seq(|xs|, i requires 0 <= i < |xs| => xs[i] + (if tail || i < |xs| - 1 then suffix else ""));
    if |xs| > 1 {
      JoinWithSuffixedSeparator(xs[1..], suffix, sep, tail);
      var rest := seq(|xs| - 1, i requires 0 <= i < |xs| - 1 => xs[1..][i] + (if tail || i < |xs| - 2 then suffix else ""));
      assert lits[1..] == rest;
    }
  }
}
