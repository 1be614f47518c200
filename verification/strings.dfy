/** String operations shared by the prompt builders and the text cleaner:
    keeping the characters that satisfy a test, joining on a one-character
    separator (`sep.join(parts)`) and splitting on it (`s.split(sep)`). */
module Strings {

  /** The characters of `s` that satisfy `p`, in order. */
  function Keep(s: string, p: char -> bool): (r: string)
    ensures |r| <= |s|
  {
    if s == [] then []
    else (if p(s[0]) then [s[0]] else []) + Keep(s[1..], p)
  }

  /** Every kept character satisfies the test. */
  lemma {:induction false} KeepSatisfies(s: string, p: char -> bool)
    ensures forall i :: 0 <= i < |Keep(s, p)| ==> p(Keep(s, p)[i])
    decreases |s|
  {
    if s != [] {
      KeepSatisfies(s[1..], p);
      var r := Keep(s, p);
      var rest := Keep(s[1..], p);
      forall i | 0 <= i < |r|
        ensures p(r[i])
      {
        if p(s[0]) {
          if i > 0 {
            assert r[i] == rest[i - 1];
          }
        } else {
          assert r[i] == rest[i];
        }
      }
    }
  }

  /** A property of every character of the input holds of every kept
      character. */
  lemma {:induction false} KeepPreserves(s: string, p: char -> bool, q: char -> bool)
    requires forall i :: 0 <= i < |s| ==> q(s[i])
    ensures forall i :: 0 <= i < |Keep(s, p)| ==> q(Keep(s, p)[i])
    decreases |s|
  {
    if s != [] {
      KeepPreserves(s[1..], p, q);
      var r := Keep(s, p);
      var rest := Keep(s[1..], p);
      forall i | 0 <= i < |r|
        ensures q(r[i])
      {
        if p(s[0]) {
          if i > 0 {
            assert r[i] == rest[i - 1];
          }
        } else {
          assert r[i] == rest[i];
        }
      }
    }
  }

  /** Keeping distributes over concatenation. */
  lemma {:induction false} KeepAppend(a: string, b: string, p: char -> bool)
    ensures Keep(a + b, p) == Keep(a, p) + Keep(b, p)
    decreases |a|
  {
    if a == [] {
      assert a + b == b;
    } else {
      var head := if p(a[0]) then [a[0]] else [];
      assert (a + b)[0] == a[0];
      assert (a + b)[1..] == a[1..] + b;
      assert Keep(a + b, p) == head + Keep(a[1..] + b, p);
      KeepAppend(a[1..], b, p);
      assert Keep(a, p) == head + Keep(a[1..], p);
    }
  }

  /** Every character that satisfies `p` is kept as often as it occurs; every
      other character is dropped. */
  lemma {:induction false} KeepCounts(s: string, p: char -> bool, c: char)
    ensures multiset(Keep(s, p))[c] == if p(c) then multiset(s)[c] else 0
    decreases |s|
  {
    if s != [] {
      KeepCounts(s[1..], p, c);
      assert s == [s[0]] + s[1..];
      assert multiset(s) == multiset([s[0]]) + multiset(s[1..]);
    }
  }

  /** A string whose characters all satisfy `p` is kept whole. */
  lemma {:induction false} KeepAll(s: string, p: char -> bool)
    requires forall i :: 0 <= i < |s| ==> p(s[i])
    ensures Keep(s, p) == s
    decreases |s|
  {
    if s != [] {
      KeepAll(s[1..], p);
    }
  }

  /** A string none of whose characters satisfies `p` is dropped entirely. */
  lemma {:induction false} KeepNone(s: string, p: char -> bool)
    requires forall i :: 0 <= i < |s| ==> !p(s[i])
    ensures Keep(s, p) == []
    decreases |s|
  {
    if s != [] {
      KeepNone(s[1..], p);
    }
  }

  /** Keeping from a string whose characters outside `s[i..j]` all fail `p`
      is keeping from `s[i..j]`. */
  lemma KeepInner(s: string, i: nat, j: nat, p: char -> bool)
    requires i <= j <= |s|
    requires forall k :: 0 <= k < i ==> !p(s[k])
    requires forall k :: j <= k < |s| ==> !p(s[k])
    ensures Keep(s[i..j], p) == Keep(s, p)
  {
    KeepDropFront(s[..j], i, p);
    assert s[..j][i..] == s[i..j];
    KeepDropBack(s, j, p);
  }

  /** Dropping a front whose characters all fail `p` keeps the same. */
  lemma KeepDropFront(s: string, i: nat, p: char -> bool)
    requires i <= |s|
    requires forall k :: 0 <= k < i ==> !p(s[k])
    ensures Keep(s[i..], p) == Keep(s, p)
  {
    var x := s[..i];
    assert forall k :: 0 <= k < |x| ==> x[k] == s[k];
    KeepNone(x, p);
    assert s == x + s[i..];
    KeepAppend(x, s[i..], p);
  }

  /** Dropping a back whose characters all fail `p` keeps the same. */
  lemma KeepDropBack(s: string, j: nat, p: char -> bool)
    requires j <= |s|
    requires forall k :: j <= k < |s| ==> !p(s[k])
    ensures Keep(s[..j], p) == Keep(s, p)
  {
    var z := s[j..];
    assert forall k :: 0 <= k < |z| ==> z[k] == s[j + k];
    KeepNone(z, p);
    assert s == s[..j] + z;
    KeepAppend(s[..j], z, p);
  }

  /** `sep.join(parts)`. */
  function JoinWith(parts: seq<string>, sep: char): string
    decreases |parts|
  {
    if parts == [] then ""
    else if |parts| == 1 then parts[0]
    else parts[0] + [sep] + JoinWith(parts[1..], sep)
  }

  /** Index of the first `c` in `s`, or `|s|` when there is none. */
  function IndexOf(s: string, c: char): (i: nat)
    ensures i <= |s|
    ensures i < |s| ==> s[i] == c
    ensures forall j :: 0 <= j < i ==> s[j] != c
  {
    if s == [] || s[0] == c then 0 else 1 + IndexOf(s[1..], c)
  }

  /** `s.split(sep)`: the pieces between separators, never an empty list. */
  function SplitOn(s: string, sep: char): (r: seq<string>)
    ensures |r| >= 1
    ensures forall k :: 0 <= k < |r| ==> sep !in r[k]
    decreases |s|
  {
    var i := IndexOf(s, sep);
    if i == |s| then [s] else [s[..i]] + SplitOn(s[i + 1..], sep)
  }

  /** Splitting a join of separator-free parts gives back the parts. */
  lemma {:induction false} SplitJoin(parts: seq<string>, sep: char)
    requires parts != []
    requires forall k :: 0 <= k < |parts| ==> sep !in parts[k]
    ensures SplitOn(JoinWith(parts, sep), sep) == parts
    decreases |parts|
  {
    var s := JoinWith(parts, sep);
    if |parts| == 1 {
      assert IndexOf(s, sep) == |s|;
    } else {
      var p := parts[0];
      assert s == p + [sep] + JoinWith(parts[1..], sep);
      assert s[|p|] == sep;
      assert forall j :: 0 <= j < |p| ==> s[j] == p[j];
      assert IndexOf(s, sep) == |p|;
      assert s[..|p|] == p;
      assert s[|p| + 1..] == JoinWith(parts[1..], sep);
      SplitJoin(parts[1..], sep);
    }
  }
}
