/** Strings as Python sees them: code-point ordering, `str.join` and `str.split`. */
module Strings {
  import opened Wrappers

  /** Python's `a < b` on `str`: lexicographic comparison of code points, where a
      proper prefix sorts first. (Dafny's own `<` on sequences is proper-prefix.) */
  predicate Less(a: string, b: string)
    decreases |a|
  {
    if |a| == 0 then |b| > 0
    else if |b| == 0 then false
    else if a[0] != b[0] then a[0] < b[0]
    else Less(a[1..], b[1..])
  }

  /** Python's `a <= b` on `str`. */
  predicate LessEq(a: string, b: string)
  {
    Less(a, b) || a == b
  }

  lemma {:induction false} LessIrreflexive(a: string)
    ensures !Less(a, a)
    decreases |a|
  {
    if |a| > 0 {
      LessIrreflexive(a[1..]);
    }
  }

  lemma {:induction false} LessAsymmetric(a: string, b: string)
    ensures !(Less(a, b) && Less(b, a))
    decreases |a|
  {
    if |a| > 0 && |b| > 0 && a[0] == b[0] {
      LessAsymmetric(a[1..], b[1..]);
    }
  }

  lemma {:induction false} LessTransitive(a: string, b: string, c: string)
    requires Less(a, b) && Less(b, c)
    ensures Less(a, c)
    decreases |a|
  {
    if |a| > 0 && a[0] == b[0] && b[0] == c[0] {
      LessTransitive(a[1..], b[1..], c[1..]);
    }
  }

  /** Exactly one of `a < b`, `a == b`, `b < a` holds, as for Python strings. */
  lemma {:induction false} LessTrichotomous(a: string, b: string)
    ensures Less(a, b) || a == b || Less(b, a)
    ensures !(Less(a, b) && a == b) && !(Less(a, b) && Less(b, a)) && !(a == b && Less(b, a))
    decreases |a|
  {
    LessIrreflexive(a);
    LessAsymmetric(a, b);
    if |a| > 0 && |b| > 0 && a[0] == b[0] {
      LessTrichotomous(a[1..], b[1..]);
      if a[1..] == b[1..] {
        assert a == [a[0]] + a[1..] && b == [b[0]] + b[1..];
      }
    }
  }

  /** `a` and `b` agree on their first `i` characters and `i` is where `a` is first
      below `b`: either `a` ends there while `b` goes on, or both go on and `a`'s
      character is the smaller code point. */
  ghost predicate FirstDifferenceBelow(a: string, b: string, i: nat)
  {
    && i <= |a| && i <= |b| && a[..i] == b[..i]
    && ((i == |a| && i < |b|) || (i < |a| && i < |b| && a[i] < b[i]))
  }

  /** `Less` is lexicographic order: `a < b` exactly when, at the first position
      where the two differ, `a` is exhausted or has the smaller code point. */
  lemma {:induction false} LessIsFirstDifference(a: string, b: string)
    ensures Less(a, b) <==> exists i: nat :: FirstDifferenceBelow(a, b, i)
    decreases |a|
  {
    if Less(a, b) {
      if |a| == 0 || a[0] != b[0] {
        assert FirstDifferenceBelow(a, b, 0);
      } else {
        LessIsFirstDifference(a[1..], b[1..]);
        var j: nat :| FirstDifferenceBelow(a[1..], b[1..], j);
        assert a[..j + 1] == [a[0]] + a[1..][..j];
        assert b[..j + 1] == [b[0]] + b[1..][..j];
        assert FirstDifferenceBelow(a, b, j + 1);
      }
    }
    if exists i: nat :: FirstDifferenceBelow(a, b, i) {
      var i: nat :| FirstDifferenceBelow(a, b, i);
      if i > 0 {
        assert a[0] == a[..i][0] == b[..i][0] == b[0];
        assert a[1..][..i - 1] == a[..i][1..] == b[..i][1..] == b[1..][..i - 1];
        assert FirstDifferenceBelow(a[1..], b[1..], i - 1);
        LessIsFirstDifference(a[1..], b[1..]);
      }
    }
  }

  /** `not (b < a)` is the same as `a <= b`: the comparison `sorted` relies on. */
  lemma NotLessIsLessEq(a: string, b: string)
    ensures !Less(b, a) <==> LessEq(a, b)
  {
    LessTrichotomous(a, b);
    LessAsymmetric(a, b);
    LessIrreflexive(a);
  }

  /** `LessEq` is a total order: reflexive, antisymmetric, transitive and total. */
  lemma LessEqTotalOrder(a: string, b: string, c: string)
    ensures LessEq(a, a)
    ensures LessEq(a, b) && LessEq(b, a) ==> a == b
    ensures LessEq(a, b) && LessEq(b, c) ==> LessEq(a, c)
    ensures LessEq(a, b) || LessEq(b, a)
  {
    LessTrichotomous(a, b);
    LessAsymmetric(a, b);
    if Less(a, b) && Less(b, c) {
      LessTransitive(a, b, c);
    }
  }

  /** Python's `sep.join(xs)`. */
  function Join(xs: seq<string>, sep: string): (r: string)
    ensures |xs| == 0 ==> r == ""
    ensures |xs| == 1 ==> r == xs[0]
    ensures |xs| > 0 ==> StartsWith(r, xs[0]) && EndsWith(r, xs[|xs| - 1])
    ensures |xs| > 1 ==> StartsWith(r, xs[0] + sep)
  {
    if |xs| == 0 then ""
    else if |xs| == 1 then xs[0]
    else xs[0] + sep + Join(xs[1..], sep)
  }

  /** `p` occurs in `s` starting at index `i`. */
  predicate OccursAt(s: string, p: string, i: nat)
  {
    i + |p| <= |s| && s[i..i + |p|] == p
  }

  /** Python's `p in s` for strings. */
  predicate Contains(s: string, p: string)
  {
    exists i: nat | i <= |s| :: OccursAt(s, p, i)
  }

  /** No proper prefix of `sep` is also a suffix of it, so two occurrences of
      `sep` can never overlap (true of ", " and of every one-character string). */
  predicate BorderFree(sep: string)
  {
    forall k :: 0 < k < |sep| ==> sep[..k] != sep[|sep| - k..]
  }

  /** Python's `s.split(sep)` for a non-empty separator: the pieces between
      successive left-to-right occurrences of `sep`. */
  function Split(s: string, sep: string): (r: seq<string>)
    requires |sep| > 0
    ensures |r| > 0
    decreases |s|
  {
    if |s| < |sep| then [s]
    else if s[..|sep|] == sep then [""] + Split(s[|sep|..], sep)
    else
      var rest := Split(s[1..], sep);
      [[s[0]] + rest[0]] + rest[1..]
  }

  /** A prefix in which no occurrence of `sep` starts is glued to the first piece. */
  lemma {:induction false} SplitSkip(x: string, t: string, sep: string)
    requires |sep| > 0
    requires forall i :: 0 <= i < |x| ==> !OccursAt(x + t, sep, i)
    ensures Split(x + t, sep) == [x + Split(t, sep)[0]] + Split(t, sep)[1..]
    decreases |x|
  {
    var s := x + t;
    if |x| == 0 {
      assert s == t;
      var r := Split(t, sep);
      assert x + r[0] == r[0];
      assert [r[0]] + r[1..] == r;
    } else {
      assert !OccursAt(s, sep, 0);
      if |s| < |sep| {
        assert Split(t, sep) == [t];
      } else {
        assert s[1..] == x[1..] + t;
        forall i | 0 <= i < |x[1..]|
          ensures !OccursAt(x[1..] + t, sep, i)
        {
          assert !OccursAt(s, sep, i + 1);
          if i + |sep| <= |x[1..] + t| {
            assert (x[1..] + t)[i..i + |sep|] == s[i + 1..i + 1 + |sep|];
          }
        }
        SplitSkip(x[1..], t, sep);
        assert [s[0]] + (x[1..] + Split(t, sep)[0]) == x + Split(t, sep)[0];
      }
    }
  }

  /** A piece free of `sep` followed by `sep` cannot hide an earlier occurrence. */
  lemma NoOccurrenceBeforeSeparator(x: string, sep: string, rest: string)
    requires |sep| > 0 && BorderFree(sep) && !Contains(x, sep)
    ensures forall i :: 0 <= i < |x| ==> !OccursAt(x + sep + rest, sep, i)
  {
    var s := x + sep + rest;
    forall i | 0 <= i < |x|
      ensures !OccursAt(s, sep, i)
    {
      if i + |sep| <= |x| {
        assert s[i..i + |sep|] == x[i..i + |sep|];
        assert !OccursAt(x, sep, i);
      } else {
        var d := |x| - i;
        var k := |sep| - d;
        assert s[i..i + |sep|] == x[i..] + sep[..k];
        assert sep[..k] != sep[|sep| - k..];
        assert s[i..i + |sep|][d..] == sep[..k];
      }
    }
  }

  /** A piece free of `sep`, then `sep`, then anything: the piece comes off first. */
  lemma SplitPieceThenSeparator(x: string, sep: string, tail: string)
    requires |sep| > 0 && BorderFree(sep) && !Contains(x, sep)
    ensures Split(x + sep + tail, sep) == [x] + Split(tail, sep)
  {
    NoOccurrenceBeforeSeparator(x, sep, tail);
    assert x + sep + tail == x + (sep + tail);
    SplitSkip(x, sep + tail, sep);
    assert (sep + tail)[..|sep|] == sep && (sep + tail)[|sep|..] == tail;
    var pieces := Split(sep + tail, sep);
    assert pieces == [""] + Split(tail, sep);
    assert pieces[0] == "" && pieces[1..] == Split(tail, sep);
    assert x + pieces[0] == x;
  }

  /** `split` undoes `join` when no piece contains the separator. */
  lemma {:induction false} SplitJoin(xs: seq<string>, sep: string)
    requires |xs| > 0 && |sep| > 0 && BorderFree(sep)
    requires forall i :: 0 <= i < |xs| ==> !Contains(xs[i], sep)
    ensures Split(Join(xs, sep), sep) == xs
    decreases |xs|
  {
    if |xs| == 1 {
      assert Split(xs[0] + "", sep) == [xs[0] + Split("", sep)[0]] + Split("", sep)[1..] by {
        assert xs[0] + "" == xs[0];
        assert !Contains(xs[0], sep);
        SplitSkip(xs[0], "", sep);
      }
      assert Split("", sep) == [""];
      assert xs[0] + "" == xs[0];
      assert xs == [xs[0]];
    } else {
      var tail := Join(xs[1..], sep);
      assert Split(Join(xs, sep), sep) == [xs[0]] + Split(tail, sep) by {
        assert Join(xs, sep) == xs[0] + sep + tail;
        SplitPieceThenSeparator(xs[0], sep, tail);
      }
      assert Split(tail, sep) == xs[1..] by {
        SplitJoin(xs[1..], sep);
      }
      assert xs == [xs[0]] + xs[1..];
    }
  }

  /** A string without character `c` does not contain the one-character string `[c]`. */
  lemma AbsentCharNotContained(s: string, c: char)
    requires c !in s
    ensures !Contains(s, [c])
  {
    forall i: nat | i <= |s|
      ensures !OccursAt(s, [c], i)
    {
      if i + 1 <= |s| {
        assert s[i..i + 1] == [s[i]];
      }
    }
  }

  /** The separator `", "` is border-free. */
  lemma CommaSpaceBorderFree()
    ensures BorderFree(", ")
  {
    var sep := ", ";
    forall k | 0 < k < |sep|
      ensures sep[..k] != sep[|sep| - k..]
    {
      assert sep[..k][0] == ',' && sep[|sep| - k..][0] == ' ';
    }
  }

  /** Every one-character separator is border-free. */
  lemma SingleCharBorderFree(c: char)
    ensures BorderFree([c])
  {
  }

  /** Python's `s.find(p, start)`: the leftmost occurrence of `p` at or after `start`. */
  function Find(s: string, p: string, start: nat): (r: Option<nat>)
    ensures r.Some? ==> start <= r.value && OccursAt(s, p, r.value)
    ensures r.Some? ==> forall i: nat :: start <= i < r.value ==> !OccursAt(s, p, i)
    ensures r.None? ==> forall i: nat :: start <= i ==> !OccursAt(s, p, i)
    decreases |s| - start
  {
    if start + |p| > |s| then None
    else if OccursAt(s, p, start) then Some(start)
    else Find(s, p, start + 1)
  }

  /** Python's `s.rfind(p, 0, bound + |p|)`: the rightmost occurrence of `p`
      starting at or before `bound`. */
  function FindLast(s: string, p: string, bound: nat): (r: Option<nat>)
    ensures r.Some? ==> r.value <= bound && OccursAt(s, p, r.value)
    ensures r.Some? ==> forall i: nat :: r.value < i <= bound ==> !OccursAt(s, p, i)
    ensures r.None? ==> forall i: nat :: i <= bound ==> !OccursAt(s, p, i)
    decreases bound
  {
    if OccursAt(s, p, bound) then Some(bound)
    else if bound == 0 then None
    else FindLast(s, p, bound - 1)
  }

  /** Ends with the given suffix. */
  predicate EndsWith(s: string, suffix: string)
  {
    |suffix| <= |s| && s[|s| - |suffix|..] == suffix
  }

  /** Starts with the given prefix. */
  predicate StartsWith(s: string, prefix: string)
  {
    |prefix| <= |s| && s[..|prefix|] == prefix
  }
}
