/**
 * Python's ordering of `str` values (lexicographic by code point, a proper
 * prefix before its extensions), strictly increasing sequences of strings,
 * and insertion into such a sequence: what `sorted` does to a set of strings.
 */
module StringOrder {

  /** `a < b` on Python strings: a proper prefix comes before its extensions. */
  predicate Less(a: string, b: string)
    ensures |a| < |b| && a == b[..|a|] ==> Less(a, b)
    ensures |a| > 0 && |b| > 0 && a[0] < b[0] ==> Less(a, b)
    decreases |a|
  {
    if |a| == 0 then |b| > 0
    else if |b| == 0 then false
    else if a[0] != b[0] then a[0] < b[0]
    else Less(a[1..], b[1..])
  }

  lemma {:induction false} LessIrreflexive(a: string)
    ensures !Less(a, a)
    decreases |a|
  {
    if |a| > 0 {
      LessIrreflexive(a[1..]);
    }
  }

  lemma {:induction false} LessTransitive(a: string, b: string, c: string)
    requires Less(a, b) && Less(b, c)
    ensures Less(a, c)
    decreases |a|
  {
    if |a| > 0 && a[0] == b[0] && b[0] == c[0] {
      LessTransitive(a[1..], b[1..], c[1..]);
    }
  }

  /** Any two different strings are ordered one way or the other. */
  lemma {:induction false} LessTotal(a: string, b: string)
    requires a != b
    ensures Less(a, b) || Less(b, a)
    decreases |a|
  {
    if |a| > 0 && |b| > 0 && a[0] == b[0] {
      assert a == [a[0]] + a[1..] && b == [b[0]] + b[1..];
      LessTotal(a[1..], b[1..]);
    }
  }

  /** Sorted ascending with no duplicates. */
  predicate StrictlySorted(s: seq<string>) {
    forall i, j :: 0 <= i < j < |s| ==> Less(s[i], s[j])
  }

  /** A strictly sorted sequence holds every element at most once. */
  lemma StrictlySortedDistinct(s: seq<string>)
    requires StrictlySorted(s)
    ensures forall i, j :: 0 <= i < |s| && 0 <= j < |s| && i != j ==> s[i] != s[j]
  {
    forall i, j | 0 <= i < |s| && 0 <= j < |s| && i != j
      ensures s[i] != s[j]
    {
      if i < j {
        LessIrreflexive(s[i]);
      } else {
        LessIrreflexive(s[j]);
      }
    }
  }

  /** Prepending an element below every element keeps a sequence strictly sorted. */
  lemma ConsSorted(h: string, t: seq<string>)
    requires StrictlySorted(t)
    requires forall y :: y in t ==> Less(h, y)
    ensures StrictlySorted([h] + t)
  {
  }

  /** An element below the head of a strictly sorted sequence is below all of it. */
  lemma BelowHead(x: string, s: seq<string>)
    requires StrictlySorted(s) && |s| > 0 && Less(x, s[0])
    ensures forall y :: y in s ==> Less(x, y)
  {
    forall y | y in s
      ensures Less(x, y)
    {
      if y != s[0] {
        LessTransitive(x, s[0], y);
      }
    }
  }

  /** Inserts `x` at its place in a strictly sorted sequence, unless it is there already. */
  function Insert(s: seq<string>, x: string): (r: seq<string>)
    requires StrictlySorted(s)
    ensures StrictlySorted(r)
    ensures forall y :: y in r <==> y in s || y == x
    decreases |s|
  {
    if |s| == 0 then [x]
    else if x == s[0] then s
    else if Less(x, s[0]) then
      BelowHead(x, s);
      ConsSorted(x, s);
      [x] + s
    else
      LessTotal(x, s[0]);
      var rest := Insert(s[1..], x);
      assert forall y :: y in rest ==> Less(s[0], y) by {
        forall y | y in rest
          ensures Less(s[0], y)
        {
          if y != x {
            var k :| 0 <= k < |s[1..]| && s[1..][k] == y;
            assert s[k + 1] == y;
          }
        }
      }
      ConsSorted(s[0], rest);
      [s[0]] + rest
  }

  /** No two strings are each below the other. */
  lemma {:induction false} LessAsymmetric(a: string, b: string)
    ensures !(Less(a, b) && Less(b, a))
    decreases |a|
  {
    if |a| > 0 && |b| > 0 && a[0] == b[0] {
      LessAsymmetric(a[1..], b[1..]);
    }
  }

  /** The head of a strictly sorted list is below none of its other members. */
  lemma HeadIsLeast(x: string, b: seq<string>)
    requires StrictlySorted(b) && x in b
    ensures !Less(x, b[0])
  {
    var k :| 0 <= k < |b| && b[k] == x;
    if k == 0 {
      LessIrreflexive(x);
    } else {
      LessAsymmetric(b[0], x);
    }
  }

  /**
   * Two strictly sorted lists with the same members are the same list: the
   * result of `sorted` on a set does not depend on the sorting algorithm.
   */
  lemma {:induction false} StrictlySortedUnique(a: seq<string>, b: seq<string>)
    requires StrictlySorted(a) && StrictlySorted(b)
    requires forall t :: t in a <==> t in b
    ensures a == b
    decreases |a|
  {
    assert |a| > 0 ==> a[0] in a;
    assert |b| > 0 ==> b[0] in b;
    if |a| > 0 && |b| > 0 {
      HeadIsLeast(a[0], b);
      HeadIsLeast(b[0], a);
      if a[0] != b[0] {
        LessTotal(a[0], b[0]);
        assert false;
      }
      LessIrreflexive(a[0]);
      forall t | t in a[1..]
        ensures t in b[1..]
      {
        var i :| 0 <= i < |a[1..]| && a[1..][i] == t;
        assert Less(a[0], a[i + 1]);
        assert t in b;
        var j :| 0 <= j < |b| && b[j] == t;
        assert j != 0;
        assert b[1..][j - 1] == t;
      }
      forall t | t in b[1..]
        ensures t in a[1..]
      {
        var j :| 0 <= j < |b[1..]| && b[1..][j] == t;
        assert Less(b[0], b[j + 1]);
        assert t in a;
        var i :| 0 <= i < |a| && a[i] == t;
        assert i != 0;
        assert a[1..][i - 1] == t;
      }
      StrictlySortedUnique(a[1..], b[1..]);
      assert a == [a[0]] + a[1..] && b == [b[0]] + b[1..];
    }
  }
}
