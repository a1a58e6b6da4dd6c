/** Python's ordering of `str` values (code point by code point, a proper
    prefix first) and `sorted()` applied to a set of strings. */
module StringOrder {

  predicate ProperPrefix(a: string, b: string) {
    |a| < |b| && a == b[..|a|]
  }

  /** `a` and `b` agree up to some position where `a` has the smaller code point. */
  predicate FirstDiffLower(a: string, b: string) {
    exists k :: 0 <= k < |a| && k < |b| && a[..k] == b[..k] && a[k] < b[k]
  }

  /** How the two ways `a` can come first behave on the first characters. */
  lemma FirstCharacter(a: string, b: string)
    ensures a == [] ==> (ProperPrefix(a, b) <==> b != []) && !FirstDiffLower(a, b)
    ensures a != [] && b == [] ==> !ProperPrefix(a, b) && !FirstDiffLower(a, b)
    ensures a != [] && b != [] && a[0] < b[0] ==> FirstDiffLower(a, b)
    ensures a != [] && b != [] && a[0] > b[0] ==> !ProperPrefix(a, b) && !FirstDiffLower(a, b)
    ensures a != [] && b != [] && a[0] == b[0] ==>
      (ProperPrefix(a, b) <==> ProperPrefix(a[1..], b[1..])) &&
      (FirstDiffLower(a, b) <==> FirstDiffLower(a[1..], b[1..]))
  {
    if a != [] && b != [] {
      if a[0] < b[0] {
        assert a[..0] == b[..0];
      } else if a[0] == b[0] {
        var a', b' := a[1..], b[1..];
        if ProperPrefix(a, b) {
          assert a' == b'[..|a'|];
        }
        if ProperPrefix(a', b') {
          assert a == [a[0]] + a' && b[..|a|] == [b[0]] + b'[..|a'|];
        }
        if FirstDiffLower(a, b) {
          var k :| 0 <= k < |a| && k < |b| && a[..k] == b[..k] && a[k] < b[k];
          assert k > 0;
          assert a'[..k - 1] == a[..k][1..] && b'[..k - 1] == b[..k][1..];
          assert a'[k - 1] == a[k] && b'[k - 1] == b[k];
        }
        if FirstDiffLower(a', b') {
          var k :| 0 <= k < |a'| && k < |b'| && a'[..k] == b'[..k] && a'[k] < b'[k];
          assert a[..k + 1] == [a[0]] + a'[..k] && b[..k + 1] == [b[0]] + b'[..k];
          assert a[k + 1] == a'[k] && b[k + 1] == b'[k];
        }
      }
    }
  }

  /** `a < b` on Python strings: `a` is a proper prefix of `b`, or the two
      first differ at a position where `a` has the smaller code point. */
  predicate Less(a: string, b: string)
    ensures Less(a, b) <==> ProperPrefix(a, b) || FirstDiffLower(a, b)
    decreases |a|
  {
    FirstCharacter(a, b);
    if a == [] then b != []
    else b != [] && (a[0] < b[0] || (a[0] == b[0] && Less(a[1..], b[1..])))
  }

  lemma {:induction false} LessIrreflexive(a: string)
    ensures !Less(a, a)
    decreases |a|
  {
    if a != [] {
      LessIrreflexive(a[1..]);
    }
  }

  lemma {:induction false} LessTransitive(a: string, b: string, c: string)
    requires Less(a, b) && Less(b, c)
    ensures Less(a, c)
    decreases |a|
  {
    if a != [] && a[0] == b[0] && b[0] == c[0] {
      LessTransitive(a[1..], b[1..], c[1..]);
    }
  }

  lemma {:induction false} LessTrichotomy(a: string, b: string)
    ensures Less(a, b) || a == b || Less(b, a)
    decreases |a|
  {
    if a != [] && b != [] && a[0] == b[0] {
      LessTrichotomy(a[1..], b[1..]);
      if a[1..] == b[1..] {
        assert a == [a[0]] + a[1..] && b == [b[0]] + b[1..];
      }
    }
  }

  predicate StrictlySorted(s: seq<string>) {
    forall i, j :: 0 <= i < j < |s| ==> Less(s[i], s[j])
  }

  predicate IsLeast(x: string, s: set<string>) {
    x in s && forall y :: y in s && y != x ==> Less(x, y)
  }

  /** Every non-empty finite set of strings has a least element. */
  lemma {:induction false} LeastExists(s: set<string>)
    requires s != {}
    ensures exists x :: IsLeast(x, s)
    decreases |s|
  {
    var y :| y in s;
    if s == {y} {
      assert IsLeast(y, s);
    } else {
      LeastExists(s - {y});
      var x :| IsLeast(x, s - {y});
      LessTrichotomy(x, y);
      if Less(x, y) {
        assert IsLeast(x, s);
      } else {
        forall z | z in s && z != y ensures Less(y, z) {
          if z != x {
            LessTransitive(y, x, z);
          }
        }
        assert IsLeast(y, s);
      }
    }
  }

  lemma LeastUnique(x: string, x': string, s: set<string>)
    requires IsLeast(x, s) && IsLeast(x', s)
    ensures x == x'
  {
    if x != x' {
      LessIrreflexive(x);
      LessTransitive(x, x', x);
    }
  }

  /** `sorted(s)` for a set of strings: the elements of `s`, each once, in
      increasing order. */
  function Sorted(s: set<string>): (r: seq<string>)
    ensures StrictlySorted(r)
    ensures |r| == |s|
    ensures forall x :: x in r <==> x in s
    decreases |s|
  {
    if s == {} then []
    else
      LeastExists(s);
      LeastUniqueAll(s);
      var x :| IsLeast(x, s);
      var rest := Sorted(s - {x});
      assert forall i :: 0 <= i < |rest| ==> rest[i] in rest;
      [x] + rest
  }

  lemma LeastUniqueAll(s: set<string>)
    ensures forall x, x' :: IsLeast(x, s) && IsLeast(x', s) ==> x == x'
  {
    forall x, x' | IsLeast(x, s) && IsLeast(x', s) ensures x == x' {
      LeastUnique(x, x', s);
    }
  }

  /** There is only one strictly increasing listing of a set of strings, so
      `Sorted` is the order Python's `sorted()` produces. */
  lemma {:induction false} SortedUnique(r: seq<string>, r': seq<string>)
    requires StrictlySorted(r) && StrictlySorted(r')
    requires forall x :: x in r <==> x in r'
    ensures r == r'
    decreases |r|
  {
    // one is empty exactly when the other is
    if r != [] {
      assert r[0] in r';
    }
    if r' != [] {
      assert r'[0] in r;
    }
    if r != [] {
      // both heads are the least element of the common set
      if r[0] != r'[0] {
        assert r'[0] in r && r[0] in r';
        var i :| 0 <= i < |r| && r[i] == r'[0];
        var j :| 0 <= j < |r'| && r'[j] == r[0];
        assert i != 0 && j != 0;
        LessTransitive(r[0], r'[0], r[0]);
        LessIrreflexive(r[0]);
      }
      assert r == [r[0]] + r[1..] && r' == [r'[0]] + r'[1..];
      // an element after the head is larger than the head, so it is not the head
      forall x | x in r[1..] ensures x in r'[1..] {
        var i :| 1 <= i < |r| && r[i] == x;
        assert Less(r[0], x);
        LessIrreflexive(x);
        assert x in r';
      }
      forall x | x in r'[1..] ensures x in r[1..] {
        var i :| 1 <= i < |r'| && r'[i] == x;
        assert Less(r'[0], x);
        LessIrreflexive(x);
        assert x in r;
      }
      SortedUnique(r[1..], r'[1..]);
    }
  }
}
