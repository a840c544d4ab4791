/**
 * The order Python's `sorted()` puts file names in: `str` comparison, which is
 * lexicographic by code point. Dafny's own `<` on sequences means "proper
 * prefix", so the order is defined here, together with the sorted listing of a
 * set of names (what `sorted(listdir(...))` returns for a directory).
 */
module LexOrder {

  /** Python's `a < b` on strings: first differing code point decides; a proper prefix is smaller. */
  predicate LexLess(a: string, b: string)
    decreases |a|
  {
    |b| > 0 && (|a| == 0 || a[0] < b[0] || (a[0] == b[0] && LexLess(a[1..], b[1..])))
  }

  /** `a` sorts before `b` by the rule stated outright: a proper prefix, or a smaller code point where they first differ. */
  predicate FirstDifferenceLess(a: string, b: string)
  {
    || (|a| < |b| && a == b[..|a|])
    || exists k :: 0 <= k < |a| && k < |b| && a[..k] == b[..k] && a[k] < b[k]
  }

  lemma {:induction false} LexLessIsFirstDifference(a: string, b: string)
    ensures LexLess(a, b) <==> FirstDifferenceLess(a, b)
    decreases |a|
  {
    if |a| == 0 || |b| == 0 {
      return;
    }
    // a first difference past position 0 needs equal first code points
    forall k | 0 < k <= |a| && k <= |b| && a[..k] == b[..k]
      ensures a[0] == b[0]
    {
      SharedPrefixSameHead(a, b, k);
    }
    if a[0] < b[0] {
      assert a[..0] == b[..0];
    } else if a[0] == b[0] {
      var a', b' := a[1..], b[1..];
      LexLessIsFirstDifference(a', b');
      assert a == [a[0]] + a' && b == [b[0]] + b';
      if FirstDifferenceLess(a', b') {
        if |a'| < |b'| && a' == b'[..|a'|] {
          assert a == b[..|a|];
        } else {
          var k :| 0 <= k < |a'| && k < |b'| && a'[..k] == b'[..k] && a'[k] < b'[k];
          assert a[..k + 1] == [a[0]] + a'[..k] && b[..k + 1] == [b[0]] + b'[..k];
          assert a[k + 1] < b[k + 1];
        }
      }
      if FirstDifferenceLess(a, b) {
        if |a| < |b| && a == b[..|a|] {
          forall j | 0 <= j < |a'|
            ensures a'[j] == b'[j]
          {
            assert a'[j] == b[..|a|][j + 1];
          }
          assert a' == b'[..|a'|];
        } else {
          var k :| 0 <= k < |a| && k < |b| && a[..k] == b[..k] && a[k] < b[k];
          assert k > 0;
          assert a'[..k - 1] == a[..k][1..] && b'[..k - 1] == b[..k][1..];
          assert a'[k - 1] < b'[k - 1];
        }
      }
    }
  }

  lemma SharedPrefixSameHead(a: string, b: string, k: nat)
    requires 0 < k <= |a| && k <= |b| && a[..k] == b[..k]
    ensures a[0] == b[0]
  {
    assert a[..k][0] == b[..k][0];
  }

  lemma {:induction false} LexLessIrreflexive(a: string)
    ensures !LexLess(a, a)
    decreases |a|
  {
    if |a| > 0 {
      LexLessIrreflexive(a[1..]);
    }
  }

  lemma {:induction false} LexLessTransitive(a: string, b: string, c: string)
    requires LexLess(a, b) && LexLess(b, c)
    ensures LexLess(a, c)
    decreases |a|
  {
    if |a| > 0 && a[0] == b[0] && b[0] == c[0] {
      LexLessTransitive(a[1..], b[1..], c[1..]);
    }
  }

  /** Any two distinct names are ordered one way or the other. */
  lemma {:induction false} LexLessTotal(a: string, b: string)
    ensures a != b ==> LexLess(a, b) || LexLess(b, a)
    decreases |a|
  {
    if |a| > 0 && |b| > 0 && a[0] == b[0] {
      assert a == [a[0]] + a[1..] && b == [b[0]] + b[1..];
      LexLessTotal(a[1..], b[1..]);
    }
  }

  lemma LexLessAsymmetric(a: string, b: string)
    ensures LexLess(a, b) ==> !LexLess(b, a)
  {
    if LexLess(a, b) && LexLess(b, a) {
      LexLessTransitive(a, b, a);
      LexLessIrreflexive(a);
    }
  }

  /** Unlike Dafny's `<` (proper prefix), the order also decides between names that share no prefix. */
  lemma {:induction false} ProperPrefixIsLexLess(a: string, b: string)
    requires a < b
    ensures LexLess(a, b)
    decreases |a|
  {
    if |a| > 0 {
      assert a[1..] < b[1..];
      ProperPrefixIsLexLess(a[1..], b[1..]);
    }
  }

  function Elems(s: seq<string>): set<string>
  {
    set x | x in s
  }

  /** Strictly ascending: what `sorted()` yields for names that are distinct, as directory entries are. */
  ghost predicate StrictlySorted(s: seq<string>)
  {
    forall i, j | 0 <= i < j < |s| :: LexLess(s[i], s[j])
  }

  predicate IsLeast(m: string, s: set<string>)
  {
    m in s && forall y | y in s :: y == m || LexLess(m, y)
  }

  lemma {:induction false} LeastExists(s: set<string>)
    requires s != {}
    ensures exists m :: IsLeast(m, s)
    decreases |s|
  {
    var x :| x in s;
    if s == {x} {
      assert IsLeast(x, s);
    } else {
      var rest := s - {x};
      LeastExists(rest);
      var m :| IsLeast(m, rest);
      LexLessTotal(x, m);
      if LexLess(x, m) {
        forall y | y in s
          ensures y == x || LexLess(x, y)
        {
          if y != x && y != m {
            LexLessTransitive(x, m, y);
          }
        }
        assert IsLeast(x, s);
      } else {
        assert IsLeast(m, s);
      }
    }
  }

  lemma LeastUnique(m: string, n: string, s: set<string>)
    requires IsLeast(m, s) && IsLeast(n, s)
    ensures m == n
  {
    LexLessAsymmetric(m, n);
  }

  ghost function Least(s: set<string>): (m: string)
    requires s != {}
    ensures IsLeast(m, s)
  {
    LeastExists(s);
    var m :| IsLeast(m, s); m
  }

  /** `sorted()` of a directory listing: the names of `s`, ascending. */
  ghost function Listing(s: set<string>): (r: seq<string>)
    ensures StrictlySorted(r) && Elems(r) == s
    decreases |s|
  {
    if s == {} then []
    else
      var m := Least(s);
      var tail := Listing(s - {m});
      assert Elems([m] + tail) == {m} + Elems(tail);
      ConsSorted(m, tail);
      [m] + tail
  }

  lemma ConsSorted(m: string, tail: seq<string>)
    requires StrictlySorted(tail)
    requires forall x | x in Elems(tail) :: LexLess(m, x)
    ensures StrictlySorted([m] + tail)
  {
    var r := [m] + tail;
    forall i, j | 0 <= i < j < |r|
      ensures LexLess(r[i], r[j])
    {
      assert r[j] == tail[j - 1] && r[j] in Elems(tail);
      if i > 0 {
        assert r[i] == tail[i - 1];
      }
    }
  }

  /** A strictly sorted sequence is determined by its elements, so any listing order sorts to the same list. */
  lemma {:induction false} SortedUnique(a: seq<string>, b: seq<string>)
    requires StrictlySorted(a) && StrictlySorted(b) && Elems(a) == Elems(b)
    ensures a == b
    decreases |a|
  {
    NoElemsIsEmpty(a);
    NoElemsIsEmpty(b);
    if a != [] && b != [] {
      LeastOfSorted(a);
      LeastOfSorted(b);
      LeastUnique(a[0], b[0], Elems(a));
      TailElems(a);
      TailElems(b);
      SortedUnique(a[1..], b[1..]);
      assert a == [a[0]] + a[1..] && b == [b[0]] + b[1..];
    }
  }

  lemma NoElemsIsEmpty(a: seq<string>)
    ensures Elems(a) == {} ==> a == []
  {
    if a != [] {
      assert a[0] in Elems(a);
    }
  }

  lemma LeastOfSorted(a: seq<string>)
    requires StrictlySorted(a) && a != []
    ensures IsLeast(a[0], Elems(a))
  {
  }

  lemma TailElems(a: seq<string>)
    requires StrictlySorted(a) && a != []
    ensures StrictlySorted(a[1..]) && Elems(a[1..]) == Elems(a) - {a[0]}
  {
    LexLessIrreflexive(a[0]);
    assert a == [a[0]] + a[1..];
  }

  /** What holds after each selection: `r` is the sorted prefix, and every name left in `rest` comes after it. */
  ghost predicate SelectionInvariant(names: set<string>, r: seq<string>, rest: set<string>)
  {
    && StrictlySorted(r)
    && Elems(r) + rest == names && Elems(r) !! rest
    && forall i, y | 0 <= i < |r| && y in rest :: LexLess(r[i], y)
  }

  lemma SelectLeast(names: set<string>, r: seq<string>, rest: set<string>, m: string)
    requires SelectionInvariant(names, r, rest) && IsLeast(m, rest)
    ensures SelectionInvariant(names, r + [m], rest - {m})
  {
    var r', rest' := r + [m], rest - {m};
    assert Elems(r') == Elems(r) + {m};
    forall i, y | 0 <= i < |r'| && y in rest'
      ensures LexLess(r'[i], y)
    {
      if i < |r| {
        assert r'[i] == r[i];
      }
    }
  }

  /** `sorted(listdir(...))`: selects the least remaining name until none is left. */
  method SortedNames(names: set<string>) returns (r: seq<string>)
    ensures r == Listing(names)
  {
    r := [];
    var rest := names;
    while rest != {}
      invariant SelectionInvariant(names, r, rest)
      decreases |rest|
    {
      LeastExists(rest);
      var m :| IsLeast(m, rest);
      SelectLeast(names, r, rest, m);
      r := r + [m];
      rest := rest - {m};
    }
    SortedUnique(r, Listing(names));
  }
}
