/**
 * The order in which room names are listed: lexicographic by code point,
 * a proper prefix sorting first. Includes a function that lists a finite
 * set of names in strictly ascending order.
 */
module Lex {

  /** `a` sorts no later than `b`. */
  predicate Le(a: string, b: string)
    decreases |a|
  {
    |a| == 0 || (|b| > 0 && (a[0] < b[0] || (a[0] == b[0] && Le(a[1..], b[1..]))))
  }

  /** `a` sorts strictly before `b`. */
  predicate Lt(a: string, b: string) {
    Le(a, b) && a != b
  }

  lemma {:induction false} LeReflexive(a: string)
    ensures Le(a, a)
    decreases |a|
  {
    if |a| > 0 {
      LeReflexive(a[1..]);
    }
  }

  lemma {:induction false} LeAntisymmetric(a: string, b: string)
    requires Le(a, b) && Le(b, a)
    ensures a == b
    decreases |a|
  {
    if |a| > 0 {
      LeAntisymmetric(a[1..], b[1..]);
      assert a == [a[0]] + a[1..];
      assert b == [b[0]] + b[1..];
    }
  }

  lemma {:induction false} LeTransitive(a: string, b: string, c: string)
    requires Le(a, b) && Le(b, c)
    ensures Le(a, c)
    decreases |a|
  {
    if |a| > 0 && a[0] == b[0] && b[0] == c[0] {
      LeTransitive(a[1..], b[1..], c[1..]);
    }
  }

  lemma {:induction false} LeTotal(a: string, b: string)
    ensures Le(a, b) || Le(b, a)
    decreases |a|
  {
    if |a| > 0 && |b| > 0 && a[0] == b[0] {
      LeTotal(a[1..], b[1..]);
    }
  }

  /** Every element of `s` sorts strictly before every later element. */
  predicate StrictlyAscending(s: seq<string>) {
    forall i, j :: 0 <= i < j < |s| ==> Lt(s[i], s[j])
  }

  /** `m` is the first of `names` in this order. */
  predicate IsLeast(m: string, names: set<string>) {
    m in names && forall k :: k in names ==> Le(m, k)
  }

  lemma {:induction false} LeastExists(names: set<string>)
    requires names != {}
    ensures exists m :: IsLeast(m, names)
    decreases |names|
  {
    var x :| x in names;
    var rest := names - {x};
    if rest == {} {
      LeReflexive(x);
      assert names == {x};
      assert IsLeast(x, names);
    } else {
      LeastExists(rest);
      var m :| IsLeast(m, rest);
      LeTotal(m, x);
      if Le(m, x) {
        assert IsLeast(m, names);
      } else {
        LeReflexive(x);
        forall k | k in names
          ensures Le(x, k)
        {
          if k != x {
            LeTransitive(x, m, k);
          }
        }
        assert IsLeast(x, names);
      }
    }
  }

  lemma LeastUnique(names: set<string>)
    ensures forall m, m' :: IsLeast(m, names) && IsLeast(m', names) ==> m == m'
  {
    forall m, m' | IsLeast(m, names) && IsLeast(m', names)
      ensures m == m'
    {
      LeAntisymmetric(m, m');
    }
  }

  /** The names of a finite set, each exactly once, in ascending order. */
  function Ascending(names: set<string>): (r: seq<string>)
    ensures |r| == |names|
    ensures forall k :: k in r <==> k in names
    ensures StrictlyAscending(r)
    decreases |names|
  {
    if names == {} then []
    else
      LeastExists(names);
      LeastUnique(names);
      var m :| IsLeast(m, names);
      var tail := Ascending(names - {m});
      assert forall j :: 0 <= j < |tail| ==> Lt(m, tail[j]) by {
        forall j | 0 <= j < |tail|
          ensures Lt(m, tail[j])
        {
          assert tail[j] in tail;
        }
      }
      [m] + tail
  }
}
