/** The ordering Python's `sorted` uses on strings (code point by code point, a
    proper prefix before its extensions), and the sorted enumeration of a finite
    set of names that fixes the column order of a factorial design. */
module LexOrder {

  /** `a` sorts no later than `b`. */
  predicate Le(a: string, b: string)
    decreases |a|
  {
    |a| == 0 || (|b| != 0 && (a[0] < b[0] || (a[0] == b[0] && Le(a[1..], b[1..]))))
  }

  lemma {:induction false} LeReflexive(a: string)
    ensures Le(a, a)
    decreases |a|
  {
    if |a| != 0 {
      LeReflexive(a[1..]);
    }
  }

  lemma {:induction false} LeAntisymmetric(a: string, b: string)
    requires Le(a, b) && Le(b, a)
    ensures a == b
    decreases |a|
  {
    if |a| != 0 {
      LeAntisymmetric(a[1..], b[1..]);
      assert a == [a[0]] + a[1..];
      assert b == [b[0]] + b[1..];
    }
  }

  lemma {:induction false} LeTransitive(a: string, b: string, c: string)
    requires Le(a, b) && Le(b, c)
    ensures Le(a, c)
    decreases |a|
  {
    if |a| != 0 && a[0] == b[0] && b[0] == c[0] {
      LeTransitive(a[1..], b[1..], c[1..]);
    }
  }

  lemma {:induction false} LeTotal(a: string, b: string)
    ensures Le(a, b) || Le(b, a)
    decreases |a|
  {
    if |a| != 0 && |b| != 0 && a[0] == b[0] {
      LeTotal(a[1..], b[1..]);
    }
  }

  /** `m` is the member of `s` that sorts first. */
  predicate IsLeast(m: string, s: set<string>)
  {
    m in s && forall x :: x in s ==> Le(m, x)
  }

  lemma {:induction false} LeastExists(s: set<string>)
    requires s != {}
    ensures exists m :: IsLeast(m, s)
    decreases |s|
  {
    var y :| y in s;
    if s == {y} {
      LeReflexive(y);
      assert IsLeast(y, s);
    } else {
      var rest := s - {y};
      LeastExists(rest);
      var m :| IsLeast(m, rest);
      LeTotal(m, y);
      if Le(m, y) {
        assert IsLeast(m, s);
      } else {
        forall x | x in s
          ensures Le(y, x)
        {
          if x == y {
            LeReflexive(y);
          } else {
            LeTransitive(y, m, x);
          }
        }
        assert IsLeast(y, s);
      }
    }
  }

  lemma LeastUnique(s: set<string>)
    ensures forall m, m' :: IsLeast(m, s) && IsLeast(m', s) ==> m == m'
  {
    forall m, m' | IsLeast(m, s) && IsLeast(m', s)
      ensures m == m'
    {
      LeAntisymmetric(m, m');
    }
  }

  /** The first name of `s` in sorted order. */
  function Least(s: set<string>): (m: string)
    requires s != {}
    ensures m in s
    ensures forall x :: x in s ==> Le(m, x)
  {
    LeastExists(s);
    LeastUnique(s);
    var m :| IsLeast(m, s);
    m
  }

  /** Each element sorts strictly before every later one. */
  predicate StrictlyIncreasing(r: seq<string>)
  {
    forall i, j :: 0 <= i < j < |r| ==> Le(r[i], r[j]) && r[i] != r[j]
  }

  /** Python's `sorted(s)` for a set of strings: every member exactly once,
      in increasing order. */
  function Sorted(s: set<string>): (r: seq<string>)
    ensures |r| == |s|
    ensures forall x :: x in r <==> x in s
    ensures StrictlyIncreasing(r)
    decreases |s|
  {
    if s == {} then []
    else
      var m := Least(s);
      var rest := Sorted(s - {m});
      ConsIncreasing(m, s, rest);
      [m] + rest
  }

  /** Putting the least member of `s` before an increasing enumeration of the
      others keeps it increasing. */
  lemma ConsIncreasing(m: string, s: set<string>, rest: seq<string>)
    requires IsLeast(m, s)
    requires StrictlyIncreasing(rest)
    requires forall x :: x in rest <==> x in s - {m}
    ensures StrictlyIncreasing([m] + rest)
  {
    var r := [m] + rest;
    forall i, j | 0 <= i < j < |r|
      ensures Le(r[i], r[j]) && r[i] != r[j]
    {
      assert r[j] == rest[j - 1] && rest[j - 1] in rest;
      if i > 0 {
        assert r[i] == rest[i - 1];
      }
    }
  }

  /** The head of a strictly increasing enumeration of `s` is the least member of `s`. */
  lemma HeadIsLeast(s: set<string>, r: seq<string>)
    requires StrictlyIncreasing(r)
    requires forall x :: x in r <==> x in s
    requires |r| != 0
    ensures IsLeast(r[0], s)
  {
    forall x | x in s
      ensures Le(r[0], x)
    {
      var i :| 0 <= i < |r| && r[i] == x;
      if i == 0 {
        LeReflexive(x);
      }
    }
  }

  /** Dropping the head of a strictly increasing enumeration enumerates the rest of the set. */
  lemma TailEnumerates(s: set<string>, r: seq<string>)
    requires StrictlyIncreasing(r)
    requires forall x :: x in r <==> x in s
    requires |r| != 0
    ensures StrictlyIncreasing(r[1..])
    ensures forall x :: x in r[1..] <==> x in s - {r[0]}
  {
    forall x
      ensures x in r[1..] <==> x in s - {r[0]}
    {
      if x in r[1..] {
        var i :| 1 <= i < |r| && r[i] == x;
        assert r[0] != r[i];
      }
      if x in s - {r[0]} {
        var i :| 0 <= i < |r| && r[i] == x;
        assert r[1..][i - 1] == x;
      }
    }
  }

  /** Sorting leaves no choice: any strictly increasing enumeration of `s`
      is the one `Sorted` returns. */
  lemma {:induction false} SortedIsUnique(s: set<string>, r: seq<string>)
    requires StrictlyIncreasing(r)
    requires forall x :: x in r <==> x in s
    ensures r == Sorted(s)
    decreases |s|
  {
    if |r| == 0 {
      assert s == {};
    } else {
      assert r[0] in s;
      var m := Least(s);
      assert r[0] == m by {
        HeadIsLeast(s, r);
        LeastUnique(s);
      }
      TailEnumerates(s, r);
      SortedIsUnique(s - {m}, r[1..]);
      assert Sorted(s) == [m] + Sorted(s - {m});
      assert r == [r[0]] + r[1..];
    }
  }
}
