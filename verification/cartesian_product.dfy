/** The three list operations a balanced design is built from: the Cartesian
    product of `itertools.product` (last list varying fastest), the "unzip"
    `zip(*rows)` that turns combinations into columns, and the tiling `s * n`
    of a Python list. */
module CartesianProduct {

  /** No element occurs twice. */
  predicate Distinct<T(==)>(s: seq<T>)
  {
    forall i, j :: 0 <= i < j < |s| ==> s[i] != s[j]
  }

  // ---------------------------------------------------------------------------
  // Integer division facts used by the index formulas below.

  lemma MulAtLeast(a: int, d: int)
    requires a >= 1 && d > 0
    ensures a * d >= d
  {
  }

  lemma MulPred(c: int, n: int)
    ensures c * n == n + (c - 1) * n
  {
  }

  lemma PositiveMultiplier(a: int, b: int)
    requires b >= 1 && a * b > 0
    ensures a >= 1
  {
  }

  lemma MulAssoc(x: int, y: int, z: int)
    ensures x * (y * z) == (x * y) * z
  {
  }

  lemma DivModUnique(n: int, d: int, q: int, m: int)
    requires d > 0 && 0 <= m < d && n == q * d + m
    ensures n / d == q && n % d == m
  {
    var q0, m0 := n / d, n % d;
    assert n == q0 * d + m0;
    if q0 > q {
      MulAtLeast(q0 - q, d);
    } else if q0 < q {
      MulAtLeast(q - q0, d);
    }
  }

  /** Adding whole multiples of `d` shifts the quotient and keeps the remainder. */
  lemma DivModShift(a: int, t: int, d: int)
    requires d > 0
    ensures (a * d + t) / d == a + t / d
    ensures (a * d + t) % d == t % d
  {
    DivModUnique(a * d + t, d, a + t / d, t % d);
  }

  /** Reducing modulo a multiple of `s * c` first does not change which block
      of `s` consecutive indices, counted modulo `c`, an index falls in. */
  lemma DivModOfMod(r: int, m: int, c: int, s: int)
    requires r >= 0 && m > 0 && c > 0 && s > 0
    ensures ((r % (m * c * s)) / s) % c == (r / s) % c
  {
    var big := m * c * s;
    var t := r % big;
    var q := r / big;
    assert r == (q * m * c) * s + t by {
      assert r == q * big + t;
    }
    DivModShift(q * m * c, t, s);
    assert r / s == (q * m) * c + t / s;
    DivModShift(q * m, t / s, c);
  }

  // ---------------------------------------------------------------------------
  // Cartesian product.

  /** Every list offers at least one element. */
  predicate AllNonEmpty<T>(ls: seq<seq<T>>)
  {
    forall k :: 0 <= k < |ls| ==> |ls[k]| > 0
  }

  /** The number of combinations: the product of the list lengths. */
  function Size<T>(ls: seq<seq<T>>): (n: nat)
    ensures n > 0 <==> AllNonEmpty(ls)
    decreases |ls|
  {
    assert forall k :: 1 <= k < |ls| ==> ls[1..][k - 1] == ls[k];
    if |ls| == 0 then 1 else |ls[0]| * Size(ls[1..])
  }

  /** `x` followed by each tail, in order. */
  function Prefix<T>(x: T, tails: seq<seq<T>>): seq<seq<T>>
  {
    seq(|tails|, j requires 0 <= j < |tails| => [x] + tails[j])
  }

  /** For each element of `xs` in turn, that element followed by every tail. */
  function Spread<T>(xs: seq<T>, tails: seq<seq<T>>): seq<seq<T>>
    decreases |xs|
  {
    if |xs| == 0 then [] else Prefix(xs[0], tails) + Spread(xs[1..], tails)
  }

  /** `itertools.product(*ls)`: every combination taking one element from each
      list, enumerated with the first list slowest and the last one fastest. */
  function Product<T>(ls: seq<seq<T>>): seq<seq<T>>
    decreases |ls|
  {
    if |ls| == 0 then [[]] else Spread(ls[0], Product(ls[1..]))
  }

  lemma {:induction false} SpreadLength<T>(xs: seq<T>, tails: seq<seq<T>>)
    ensures |Spread(xs, tails)| == |xs| * |tails|
    decreases |xs|
  {
    if |xs| != 0 {
      SpreadLength(xs[1..], tails);
      MulPred(|xs|, |tails|);
    }
  }

  /** Entry `q * |tails| + m` of a spread pairs element `q` with tail `m`. */
  lemma {:induction false} SpreadAt<T>(xs: seq<T>, tails: seq<seq<T>>, q: int, m: int)
    requires 0 <= q < |xs| && 0 <= m < |tails|
    ensures q * |tails| + m < |Spread(xs, tails)|
    ensures Spread(xs, tails)[q * |tails| + m] == [xs[q]] + tails[m]
    decreases |xs|
  {
    var n := |tails|;
    var head := Prefix(xs[0], tails);
    var rest := Spread(xs[1..], tails);
    assert Spread(xs, tails) == head + rest;
    if q == 0 {
      assert Spread(xs, tails)[m] == head[m];
    } else {
      SpreadAt(xs[1..], tails, q - 1, m);
      MulPred(q, n);
      var i := (q - 1) * n + m;
      assert q * n + m == n + i;
      assert Spread(xs, tails)[n + i] == rest[i];
      assert xs[1..][q - 1] == xs[q];
    }
  }

  /** Entry `r` of a spread pairs element `r / |tails|` with tail `r % |tails|`. */
  lemma SpreadIndex<T>(xs: seq<T>, tails: seq<seq<T>>, r: int)
    requires 0 <= r < |xs| * |tails|
    ensures |Spread(xs, tails)| == |xs| * |tails|
    ensures Spread(xs, tails)[r] == [xs[r / |tails|]] + tails[r % |tails|]
  {
    SpreadLength(xs, tails);
    var n := |tails|;
    NonZeroFactor(|xs|, n, r);
    QuotientInRange(r, n, |xs|);
    DivMod(r, n);
    SpreadAt(xs, tails, r / n, r % n);
  }

  lemma DivMod(r: int, n: int)
    requires n > 0
    ensures r == (r / n) * n + r % n && 0 <= r % n < n
  {
  }

  lemma NonZeroFactor(a: nat, n: nat, r: int)
    requires 0 <= r < a * n
    ensures n > 0
  {
  }

  /** A product of sizes splits at any point of the list of lists. */
  lemma {:induction false} SizeAppend<T>(a: seq<seq<T>>, b: seq<seq<T>>)
    ensures Size(a + b) == Size(a) * Size(b)
    decreases |a|
  {
    if |a| != 0 {
      assert (a + b)[0] == a[0];
      assert (a + b)[1..] == a[1..] + b;
      SizeAppend(a[1..], b);
      MulAssoc(|a[0]|, Size(a[1..]), Size(b));
    } else {
      assert a + b == b;
    }
  }

  /** There are `Size(ls)` combinations, each as long as `ls`. */
  lemma {:induction false} ProductLength<T>(ls: seq<seq<T>>)
    ensures |Product(ls)| == Size(ls)
    ensures forall r :: 0 <= r < Size(ls) ==> |Product(ls)[r]| == |ls|
    decreases |ls|
  {
    if |ls| != 0 {
      var tails := Product(ls[1..]);
      ProductLength(ls[1..]);
      SpreadLength(ls[0], tails);
      forall r | 0 <= r < Size(ls)
        ensures |Product(ls)[r]| == |ls|
      {
        SpreadIndex(ls[0], tails, r);
      }
    }
  }

  /** Coordinate `k` of combination `r` is element `(r / Size(ls[k+1..])) % |ls[k]|`
      of list `k`: list `k` advances once every `Size(ls[k+1..])` combinations
      and wraps around after its last element. */
  lemma {:induction false} ProductIndex<T>(ls: seq<seq<T>>, r: int, k: int)
    requires 0 <= r < Size(ls) && 0 <= k < |ls|
    ensures |Product(ls)| == Size(ls) && |Product(ls)[r]| == |ls|
    ensures Product(ls)[r][k] == ls[k][(r / Size(ls[k + 1..])) % |ls[k]|]
    decreases |ls|
  {
    ProductLength(ls);
    var tails := Product(ls[1..]);
    var n := Size(ls[1..]);
    ProductLength(ls[1..]);
    SpreadIndex(ls[0], tails, r);
    if k == 0 {
      QuotientInRange(r, n, |ls[0]|);
    } else {
      ProductIndex(ls[1..], r % n, k - 1);
      assert ls[1..][k - 1] == ls[k];
      assert ls[1..][k..] == ls[k + 1..];
      StrideSplit(ls, k);
      DivModOfMod(r, Size(ls[1..k]), |ls[k]|, Size(ls[k + 1..]));
    }
  }

  lemma QuotientInRange(r: int, n: int, c: int)
    requires n > 0 && 0 <= r < c * n
    ensures 0 <= r / n < c && (r / n) % c == r / n
  {
    DivModShift(c, 0, n);
    DivModUnique(r / n, c, 0, r / n);
  }

  /** The combinations after list 0 group into blocks of `Size(ls[k+1..])`, of
      which `|ls[k]|` make one cycle of list `k`. */
  lemma StrideSplit<T>(ls: seq<seq<T>>, k: int)
    requires 1 <= k < |ls|
    ensures Size(ls[1..]) == Size(ls[1..k]) * |ls[k]| * Size(ls[k + 1..])
  {
    var a, c, b := Size(ls[1..k]), |ls[k]|, Size(ls[k + 1..]);
    assert Size(ls[1..]) == a * Size(ls[k..]) by {
      assert ls[1..] == ls[1..k] + ls[k..];
      SizeAppend(ls[1..k], ls[k..]);
    }
    assert Size(ls[k..]) == c * b by {
      assert ls[k..][0] == ls[k];
      assert ls[k..][1..] == ls[k + 1..];
    }
    MulAssoc(a, c, b);
  }

  /** A sequence belongs to a spread exactly when its head comes from `xs` and its tail from `tails`. */
  lemma {:induction false} SpreadMembers<T>(xs: seq<T>, tails: seq<seq<T>>, t: seq<T>)
    ensures t in Spread(xs, tails) <==> |t| >= 1 && t[0] in xs && t[1..] in tails
    decreases |xs|
  {
    if |xs| != 0 {
      SpreadMembers(xs[1..], tails, t);
      if t in Prefix(xs[0], tails) {
        var j :| 0 <= j < |tails| && Prefix(xs[0], tails)[j] == t;
        assert t[1..] == tails[j];
      }
      if |t| >= 1 && t[0] == xs[0] && t[1..] in tails {
        var j :| 0 <= j < |tails| && tails[j] == t[1..];
        assert Prefix(xs[0], tails)[j] == t;
      }
    }
  }

  /** The product holds exactly the sequences that take coordinate `k` from list `k`. */
  lemma {:induction false} ProductMembers<T>(ls: seq<seq<T>>, t: seq<T>)
    ensures t in Product(ls) <==> |t| == |ls| && forall k :: 0 <= k < |ls| ==> t[k] in ls[k]
    decreases |ls|
  {
    if |ls| != 0 {
      SpreadMembers(ls[0], Product(ls[1..]), t);
      if |t| >= 1 {
        ProductMembers(ls[1..], t[1..]);
        if |t| == |ls| && forall k :: 0 <= k < |ls| ==> t[k] in ls[k] {
          assert forall k :: 0 <= k < |ls| - 1 ==> t[1..][k] == t[k + 1];
        }
        if t[1..] in Product(ls[1..]) && t[0] in ls[0] {
          forall k | 0 <= k < |ls|
            ensures t[k] in ls[k]
          {
            if k > 0 {
              assert t[1..][k - 1] == t[k];
            }
          }
        }
      }
    }
  }

  /** When no list repeats an element, no combination is enumerated twice. */
  lemma {:induction false} ProductDistinct<T>(ls: seq<seq<T>>)
    requires forall k :: 0 <= k < |ls| ==> Distinct(ls[k])
    ensures Distinct(Product(ls))
    decreases |ls|
  {
    if |ls| != 0 {
      var tails := Product(ls[1..]);
      var n := |tails|;
      ProductDistinct(ls[1..]);
      ProductLength(ls);
      ProductLength(ls[1..]);
      forall i, j | 0 <= i < j < |Product(ls)|
        ensures Product(ls)[i] != Product(ls)[j]
      {
        if Product(ls)[i] == Product(ls)[j] {
          SameCombinationSameIndex(ls[0], tails, i, j);
        }
      }
    }
  }

  /** Two positions of a spread that hold the same entry, over distinct heads
      and distinct tails, are the same position. */
  lemma SameCombinationSameIndex<T>(xs: seq<T>, tails: seq<seq<T>>, i: int, j: int)
    requires Distinct(xs) && Distinct(tails)
    requires 0 <= i < |Spread(xs, tails)| && 0 <= j < |Spread(xs, tails)|
    requires Spread(xs, tails)[i] == Spread(xs, tails)[j]
    ensures i == j
  {
    var n := |tails|;
    SpreadLength(xs, tails);
    QuotientInRange(i, n, |xs|);
    QuotientInRange(j, n, |xs|);
    var qi, mi, qj, mj := i / n, i % n, j / n, j % n;
    SpreadIndex(xs, tails, i);
    SpreadIndex(xs, tails, j);
    var t := Spread(xs, tails)[i];
    assert t == [xs[qi]] + tails[mi] == [xs[qj]] + tails[mj];
    assert xs[qi] == t[0] == xs[qj];
    assert tails[mi] == t[1..] == tails[mj];
    assert qi == qj && mi == mj;
    DivModEqual(i, j, n);
  }

  lemma DivModEqual(i: int, j: int, n: int)
    requires n > 0 && i / n == j / n && i % n == j % n
    ensures i == j
  {
  }

  // ---------------------------------------------------------------------------
  // Unzip and tiling.

  /** The length of the shortest row. */
  function MinLength<T>(rows: seq<seq<T>>): (m: nat)
    requires |rows| > 0
    ensures forall r :: 0 <= r < |rows| ==> m <= |rows[r]|
    ensures exists r :: 0 <= r < |rows| && m == |rows[r]|
    decreases |rows|
  {
    if |rows| == 1 then |rows[0]|
    else
      var m := MinLength(rows[1..]);
      assert forall r :: 1 <= r < |rows| ==> rows[1..][r - 1] == rows[r];
      if |rows[0]| <= m then |rows[0]| else m
  }

  /** `zip(*rows)`: result `k` collects entry `k` of every row. Like Python's
      `zip`, it stops at the shortest row and gives nothing when there are no rows. */
  function Unzip<T>(rows: seq<seq<T>>): seq<seq<T>>
  {
    if |rows| == 0 then []
    else
      var w := MinLength(rows);
      seq(w, k requires 0 <= k < w => seq(|rows|, r requires 0 <= r < |rows| => rows[r][k]))
  }

  /** Entry `k` of every row. */
  function Column<T>(rows: seq<seq<T>>, k: nat): seq<T>
    requires forall r :: 0 <= r < |rows| ==> k < |rows[r]|
  {
    seq(|rows|, r requires 0 <= r < |rows| => rows[r][k])
  }

  /** On a non-empty table whose rows all have length `w`, unzipping gives
      exactly the `w` columns. */
  lemma UnzipColumns<T>(rows: seq<seq<T>>, w: nat)
    requires |rows| > 0 && Rectangular(rows, w)
    ensures |Unzip(rows)| == w
    ensures forall k :: 0 <= k < w ==> Unzip(rows)[k] == Column(rows, k)
  {
  }

  /** All rows have length `w`. */
  predicate Rectangular<T>(rows: seq<seq<T>>, w: nat)
  {
    forall r :: 0 <= r < |rows| ==> |rows[r]| == w
  }

  /** On a non-empty table of `w >= 1` columns, unzipping transposes: `w`
      columns as long as the table, and unzipping those gives the rows back. */
  lemma UnzipTransposes<T>(rows: seq<seq<T>>, w: nat)
    requires |rows| > 0 && w > 0 && Rectangular(rows, w)
    ensures |Unzip(rows)| == w && Rectangular(Unzip(rows), |rows|)
    ensures Unzip(Unzip(rows)) == rows
  {
    var cols := Unzip(rows);
    assert |cols| == w;
    assert Rectangular(cols, |rows|);
    var back := Unzip(cols);
    assert |back| == |rows|;
    forall r | 0 <= r < |rows|
      ensures back[r] == rows[r]
    {
      assert |back[r]| == w;
    }
  }

  /** Python's `s * n`: `s` written out `n` times in a row, empty when `n <= 0`. */
  function Tile<T>(s: seq<T>, n: int): seq<T>
    decreases n
  {
    if n <= 0 then [] else s + Tile(s, n - 1)
  }

  /** A tiling is `n` copies long, and entry `i` repeats entry `i % |s|` of `s`. */
  lemma {:induction false} TileIndex<T>(s: seq<T>, n: int)
    ensures n <= 0 ==> Tile(s, n) == []
    ensures n > 0 ==> |Tile(s, n)| == n * |s|
    ensures forall i :: 0 <= i < |Tile(s, n)| ==> Tile(s, n)[i] == s[i % |s|]
    decreases n
  {
    if n > 0 {
      TileIndex(s, n - 1);
      forall i | 0 <= i < |Tile(s, n)|
        ensures Tile(s, n)[i] == s[i % |s|]
      {
        if i < |s| {
          DivModUnique(i, |s|, 0, i);
        } else {
          DivModShift(1, i - |s|, |s|);
        }
      }
    }
  }

  /** Entry `r` of `n` copies of `s`, for `r` below `n * |s|`, is entry `r % |s|` of `s`. */
  lemma TileAt<T>(s: seq<T>, n: int, r: int)
    requires |s| > 0 && 0 <= r < n * |s|
    ensures |Tile(s, n)| == n * |s|
    ensures 0 <= r % |s| < |s|
    ensures Tile(s, n)[r] == s[r % |s|]
  {
    PositiveMultiplier(n, |s|);
    TileIndex(s, n);
    DivMod(r, |s|);
  }

  /** A tiling repeats its block: positions that agree modulo `|s|` hold the same entry. */
  lemma TilePeriodic<T>(s: seq<T>, n: int)
    requires |s| > 0
    ensures n <= 0 ==> Tile(s, n) == []
    ensures n > 0 ==> |Tile(s, n)| == n * |s|
    ensures forall i, j :: 0 <= i < |Tile(s, n)| && 0 <= j < |Tile(s, n)| && i % |s| == j % |s|
              ==> Tile(s, n)[i] == Tile(s, n)[j]
  {
    TileIndex(s, n);
  }
}
