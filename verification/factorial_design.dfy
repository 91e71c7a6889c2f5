/** `balanced`: a balanced full-factorial design. Factor names are sorted, each
    factor `name` with `count` levels gets the labels `name1 .. name<count>`,
    the Cartesian product of the label lists is enumerated with the last factor
    varying fastest, unzipped into one column per factor, and every column is
    tiled `repeat` times. */
module FactorialDesign {
  import opened LexOrder
  import opened Decimal
  import opened CartesianProduct

  /** The label of level `i` of factor `name`: `"%s%s" % (name, i)`. */
  function Label(name: string, i: nat): string
  {
    name + Str(i)
  }

  /** Labels of one factor are told apart by their level numbers alone. */
  lemma LabelInjective(name: string, i: nat, j: nat)
    requires Label(name, i) == Label(name, j)
    ensures i == j
  {
    assert Label(name, i)[|name|..] == Str(i);
    assert Label(name, j)[|name|..] == Str(j);
    StrInjective(i, j);
  }

  /** The level labels of a factor with `count` levels, in level order; none
      when `count <= 0`, as `xrange(1, count + 1)` is then empty. */
  function Labels(name: string, count: int): (ls: seq<string>)
    ensures |ls| == if count <= 0 then 0 else count
    ensures Distinct(ls)
    ensures forall x :: x in ls <==> exists i :: 1 <= i <= count && x == Label(name, i)
  {
    var ls := seq(if count <= 0 then 0 else count, i requires 0 <= i => Label(name, i + 1));
    assert Distinct(ls) by {
      forall i, j | 0 <= i < j < |ls|
        ensures ls[i] != ls[j]
      {
        if ls[i] == ls[j] {
          LabelInjective(name, i + 1, j + 1);
        }
      }
    }
    assert forall i :: 1 <= i <= count ==> ls[i - 1] == Label(name, i);
    ls
  }

  lemma LabelsIndex(name: string, count: int, j: int)
    requires 0 <= j < count
    ensures |Labels(name, count)| == count
    ensures Labels(name, count)[j] == Label(name, j + 1)
  {
  }

  /** Every factor has at least one level. */
  predicate AllPositive(factors: map<string, int>)
  {
    forall name :: name in factors ==> factors[name] >= 1
  }

  /** The factor names in the order `sorted` gives them. */
  function Names(factors: map<string, int>): (names: seq<string>)
    ensures forall k :: 0 <= k < |names| ==> names[k] in factors
    ensures forall x :: x in factors ==> x in names
    ensures |names| == |factors|
    ensures Distinct(names)
  {
    Sorted(factors.Keys)
  }

  /** The position of a factor in sorted order. */
  lemma NameIndex(factors: map<string, int>, name: string) returns (k: int)
    requires name in factors
    ensures 0 <= k < |factors| && Names(factors)[k] == name
  {
    var names := Names(factors);
    assert name in names;
    k :| 0 <= k < |names| && names[k] == name;
  }

  /** The level counts, in sorted name order. */
  function Counts(factors: map<string, int>): seq<int>
  {
    var names := Names(factors);
    seq(|names|, k requires 0 <= k < |names| => factors[names[k]])
  }

  /** The label list of each named factor. */
  function LevelsOf(names: seq<string>, counts: seq<int>): seq<seq<string>>
    requires |names| == |counts|
  {
    seq(|names|, k requires 0 <= k < |names| => Labels(names[k], counts[k]))
  }

  /** The label lists of the design, in sorted name order. */
  function Levels(factors: map<string, int>): seq<seq<string>>
  {
    LevelsOf(Names(factors), Counts(factors))
  }

  /** The product of a list of counts, 1 for the empty list. */
  function Prod(cs: seq<int>): (p: int)
    ensures (forall k :: 0 <= k < |cs| ==> cs[k] >= 1) ==> p >= 1
  {
    if |cs| == 0 then 1
    else
      assert forall k :: 1 <= k < |cs| ==> cs[1..][k - 1] == cs[k];
      cs[0] * Prod(cs[1..])
  }

  /** The number of distinct level combinations: the product of the level counts. */
  function DesignSize(factors: map<string, int>): int
  {
    Prod(Counts(factors))
  }

  /** `balanced(repeat=repeat, **factors)`. A factor with no levels empties the
      product, and `zip` then yields no column at all, so the result is empty;
      a `repeat` of zero or less leaves every column empty. */
  function Balanced(factors: map<string, int>, repeat: int): map<string, seq<string>>
  {
    Assemble(Names(factors), Unzip(Product(Levels(factors))), repeat)
  }

  /** `zip(names, values)`: the pairs at equal positions, as many as the
      shorter list holds. */
  function Zip(names: seq<string>, values: seq<seq<string>>): (pairs: seq<(string, seq<string>)>)
    ensures |pairs| == if |names| <= |values| then |names| else |values|
  {
    var n := if |names| <= |values| then |names| else |values|;
    seq(n, k requires 0 <= k < n => (names[k], values[k]))
  }

  /** The loop `for name, value in pairs: data[name] = list(value) * repeat`
      run from an empty dictionary. */
  function Fill(pairs: seq<(string, seq<string>)>, repeat: int): map<string, seq<string>>
    decreases |pairs|
  {
    if |pairs| == 0 then map[]
    else
      var last := pairs[|pairs| - 1];
      Fill(pairs[..|pairs| - 1], repeat)[last.0 := Tile(last.1, repeat)]
  }

  /** The assignment loop over `zip(names, values)`. */
  function Assemble(names: seq<string>, values: seq<seq<string>>, repeat: int): map<string, seq<string>>
  {
    Fill(Zip(names, values), repeat)
  }

  /** With distinct keys, the loop gives each key its own value. */
  lemma {:induction false} FillLookup(pairs: seq<(string, seq<string>)>, repeat: int)
    requires forall i, j :: 0 <= i < j < |pairs| ==> pairs[i].0 != pairs[j].0
    ensures forall x :: x in Fill(pairs, repeat) <==> exists k :: 0 <= k < |pairs| && pairs[k].0 == x
    ensures forall k :: 0 <= k < |pairs| ==> Fill(pairs, repeat)[pairs[k].0] == Tile(pairs[k].1, repeat)
    decreases |pairs|
  {
    if |pairs| != 0 {
      var init := pairs[..|pairs| - 1];
      FillLookup(init, repeat);
      forall x | x in Fill(pairs, repeat)
        ensures exists k :: 0 <= k < |pairs| && pairs[k].0 == x
      {
        if x != pairs[|pairs| - 1].0 {
          var k :| 0 <= k < |init| && init[k].0 == x;
          assert pairs[k].0 == x;
        }
      }
      forall k | 0 <= k < |pairs|
        ensures Fill(pairs, repeat)[pairs[k].0] == Tile(pairs[k].1, repeat)
      {
        if k < |pairs| - 1 {
          assert init[k] == pairs[k];
        }
      }
    }
  }

  lemma AssembleLookup(names: seq<string>, values: seq<seq<string>>, repeat: int)
    requires Distinct(names) && |names| <= |values|
    ensures forall x :: x in Assemble(names, values, repeat) <==> x in names
    ensures forall k :: 0 <= k < |names| ==> Assemble(names, values, repeat)[names[k]] == Tile(values[k], repeat)
  {
    var pairs := Zip(names, values);
    assert forall k :: 0 <= k < |names| ==> pairs[k] == (names[k], values[k]);
    FillLookup(pairs, repeat);
    forall x
      ensures x in Assemble(names, values, repeat) <==> x in names
    {
      if x in names {
        var k :| 0 <= k < |names| && names[k] == x;
        assert pairs[k].0 == x;
      }
    }
  }

  // ---------------------------------------------------------------------------
  // Properties.

  /** With positive counts, the number of combinations is the product of the counts. */
  lemma {:induction false} SizeOfLevels(names: seq<string>, cs: seq<int>)
    requires |names| == |cs|
    requires forall k :: 0 <= k < |cs| ==> cs[k] >= 1
    ensures Size(LevelsOf(names, cs)) == Prod(cs)
    decreases |cs|
  {
    if |cs| != 0 {
      assert LevelsOf(names, cs)[1..] == LevelsOf(names[1..], cs[1..]);
      SizeOfLevels(names[1..], cs[1..]);
    }
  }

  lemma LevelsSuffix(names: seq<string>, cs: seq<int>, k: int)
    requires |names| == |cs| && 0 <= k <= |cs|
    ensures LevelsOf(names, cs)[k..] == LevelsOf(names[k..], cs[k..])
  {
  }

  /** Column `k` of the unzipped product, before tiling. */
  function ProductColumn(factors: map<string, int>, k: int): seq<string>
    requires 0 <= k < |factors|
  {
    ProductLength(Levels(factors));
    Column(Product(Levels(factors)), k)
  }

  /** With positive counts the design has exactly one column per factor. */
  lemma BalancedKeys(factors: map<string, int>, repeat: int)
    requires AllPositive(factors)
    ensures forall x :: x in Balanced(factors, repeat) <==> x in factors
  {
    var names := Names(factors);
    var rows := Product(Levels(factors));
    ProductLength(Levels(factors));
    UnzipColumns(rows, |names|);
    AssembleLookup(names, Unzip(rows), repeat);
  }

  /** With positive counts, the column of the `k`-th sorted name is the `k`-th
      coordinate of the product, tiled `repeat` times. */
  lemma BalancedColumn(factors: map<string, int>, repeat: int, k: int)
    requires AllPositive(factors)
    requires 0 <= k < |factors|
    ensures Names(factors)[k] in Balanced(factors, repeat)
    ensures Balanced(factors, repeat)[Names(factors)[k]] == Tile(ProductColumn(factors, k), repeat)
  {
    UnzipProduct(factors);
    AssembleLookup(Names(factors), Unzip(Product(Levels(factors))), repeat);
  }

  /** With positive counts, unzipping the product gives one column per factor. */
  lemma UnzipProduct(factors: map<string, int>)
    requires AllPositive(factors)
    ensures |Unzip(Product(Levels(factors)))| == |factors|
    ensures forall k :: 0 <= k < |factors| ==> Unzip(Product(Levels(factors)))[k] == ProductColumn(factors, k)
  {
    var rows := Product(Levels(factors));
    ProductLength(Levels(factors));
    assert |rows| > 0 by {
      SizeOfLevels(Names(factors), Counts(factors));
    }
    UnzipColumns(rows, |factors|);
  }

  /** The untiled column of a factor holds one entry per combination. */
  lemma ProductColumnLength(factors: map<string, int>, k: int)
    requires AllPositive(factors)
    requires 0 <= k < |factors|
    ensures |ProductColumn(factors, k)| == DesignSize(factors)
  {
    CountsPositive(factors);
    SizeOfLevels(Names(factors), Counts(factors));
    ProductLength(Levels(factors));
  }

  /** The level counts after the `k`-th are positive, so their product is. */
  lemma StridePositive(factors: map<string, int>, k: int)
    requires AllPositive(factors)
    requires 0 <= k < |factors|
    ensures Counts(factors)[k] >= 1 && Prod(Counts(factors)[k + 1..]) >= 1
  {
    CountsPositive(factors);
    ProdSuffixPositive(Counts(factors), k + 1);
  }

  /** Under `AllPositive`, every level count is positive. */
  lemma CountsPositive(factors: map<string, int>)
    requires AllPositive(factors)
    ensures forall k :: 0 <= k < |Counts(factors)| ==> Counts(factors)[k] >= 1
  {
  }

  lemma ProdSuffixPositive(cs: seq<int>, j: int)
    requires forall k :: 0 <= k < |cs| ==> cs[k] >= 1
    requires 0 <= j <= |cs|
    ensures Prod(cs[j..]) >= 1
  {
    var rest := cs[j..];
    assert forall i :: 0 <= i < |rest| ==> rest[i] == cs[j + i];
  }

  /** The label lists measure what the counts say: list `k` has `c_k` labels,
      and the lists from `k + 1` on have `c_{k+1} * ...` combinations. */
  lemma LevelsMeasure(factors: map<string, int>, k: int)
    requires AllPositive(factors)
    requires 0 <= k < |factors|
    ensures Size(Levels(factors)) == DesignSize(factors)
    ensures |Levels(factors)[k]| == Counts(factors)[k]
    ensures Size(Levels(factors)[k + 1..]) == Prod(Counts(factors)[k + 1..])
  {
    var names, cs := Names(factors), Counts(factors);
    assert Size(Levels(factors)) == DesignSize(factors) by {
      SizeOfLevels(names, cs);
    }
    assert Size(Levels(factors)[k + 1..]) == Prod(cs[k + 1..]) by {
      LevelsSuffix(names, cs, k + 1);
      SizeOfLevels(names[k + 1..], cs[k + 1..]);
    }
  }

  /** Entry `q` of the untiled column of the `k`-th factor is coordinate `k`
      of combination `q`. */
  lemma ProductColumnEntry(factors: map<string, int>, k: int, q: int)
    requires AllPositive(factors)
    requires 0 <= k < |factors|
    requires 0 <= q < DesignSize(factors)
    ensures |ProductColumn(factors, k)| == DesignSize(factors)
    ensures |Product(Levels(factors))| == DesignSize(factors)
    ensures |Product(Levels(factors))[q]| == |factors|
    ensures ProductColumn(factors, k)[q] == Product(Levels(factors))[q][k]
  {
    ProductShape(factors);
    ProductColumnLength(factors, k);
  }

  /** Entry `q` of the untiled column of the `k`-th factor is entry
      `(q / (c_{k+1} * ...)) % c_k` of that factor's label list. */
  lemma ProductColumnLevel(factors: map<string, int>, k: int, q: int)
    requires AllPositive(factors)
    requires 0 <= k < |factors|
    requires 0 <= q < DesignSize(factors)
    ensures |ProductColumn(factors, k)| == DesignSize(factors)
    ensures Counts(factors)[k] >= 1 && Prod(Counts(factors)[k + 1..]) >= 1
    ensures |Levels(factors)[k]| == Counts(factors)[k]
    ensures ProductColumn(factors, k)[q]
            == Levels(factors)[k][(q / Prod(Counts(factors)[k + 1..])) % Counts(factors)[k]]
  {
    StridePositive(factors, k);
    LevelsMeasure(factors, k);
    ProductColumnEntry(factors, k, q);
    ProductIndex(Levels(factors), q, k);
  }

  /** Entry `q` of the untiled column of the `k`-th factor is level
      `1 + (q / (c_{k+1} * ...)) % c_k`. */
  lemma ProductColumnElement(factors: map<string, int>, k: int, q: int)
    requires AllPositive(factors)
    requires 0 <= k < |factors|
    requires 0 <= q < DesignSize(factors)
    ensures |ProductColumn(factors, k)| == DesignSize(factors)
    ensures Counts(factors)[k] >= 1 && Prod(Counts(factors)[k + 1..]) >= 1
    ensures ProductColumn(factors, k)[q]
            == Label(Names(factors)[k], 1 + (q / Prod(Counts(factors)[k + 1..])) % Counts(factors)[k])
  {
    ProductColumnLevel(factors, k, q);
    var cs := Counts(factors);
    LabelsIndex(Names(factors)[k], cs[k], (q / Prod(cs[k + 1..])) % cs[k]);
  }

  /** With positive counts there is at least one combination. */
  lemma DesignSizePositive(factors: map<string, int>)
    requires AllPositive(factors)
    ensures DesignSize(factors) >= 1
  {
  }

  /** Columns are tiled, not interleaved: a column is `repeat` copies of a
      block of `DesignSize(factors)` entries, so entries whose positions agree
      modulo `DesignSize(factors)` are equal, and entry `i` equals entry
      `i % DesignSize(factors)`. */
  lemma BalancedTiling(factors: map<string, int>, repeat: int, name: string)
    requires AllPositive(factors)
    requires name in factors
    ensures DesignSize(factors) >= 1
    ensures name in Balanced(factors, repeat)
    ensures forall i, j :: 0 <= i < |Balanced(factors, repeat)[name]| && 0 <= j < |Balanced(factors, repeat)[name]|
              && i % DesignSize(factors) == j % DesignSize(factors)
              ==> Balanced(factors, repeat)[name][i] == Balanced(factors, repeat)[name][j]
  {
    DesignSizePositive(factors);
    var k := NameIndex(factors, name);
    BalancedColumn(factors, repeat, k);
    ProductColumnLength(factors, k);
    TilePeriodic(ProductColumn(factors, k), repeat);
  }

  /** A column holds `repeat` copies of the `DesignSize(factors)` combinations,
      and nothing when `repeat <= 0`. */
  lemma BalancedLength(factors: map<string, int>, repeat: int, name: string)
    requires AllPositive(factors)
    requires name in factors
    ensures name in Balanced(factors, repeat)
    ensures repeat <= 0 ==> Balanced(factors, repeat)[name] == []
    ensures repeat > 0 ==> |Balanced(factors, repeat)[name]| == repeat * DesignSize(factors)
  {
    var k := NameIndex(factors, name);
    BalancedColumn(factors, repeat, k);
    ProductColumnLength(factors, k);
    TileIndex(ProductColumn(factors, k), repeat);
  }

  /** With positive counts the product has `DesignSize(factors)` combinations,
      each with one label per factor. */
  lemma ProductShape(factors: map<string, int>)
    requires AllPositive(factors)
    ensures DesignSize(factors) >= 1
    ensures |Product(Levels(factors))| == DesignSize(factors)
    ensures forall q :: 0 <= q < DesignSize(factors) ==> |Product(Levels(factors))[q]| == |factors|
  {
    CountsPositive(factors);
    SizeOfLevels(Names(factors), Counts(factors));
    ProductLength(Levels(factors));
  }

  /** The enumeration order. Writing `c_j` for the level count of the `j`-th
      name in sorted order and `P` for their product, row `r` of the column of
      the `k`-th name holds level `1 + (q / (c_{k+1} * ... )) % c_k` where
      `q = r % P` is the row's position within its copy of the block: the last
      sorted factor varies fastest and the whole pattern repeats every `P` rows. */
  lemma BalancedElement(factors: map<string, int>, repeat: int, k: int, r: int, q: int)
    requires AllPositive(factors)
    requires 0 <= k < |factors|
    requires 0 <= r < repeat * DesignSize(factors)
    requires DesignSize(factors) >= 1 && q == r % DesignSize(factors)
    ensures Counts(factors)[k] >= 1 && Prod(Counts(factors)[k + 1..]) >= 1
    ensures Names(factors)[k] in Balanced(factors, repeat)
    ensures r < |Balanced(factors, repeat)[Names(factors)[k]]|
    ensures Balanced(factors, repeat)[Names(factors)[k]][r]
            == Label(Names(factors)[k], 1 + (q / Prod(Counts(factors)[k + 1..])) % Counts(factors)[k])
  {
    BalancedColumnEntry(factors, repeat, k, r);
    ProductColumnElement(factors, k, q);
  }

  /** Entry `r` of the column of the `k`-th factor is entry `r % DesignSize(factors)`
      of its untiled column. */
  lemma BalancedColumnEntry(factors: map<string, int>, repeat: int, k: int, r: int)
    requires AllPositive(factors)
    requires 0 <= k < |factors|
    requires 0 <= r < repeat * DesignSize(factors)
    ensures DesignSize(factors) >= 1
    ensures 0 <= r % DesignSize(factors) < DesignSize(factors)
    ensures |ProductColumn(factors, k)| == DesignSize(factors)
    ensures Names(factors)[k] in Balanced(factors, repeat)
    ensures |Balanced(factors, repeat)[Names(factors)[k]]| == repeat * DesignSize(factors)
    ensures Balanced(factors, repeat)[Names(factors)[k]][r] == ProductColumn(factors, k)[r % DesignSize(factors)]
  {
    DesignSizePositive(factors);
    BalancedColumn(factors, repeat, k);
    ProductColumnLength(factors, k);
    TileAt(ProductColumn(factors, k), repeat, r);
  }

  /** Every entry of the column of `name` is one of its level labels
      `name + str(i)` with `1 <= i <= count`. */
  lemma BalancedLabelsInRange(factors: map<string, int>, repeat: int, name: string, r: int)
    requires AllPositive(factors)
    requires name in factors
    requires 0 <= r < repeat * DesignSize(factors)
    ensures name in Balanced(factors, repeat) && r < |Balanced(factors, repeat)[name]|
    ensures exists i :: 1 <= i <= factors[name] && Balanced(factors, repeat)[name][r] == Label(name, i)
  {
    var k := NameIndex(factors, name);
    BalancedColumnEntry(factors, repeat, k, r);
    var q := r % DesignSize(factors);
    ProductColumnElement(factors, k, q);
    var cs := Counts(factors);
    var i := 1 + (q / Prod(cs[k + 1..])) % cs[k];
    assert 1 <= i <= factors[name];
  }

  /** Every named column exists and holds `height` entries. */
  predicate Shaped(data: map<string, seq<string>>, names: seq<string>, height: int)
  {
    forall k :: 0 <= k < |names| ==> names[k] in data && |data[names[k]]| == height
  }

  /** The labels the factors take in row `r` of a table of `height` rows,
      in the order of `names`. */
  function Row(data: map<string, seq<string>>, names: seq<string>, height: int, r: int): seq<string>
    requires Shaped(data, names, height) && 0 <= r < height
  {
    seq(|names|, k requires 0 <= k < |names| => data[names[k]][r])
  }

  /** Entry `r` of the column of the `k`-th factor is coordinate `k` of
      combination `q = r % DesignSize(factors)`. */
  lemma BalancedEntry(factors: map<string, int>, repeat: int, k: int, r: int, q: int)
    requires AllPositive(factors)
    requires 0 <= k < |factors|
    requires 0 <= r < repeat * DesignSize(factors)
    requires DesignSize(factors) >= 1 && q == r % DesignSize(factors)
    ensures 0 <= q < |Product(Levels(factors))| && |Product(Levels(factors))[q]| == |factors|
    ensures Names(factors)[k] in Balanced(factors, repeat)
    ensures |Balanced(factors, repeat)[Names(factors)[k]]| == repeat * DesignSize(factors)
    ensures Balanced(factors, repeat)[Names(factors)[k]][r] == Product(Levels(factors))[q][k]
  {
    BalancedColumnEntry(factors, repeat, k, r);
    ProductColumnEntry(factors, k, q);
  }

  /** Row `r` of the design is combination `r % DesignSize(factors)` of the product. */
  lemma BalancedRow(factors: map<string, int>, repeat: int, r: int)
    requires AllPositive(factors)
    requires 0 <= r < repeat * DesignSize(factors)
    ensures DesignSize(factors) >= 1
    ensures |Product(Levels(factors))| == DesignSize(factors)
    ensures Shaped(Balanced(factors, repeat), Names(factors), repeat * DesignSize(factors))
    ensures Row(Balanced(factors, repeat), Names(factors), repeat * DesignSize(factors), r) == Product(Levels(factors))[r % DesignSize(factors)]
  {
    ProductShape(factors);
    var p := DesignSize(factors);
    PositiveMultiplier(repeat, p);
    BalancedShaped(factors, repeat);
    var names := Names(factors);
    var data := Balanced(factors, repeat);
    DivMod(r, p);
    var combination := Product(Levels(factors))[r % p];
    assert |combination| == |names|;
    var row := Row(data, names, repeat * p, r);
    forall k | 0 <= k < |names|
      ensures row[k] == combination[k]
    {
      BalancedEntry(factors, repeat, k, r, r % p);
    }
    assert row == combination;
  }

  /** With at least one repetition, every factor's column holds
      `repeat * DesignSize(factors)` entries. */
  lemma BalancedShaped(factors: map<string, int>, repeat: int)
    requires AllPositive(factors) && repeat >= 1
    ensures Shaped(Balanced(factors, repeat), Names(factors), repeat * DesignSize(factors))
  {
    var names := Names(factors);
    forall k | 0 <= k < |names|
      ensures names[k] in Balanced(factors, repeat)
      ensures |Balanced(factors, repeat)[names[k]]| == repeat * DesignSize(factors)
    {
      BalancedLength(factors, repeat, names[k]);
    }
  }

  /** The first `DesignSize(factors)` rows list the product in order. */
  lemma FirstRowsAreProduct(factors: map<string, int>, repeat: int)
    requires AllPositive(factors) && repeat >= 1
    ensures DesignSize(factors) >= 1
    ensures |Product(Levels(factors))| == DesignSize(factors)
    ensures Shaped(Balanced(factors, repeat), Names(factors), repeat * DesignSize(factors))
    ensures DesignSize(factors) <= repeat * DesignSize(factors)
    ensures forall r :: 0 <= r < DesignSize(factors) ==>
              Row(Balanced(factors, repeat), Names(factors), repeat * DesignSize(factors), r) == Product(Levels(factors))[r]
  {
    DesignSizePositive(factors);
    var p := DesignSize(factors);
    MulAtLeast(repeat, p);
    BalancedRow(factors, repeat, 0);
    forall r | 0 <= r < p
      ensures Row(Balanced(factors, repeat), Names(factors), repeat * DesignSize(factors), r) == Product(Levels(factors))[r]
    {
      BalancedRow(factors, repeat, r);
      DivModUnique(r, p, 0, r);
    }
  }

  /** A choice of one label per factor is one of the product's combinations. */
  lemma ChoiceInProduct(factors: map<string, int>, t: seq<string>)
    requires |t| == |factors|
    requires forall k :: 0 <= k < |t| ==> t[k] in Labels(Names(factors)[k], Counts(factors)[k])
    ensures t in Product(Levels(factors))
  {
    var levels := Levels(factors);
    assert forall k :: 0 <= k < |t| ==> levels[k] == Labels(Names(factors)[k], Counts(factors)[k]);
    ProductMembers(levels, t);
  }

  /** No combination appears twice in the product. */
  lemma ProductOfLevelsDistinct(factors: map<string, int>)
    ensures Distinct(Product(Levels(factors)))
  {
    ProductDistinct(Levels(factors));
  }

  /** Balance: in the first `DesignSize(factors)` rows, every combination of
      one label per factor occurs in exactly one row. */
  lemma BalancedEachCombinationOnce(factors: map<string, int>, repeat: int, t: seq<string>)
    requires AllPositive(factors) && repeat >= 1
    requires |t| == |factors|
    requires forall k :: 0 <= k < |t| ==> t[k] in Labels(Names(factors)[k], Counts(factors)[k])
    ensures DesignSize(factors) >= 1
    ensures Shaped(Balanced(factors, repeat), Names(factors), repeat * DesignSize(factors))
    ensures DesignSize(factors) <= repeat * DesignSize(factors)
    ensures exists r :: 0 <= r < DesignSize(factors) && Row(Balanced(factors, repeat), Names(factors), repeat * DesignSize(factors), r) == t
    ensures forall r, r' ::
              0 <= r < DesignSize(factors) && 0 <= r' < DesignSize(factors)
              && Row(Balanced(factors, repeat), Names(factors), repeat * DesignSize(factors), r) == t
              && Row(Balanced(factors, repeat), Names(factors), repeat * DesignSize(factors), r') == t
              ==> r == r'
  {
    var rows := Product(Levels(factors));
    var data, names, p := Balanced(factors, repeat), Names(factors), DesignSize(factors);
    FirstRowsAreProduct(factors, repeat);
    ChoiceInProduct(factors, t);
    var r :| 0 <= r < |rows| && rows[r] == t;
    assert Row(data, names, repeat * p, r) == t;
    ProductOfLevelsDistinct(factors);
    forall r, r' | 0 <= r < p && 0 <= r' < p && Row(data, names, repeat * p, r) == t && Row(data, names, repeat * p, r') == t
      ensures r == r'
    {
      assert rows[r] == rows[r'];
    }
  }

  /** A factor without levels leaves the whole design empty. */
  lemma BalancedWithEmptyFactor(factors: map<string, int>, repeat: int, name: string)
    requires name in factors && factors[name] <= 0
    ensures Balanced(factors, repeat) == map[]
  {
    var k := NameIndex(factors, name);
    var levels := Levels(factors);
    assert |levels[k]| == 0;
    ProductLength(levels);
    assert Product(levels) == [];
  }
}
