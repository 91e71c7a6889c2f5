/** The documented and tested calls of `balanced` and `demo_data`, worked out
    from the general lemmas. */
module Examples {
  import opened LexOrder
  import opened Decimal
  import opened CartesianProduct
  import opened FactorialDesign
  import opened DemoData

  // ---------------------------------------------------------------------------
  // Two factors `a` and `b`.

  /** `a` sorts before `b`, so the columns are `a` then `b`. */
  lemma NamesAB(factors: map<string, int>)
    requires factors.Keys == {"a", "b"}
    ensures Names(factors) == ["a", "b"]
  {
    assert Le("a", "b");
    assert StrictlyIncreasing(["a", "b"]);
    SortedIsUnique({"a", "b"}, ["a", "b"]);
  }

  /** The level counts and the design size of a design on `a` and `b`. */
  lemma CountsAB(factors: map<string, int>)
    requires factors.Keys == {"a", "b"}
    requires factors["a"] >= 1 && factors["b"] >= 1
    ensures AllPositive(factors)
    ensures Names(factors) == ["a", "b"]
    ensures Counts(factors) == [factors["a"], factors["b"]]
    ensures Prod(Counts(factors)[1..]) == factors["b"]
    ensures Prod(Counts(factors)[2..]) == 1
    ensures DesignSize(factors) == factors["a"] * factors["b"]
  {
    NamesAB(factors);
    var cs := Counts(factors);
    assert cs[1..] == [factors["b"]];
    assert cs[1..][1..] == cs[2..] == [];
  }

  /** The first `n` entries of a column whose entry `r` is the label of level
      `1 + (r % size / stride) % count`. */
  function Pattern(name: string, size: nat, stride: nat, count: nat, n: nat): seq<string>
    requires size >= 1 && stride >= 1 && count >= 1
  {
    seq(n, r requires 0 <= r < n => Label(name, 1 + ((r % size) / stride) % count))
  }

  /** Column `k` of a design is the pattern of the element formula, with the
      design's size, the column's stride and its level count. */
  lemma ColumnByFormula(factors: map<string, int>, repeat: nat, k: int,
                        name: string, size: nat, stride: nat, count: nat, n: nat)
    requires AllPositive(factors) && 0 <= k < |factors| && repeat >= 1
    requires name == Names(factors)[k] && count == Counts(factors)[k]
    requires size == DesignSize(factors) && stride == Prod(Counts(factors)[k + 1..])
    requires size >= 1 && stride >= 1 && count >= 1 && n == repeat * size
    ensures name in Balanced(factors, repeat)
    ensures Balanced(factors, repeat)[name] == Pattern(name, size, stride, count, n)
  {
    ColumnLength(factors, repeat, name, n);
    ColumnEntries(factors, repeat, k, name, size, stride, count, n);
    assert |Balanced(factors, repeat)[name]| == |Pattern(name, size, stride, count, n)|;
  }

  /** Every entry of column `k` follows the element formula. */
  lemma ColumnEntries(factors: map<string, int>, repeat: nat, k: int,
                      name: string, size: nat, stride: nat, count: nat, n: nat)
    requires AllPositive(factors) && 0 <= k < |factors| && repeat >= 1
    requires name == Names(factors)[k] && count == Counts(factors)[k]
    requires size == DesignSize(factors) && stride == Prod(Counts(factors)[k + 1..])
    requires size >= 1 && stride >= 1 && count >= 1 && n == repeat * size
    requires name in Balanced(factors, repeat) && |Balanced(factors, repeat)[name]| == n
    ensures forall r :: 0 <= r < n ==>
              Balanced(factors, repeat)[name][r] == Pattern(name, size, stride, count, n)[r]
  {
    forall r | 0 <= r < n
      ensures Balanced(factors, repeat)[name][r] == Pattern(name, size, stride, count, n)[r]
    {
      ColumnEntry(factors, repeat, k, name, size, stride, count, r);
    }
  }

  /** The column of a factor has `n` entries, `n` being the design's size
      times `repeat`. */
  lemma ColumnLength(factors: map<string, int>, repeat: int, name: string, n: int)
    requires AllPositive(factors) && name in factors && repeat >= 1
    requires n == repeat * DesignSize(factors)
    ensures name in Balanced(factors, repeat) && |Balanced(factors, repeat)[name]| == n
  {
    BalancedLength(factors, repeat, name);
  }

  /** Entry `r` of column `k`, in terms of the design's size, the column's
      stride and its level count. */
  lemma ColumnEntry(factors: map<string, int>, repeat: int, k: int,
                    name: string, size: int, stride: int, count: int, r: int)
    requires AllPositive(factors) && 0 <= k < |factors| && repeat >= 1
    requires name == Names(factors)[k] && count == Counts(factors)[k]
    requires size == DesignSize(factors) && stride == Prod(Counts(factors)[k + 1..])
    requires size >= 1 && stride >= 1 && count >= 1
    requires 0 <= r < repeat * size
    ensures name in Balanced(factors, repeat) && r < |Balanced(factors, repeat)[name]|
    ensures Balanced(factors, repeat)[name][r] == Label(name, 1 + ((r % size) / stride) % count)
  {
    var q := r % size;
    BalancedElement(factors, repeat, k, r, q);
  }

  /** The labels of levels 1 to 3 of `a` and `b`. */
  lemma LevelLabels()
    ensures Label("a", 1) == "a1" && Label("a", 2) == "a2"
    ensures Label("b", 1) == "b1" && Label("b", 2) == "b2" && Label("b", 3) == "b3"
  {
    assert Str(1) == "1" && Str(2) == "2" && Str(3) == "3";
  }

  /** `balanced(a=2, b=3)`, column `a`. */
  lemma BalancedA23()
    ensures "a" in Balanced(map["a" := 2, "b" := 3], 1)
    ensures Balanced(map["a" := 2, "b" := 3], 1)["a"]
            == ["a1", "a1", "a1", "a2", "a2", "a2"]
  {
    var a1, a2 := Label("a", 1), Label("a", 2);
    assert Pattern("a", 6, 3, 2, 6)
           == [a1, a1, a1, a2, a2, a2];
    LevelLabels();
    var f := map["a" := 2, "b" := 3];
    CountsAB(f);
    ColumnByFormula(f, 1, 0, "a", 6, 3, 2, 6);
  }

  /** `balanced(a=2, b=3)`, column `b`. */
  lemma BalancedB23()
    ensures "b" in Balanced(map["a" := 2, "b" := 3], 1)
    ensures Balanced(map["a" := 2, "b" := 3], 1)["b"]
            == ["b1", "b2", "b3", "b1", "b2", "b3"]
  {
    var b1, b2, b3 := Label("b", 1), Label("b", 2), Label("b", 3);
    assert Pattern("b", 6, 1, 3, 6)
           == [b1, b2, b3, b1, b2, b3];
    LevelLabels();
    var f := map["a" := 2, "b" := 3];
    CountsAB(f);
    ColumnByFormula(f, 1, 1, "b", 6, 1, 3, 6);
  }

  /** `balanced(a=2, b=3, repeat=2)`, column `a`. */
  lemma BalancedA23Twice()
    ensures "a" in Balanced(map["a" := 2, "b" := 3], 2)
    ensures Balanced(map["a" := 2, "b" := 3], 2)["a"]
            == ["a1", "a1", "a1", "a2", "a2", "a2", "a1", "a1", "a1", "a2", "a2", "a2"]
  {
    var a1, a2 := Label("a", 1), Label("a", 2);
    assert Pattern("a", 6, 3, 2, 12)
           == [a1, a1, a1, a2, a2, a2, a1, a1, a1, a2, a2, a2];
    LevelLabels();
    var f := map["a" := 2, "b" := 3];
    CountsAB(f);
    ColumnByFormula(f, 2, 0, "a", 6, 3, 2, 12);
  }

  /** `balanced(a=2, b=3, repeat=2)`, column `b`. */
  lemma BalancedB23Twice()
    ensures "b" in Balanced(map["a" := 2, "b" := 3], 2)
    ensures Balanced(map["a" := 2, "b" := 3], 2)["b"]
            == ["b1", "b2", "b3", "b1", "b2", "b3", "b1", "b2", "b3", "b1", "b2", "b3"]
  {
    var b1, b2, b3 := Label("b", 1), Label("b", 2), Label("b", 3);
    assert Pattern("b", 6, 1, 3, 12)
           == [b1, b2, b3, b1, b2, b3, b1, b2, b3, b1, b2, b3];
    LevelLabels();
    var f := map["a" := 2, "b" := 3];
    CountsAB(f);
    ColumnByFormula(f, 2, 1, "b", 6, 1, 3, 12);
  }

  /** `balanced(a=2, b=2, repeat=2)`, column `a`. */
  lemma BalancedA22Twice()
    ensures "a" in Balanced(map["a" := 2, "b" := 2], 2)
    ensures Balanced(map["a" := 2, "b" := 2], 2)["a"]
            == ["a1", "a1", "a2", "a2", "a1", "a1", "a2", "a2"]
  {
    var a1, a2 := Label("a", 1), Label("a", 2);
    assert Pattern("a", 4, 2, 2, 8)
           == [a1, a1, a2, a2, a1, a1, a2, a2];
    LevelLabels();
    var f := map["a" := 2, "b" := 2];
    CountsAB(f);
    ColumnByFormula(f, 2, 0, "a", 4, 2, 2, 8);
  }

  /** `balanced(a=2, b=2, repeat=2)`, column `b`. */
  lemma BalancedB22Twice()
    ensures "b" in Balanced(map["a" := 2, "b" := 2], 2)
    ensures Balanced(map["a" := 2, "b" := 2], 2)["b"]
            == ["b1", "b2", "b1", "b2", "b1", "b2", "b1", "b2"]
  {
    var b1, b2 := Label("b", 1), Label("b", 2);
    assert Pattern("b", 4, 1, 2, 8)
           == [b1, b2, b1, b2, b1, b2, b1, b2];
    LevelLabels();
    var f := map["a" := 2, "b" := 2];
    CountsAB(f);
    ColumnByFormula(f, 2, 1, "b", 4, 1, 2, 8);
  }

  // ---------------------------------------------------------------------------
  // demo_data.

  /** How the names of the tests classify. */
  lemma TestNames()
    ensures Valid("a") && KindOf("a") == Factor
    ensures Valid("b") && KindOf("b") == Factor
    ensures Valid("x") && KindOf("x") == Numeric
    ensures Valid("y") && KindOf("y") == Numeric
    ensures !Valid("__123")
  {
    KindOfRanges("a");
    KindOfRanges("b");
    KindOfRanges("x");
    KindOfRanges("y");
    KindOfRanges("__123");
  }

  /** A name starting with a letter from p to z is a valid numerical name. */
  lemma NumericName(name: string)
    requires |name| > 0 && 'p' <= name[0] <= 'z'
    ensures Valid(name) && KindOf(name) == Numeric
  {
    KindOfRanges(name);
  }

  /** Every name of `["a", "b", "x"]` is accepted. */
  lemma ValidABX()
    ensures forall i :: 0 <= i < 3 ==> Valid(["a", "b", "x"][i])
  {
    TestNames();
    var names := ["a", "b", "x"];
    forall i | 0 <= i < 3
      ensures Valid(names[i])
    {
      assert i == 0 || i == 1 || i == 2;
    }
  }

  /** The names of one kind, given name by name, are exactly the set `s`. */
  lemma KindSet(names: seq<string>, kind: Kind, s: set<string>)
    requires forall i :: 0 <= i < |names| ==> |names[i]| > 0 && (KindOf(names[i]) == kind <==> names[i] in s)
    requires forall n :: n in s ==> n in names
    ensures kind == Factor ==> Categories(names) == s
    ensures kind == Numeric ==> Numerics(names) == s
  {
    forall n | n in names
      ensures |n| > 0 && (KindOf(n) == kind <==> n in s)
    {
      var i :| 0 <= i < |names| && names[i] == n;
    }
  }

  /** `a` and `b` are the categorical names of `["a", "b", "x"]`. */
  lemma CategoriesABX()
    ensures Categories(["a", "b", "x"]) == {"a", "b"}
  {
    var names, s := ["a", "b", "x"], {"a", "b"};
    TestNames();
    forall i | 0 <= i < |names|
      ensures |names[i]| > 0 && (KindOf(names[i]) == Factor <==> names[i] in s)
    {
      if i == 0 {
      } else if i == 1 {
      } else {
        assert names[i] !in s;
      }
    }
    assert names[0] == "a" && names[1] == "b";
    KindSet(names, Factor, s);
  }

  /** `x` is the numerical name of `["a", "b", "x"]`. */
  lemma NumericsABX()
    ensures Numerics(["a", "b", "x"]) == {"x"}
  {
    var names, s := ["a", "b", "x"], {"x"};
    TestNames();
    forall i | 0 <= i < |names|
      ensures |names[i]| > 0 && (KindOf(names[i]) == Numeric <==> names[i] in s)
    {
      if i == 0 {
        assert names[i] !in s;
      } else if i == 1 {
        assert names[i] !in s;
      } else {
      }
    }
    assert names[2] == "x";
    KindSet(names, Numeric, s);
  }

  /** The default options give two levels, five rows at least, and nothing unexpected. */
  lemma DefaultOptions()
    ensures OptionsInRange(map[])
    ensures Unexpected(map[]) == map[]
    ensures LevelCount(map[]) == 2 && MinRows(map[]) == 5
  {
  }

  /** `min_rows=10`, other options left at their defaults. */
  lemma MinRowsTen()
    ensures OptionsInRange(map["min_rows" := 10])
    ensures Unexpected(map["min_rows" := 10]) == map[]
    ensures LevelCount(map["min_rows" := 10]) == 2 && MinRows(map["min_rows" := 10]) == 10
  {
    assert Unexpected(map["min_rows" := 10]).Keys == {};
  }

  /** `min_rows=10, nlevels=3`. */
  lemma MinRowsTenThreeLevels()
    ensures OptionsInRange(map["min_rows" := 10, "nlevels" := 3])
    ensures Unexpected(map["min_rows" := 10, "nlevels" := 3]) == map[]
    ensures LevelCount(map["min_rows" := 10, "nlevels" := 3]) == 3
    ensures MinRows(map["min_rows" := 10, "nlevels" := 3]) == 10
  {
    assert Unexpected(map["min_rows" := 10, "nlevels" := 3]).Keys == {};
  }

  /** The factor map for categorical names `a` and `b` with `n` levels each. */
  lemma FactorsAB(n: int)
    requires n >= 1
    ensures CategoricalFactors({"a", "b"}, n) == map["a" := n, "b" := n]
    ensures DesignSize(CategoricalFactors({"a", "b"}, n)) == n * n
  {
    var f := CategoricalFactors({"a", "b"}, n);
    assert f.Keys == {"a", "b"};
    assert f == map["a" := n, "b" := n];
    CountsAB(f);
  }

  /** Two categorical names with `n` levels each: `ceil(minRows / n ** 2)`
      copies of the design, that many times `n ** 2` rows. */
  lemma RowsAB(n: int, minRows: int)
    requires n >= 1 && minRows >= 0
    ensures RepeatCount({"a", "b"}, n, minRows) == CeilDiv(minRows, n * n)
    ensures RowCount({"a", "b"}, n, minRows) == NumRows(minRows, n * n)
  {
    FactorsAB(n);
  }

  /** A map whose keys are exactly the members of `names`, which are exactly
      those of `expected`, has the key set `expected`. */
  lemma KeysAre(d: map<string, DataColumn>, names: seq<string>, expected: set<string>)
    requires forall x :: x in d <==> x in names
    requires forall x :: x in names <==> x in expected
    ensures d.Keys == expected
  {
  }

  /** `demo_data("a", "b", "x")` succeeds with one column per name. */
  lemma DemoABXShape(draw: nat -> real)
    ensures Demo(["a", "b", "x"], map[], draw).Ok?
    ensures Demo(["a", "b", "x"], map[], draw).value.Keys == {"a", "b", "x"}
  {
    var names := ["a", "b", "x"];
    ValidABX();
    DefaultOptions();
    DemoKeys(names, map[], draw);
    KeysAre(Demo(names, map[], draw).value, names, {"a", "b", "x"});
  }

  /** `demo_data("a", "b", "x")`: the categorical columns are those of
      `balanced(a=2, b=2, repeat=2)`. */
  lemma DemoABXCategorical(draw: nat -> real)
    ensures Demo(["a", "b", "x"], map[], draw).Ok?
    ensures "a" in Demo(["a", "b", "x"], map[], draw).value
    ensures "b" in Demo(["a", "b", "x"], map[], draw).value
    ensures Demo(["a", "b", "x"], map[], draw).value["a"]
            == Categorical(["a1", "a1", "a2", "a2", "a1", "a1", "a2", "a2"])
    ensures Demo(["a", "b", "x"], map[], draw).value["b"]
            == Categorical(["b1", "b2", "b1", "b2", "b1", "b2", "b1", "b2"])
  {
    var names := ["a", "b", "x"];
    ValidABX();
    CategoriesABX();
    DefaultOptions();
    FactorsAB(2);
    RowsAB(2, 5);
    assert RepeatCount({"a", "b"}, 2, 5) == 2;
    DemoCategorical(names, map[], draw, "a");
    DemoCategorical(names, map[], draw, "b");
    BalancedA22Twice();
    BalancedB22Twice();
  }

  /** `demo_data("a", "b", "x")`: `x` holds the generator's first eight draws. */
  lemma DemoABXNumerical(draw: nat -> real)
    ensures Demo(["a", "b", "x"], map[], draw).Ok?
    ensures "x" in Demo(["a", "b", "x"], map[], draw).value
    ensures Demo(["a", "b", "x"], map[], draw).value["x"] == Numerical(Draws(draw, 0, 8))
  {
    var names := ["a", "b", "x"];
    assert OptionsInRange(map[]) && Demo(names, map[], draw).Ok? by {
      ValidABX();
      DefaultOptions();
    }
    assert |Numerics(names)| == 1 && Sorted(Numerics(names))[0] == "x" by {
      NumericsABX();
      SortedX();
    }
    assert RowCount(Categories(names), LevelCount(map[]), MinRows(map[])) == 8 by {
      CategoriesABX();
      DefaultOptions();
      RowsABDefault();
    }
    NumericColumn(names, map[], draw, 0, "x", 8);
    assert BlockStart(0, 8) == 0;
  }

  /** The `j`-th numerical name in sorted order, once named and with the row
      count worked out, takes the `rows` draws from `j * rows` on. */
  lemma NumericColumn(names: seq<string>, options: map<string, int>, draw: nat -> real, j: int, x: string, rows: nat)
    requires OptionsInRange(options)
    requires Demo(names, options, draw).Ok? && 0 <= j < |Numerics(names)|
    requires Sorted(Numerics(names))[j] == x
    requires RowCount(Categories(names), LevelCount(options), MinRows(options)) == rows
    ensures x in Demo(names, options, draw).value
    ensures Demo(names, options, draw).value[x] == Numerical(Draws(draw, BlockStart(j, rows), rows))
  {
    DemoNumerical(names, options, draw, j);
  }

  lemma SortedX()
    ensures Sorted({"x"}) == ["x"]
  {
    SortedIsUnique({"x"}, ["x"]);
  }

  /** Two categorical names, default options: eight rows. */
  lemma RowsABDefault()
    ensures RowCount({"a", "b"}, 2, 5) == 8
    ensures BlockStart(0, 8) == 0
  {
    RowsAB(2, 5);
    assert 2 * 2 == 4 && CeilDiv(5, 4) == 2;
    assert NumRows(5, 4) == 8;
  }

  /** Every name of `["x", "y"]` is accepted, both numerical. */
  lemma ClassifyXY()
    ensures forall i :: 0 <= i < 2 ==> Valid(["x", "y"][i])
    ensures Categories(["x", "y"]) == {}
    ensures Numerics(["x", "y"]) == {"x", "y"}
  {
    NumericName("x");
    NumericName("y");
    var names := ["x", "y"];
    forall i | 0 <= i < 2
      ensures Valid(names[i]) && KindOf(names[i]) == Numeric && names[i] in {"x", "y"}
    {
      assert i == 0 || i == 1;
    }
    assert names[0] == "x" && names[1] == "y";
    KindSet(names, Factor, {});
    KindSet(names, Numeric, {"x", "y"});
  }

  /** `demo_data("x", "y")` succeeds with one column per name; with no
      categorical name the design has one combination, so five rows. */
  lemma DemoXYShape(draw: nat -> real)
    ensures Demo(["x", "y"], map[], draw).Ok?
    ensures Demo(["x", "y"], map[], draw).value.Keys == {"x", "y"}
    ensures Categories(["x", "y"]) == {} && Numerics(["x", "y"]) == {"x", "y"}
    ensures Sorted({"x", "y"}) == ["x", "y"]
    ensures RowCount({}, 2, 5) == 5
  {
    var names := ["x", "y"];
    ClassifyXY();
    DefaultOptions();
    DemoKeys(names, map[], draw);
    KeysAre(Demo(names, map[], draw).value, names, {"x", "y"});
    SortedXY();
    RowsWithoutFactors(2, 5);
  }

  lemma SortedXY()
    ensures Sorted({"x", "y"}) == ["x", "y"]
  {
    assert Le("x", "y");
    assert StrictlyIncreasing(["x", "y"]);
    SortedIsUnique({"x", "y"}, ["x", "y"]);
  }

  /** Without categorical names there is one combination, so exactly
      `minRows` rows. */
  lemma RowsWithoutFactors(nlevels: int, minRows: int)
    requires nlevels >= 1 && minRows >= 0
    ensures RowCount({}, nlevels, minRows) == minRows
  {
    RowCountIsLeastMultiple({}, nlevels, minRows);
    NumRowsCovers(minRows, 1);
  }

  /** `demo_data("x", "y")`: `x` takes draws 0 to 4 and `y` draws 5 to 9. */
  lemma DemoXY(draw: nat -> real)
    ensures Demo(["x", "y"], map[], draw).Ok?
    ensures "x" in Demo(["x", "y"], map[], draw).value && "y" in Demo(["x", "y"], map[], draw).value
    ensures Demo(["x", "y"], map[], draw).value["x"] == Numerical(Draws(draw, 0, 5))
    ensures Demo(["x", "y"], map[], draw).value["y"] == Numerical(Draws(draw, 5, 5))
  {
    DemoXYShape(draw);
    DefaultOptions();
    RowsWithoutFactors(2, 5);
    assert BlockStart(1, 5) == 5;
    NumericColumn(["x", "y"], map[], draw, 0, "x", 5);
    NumericColumn(["x", "y"], map[], draw, 1, "y", 5);
  }

  /** `demo_data("x", min_rows=10)` has ten rows. */
  lemma DemoXTenRows(draw: nat -> real)
    ensures Demo(["x"], map["min_rows" := 10], draw).Ok?
    ensures "x" in Demo(["x"], map["min_rows" := 10], draw).value
    ensures Height(Demo(["x"], map["min_rows" := 10], draw).value["x"]) == 10
  {
    var names, options := ["x"], map["min_rows" := 10];
    ClassifyX();
    MinRowsTen();
    assert Demo(names, options, draw).Ok?;
    assert Pow(LevelCount(options), |Categories(names)|) == 1;
    NumRowsCovers(10, 1);
    DemoHeight(names, options, draw, "x");
  }

  /** `x` alone is accepted, as a numerical name. */
  lemma ClassifyX()
    ensures forall i :: 0 <= i < 1 ==> Valid(["x"][i])
    ensures Categories(["x"]) == {} && Numerics(["x"]) == {"x"}
  {
    NumericName("x");
    var names := ["x"];
    assert names[0] == "x";
    KindSet(names, Factor, {});
    KindSet(names, Numeric, {"x"});
  }

  /** `demo_data("a", "b", "x", min_rows=10)` has twelve rows: three copies
      of the four combinations. */
  lemma DemoABXTwelveRows(draw: nat -> real)
    ensures Demo(["a", "b", "x"], map["min_rows" := 10], draw).Ok?
    ensures "x" in Demo(["a", "b", "x"], map["min_rows" := 10], draw).value
    ensures Height(Demo(["a", "b", "x"], map["min_rows" := 10], draw).value["x"]) == 12
  {
    ValidABX();
    CategoriesABX();
    MinRowsTen();
    RowArithmetic();
    DemoHeight(["a", "b", "x"], map["min_rows" := 10], draw, "x");
  }

  /** The row counts of the tests with two categorical names. */
  lemma RowArithmetic()
    ensures |{"a", "b"}| == 2
    ensures NumRows(10, Pow(2, 2)) == 12
    ensures NumRows(10, Pow(3, 2)) == 18
  {
    assert Pow(2, 2) == 4 && Pow(3, 2) == 9;
  }

  /** `demo_data("a", "b", "x", min_rows=10, nlevels=3)` has eighteen rows:
      two copies of the nine combinations. */
  lemma DemoABXEighteenRows(draw: nat -> real)
    ensures Demo(["a", "b", "x"], map["min_rows" := 10, "nlevels" := 3], draw).Ok?
    ensures "x" in Demo(["a", "b", "x"], map["min_rows" := 10, "nlevels" := 3], draw).value
    ensures Height(Demo(["a", "b", "x"], map["min_rows" := 10, "nlevels" := 3], draw).value["x"]) == 18
  {
    ValidABX();
    CategoriesABX();
    MinRowsTenThreeLevels();
    RowArithmetic();
    DemoHeight(["a", "b", "x"], map["min_rows" := 10, "nlevels" := 3], draw, "x");
  }

  /** `demo_data("a", "b", "__123")` raises the bad-name error for `__123`. */
  lemma DemoBadName(draw: nat -> real)
    ensures Demo(["a", "b", "__123"], map[], draw) == Err(BadName("__123"))
  {
    var names := ["a", "b", "__123"];
    TestNames();
    DefaultOptions();
    var r := Demo(names, map[], draw);
    assert !Valid(names[2]);
    var i :| FirstInvalid(names, i) && r.error == NameError(names[i]);
    assert i == 2;
  }

  /** `asdfasdf=123` is neither `nlevels` nor `min_rows`. */
  lemma UnexpectedAsdf()
    ensures OptionsInRange(map["asdfasdf" := 123])
    ensures Unexpected(map["asdfasdf" := 123]) == map["asdfasdf" := 123]
  {
    var options := map["asdfasdf" := 123];
    assert Unexpected(options).Keys == options.Keys;
  }

  /** `demo_data("a", "b", asdfasdf=123)` raises the unexpected-options error,
      before any name is looked at. */
  lemma DemoUnexpectedOption(draw: nat -> real)
    ensures Demo(["a", "b"], map["asdfasdf" := 123], draw) == Err(UnexpectedOptions(map["asdfasdf" := 123]))
  {
    UnexpectedAsdf();
    assert "asdfasdf" in Unexpected(map["asdfasdf" := 123]);
  }

  /** With an unexpected option, `nlevels=0` is never looked at:
      `demo_data("a", nlevels=0, foo=1)` raises the unexpected-options error
      for `foo` alone. */
  lemma DemoUnexpectedBeforeLevels(draw: nat -> real)
    ensures "foo" in Unexpected(map["nlevels" := 0, "foo" := 1])
    ensures Unexpected(map["nlevels" := 0, "foo" := 1]) == map["foo" := 1]
    ensures Demo(["a"], map["nlevels" := 0, "foo" := 1], draw) == Err(UnexpectedOptions(map["foo" := 1]))
  {
    var options := map["nlevels" := 0, "foo" := 1];
    assert Unexpected(options).Keys == {"foo"};
  }

  /** With a bad name, `nlevels=0` is never looked at either:
      `demo_data("_", nlevels=0)` raises the bad-name error for `_`. */
  lemma DemoBadNameBeforeLevels(draw: nat -> real)
    ensures !Valid(["_"][0])
    ensures Demo(["_"], map["nlevels" := 0], draw) == Err(BadName("_"))
  {
    var names, options := ["_"], map["nlevels" := 0];
    assert Unexpected(options) == map[];
    assert !Valid(names[0]);
    var r := Demo(names, options, draw);
    var i :| FirstInvalid(names, i) && r.error == NameError(names[i]);
  }

  // ---------------------------------------------------------------------------
  // The documented call `demo_data("a", "b", "x", "y")`.

  /** Every name of `["a", "b", "x", "y"]` is accepted. */
  lemma ValidABXY()
    ensures forall i :: 0 <= i < 4 ==> Valid(["a", "b", "x", "y"][i])
  {
    TestNames();
    var names := ["a", "b", "x", "y"];
    forall i | 0 <= i < 4
      ensures Valid(names[i])
    {
      assert i == 0 || i == 1 || i == 2 || i == 3;
    }
  }

  /** `a` and `b` are the categorical names of `["a", "b", "x", "y"]`, and
      `x` and `y` the numerical ones. */
  lemma KindsABXY()
    ensures Categories(["a", "b", "x", "y"]) == {"a", "b"}
    ensures Numerics(["a", "b", "x", "y"]) == {"x", "y"}
  {
    var names, cs, ns := ["a", "b", "x", "y"], {"a", "b"}, {"x", "y"};
    TestNames();
    forall i | 0 <= i < |names|
      ensures |names[i]| > 0
      ensures KindOf(names[i]) == Factor <==> names[i] in cs
      ensures KindOf(names[i]) == Numeric <==> names[i] in ns
    {
      assert i == 0 || i == 1 || i == 2 || i == 3;
    }
    assert names[0] == "a" && names[1] == "b" && names[2] == "x" && names[3] == "y";
    KindSet(names, Factor, cs);
    KindSet(names, Numeric, ns);
  }

  /** `demo_data("a", "b", "x", "y")` succeeds with one column per name. */
  lemma DemoABXYShape(draw: nat -> real)
    ensures Demo(["a", "b", "x", "y"], map[], draw).Ok?
    ensures Demo(["a", "b", "x", "y"], map[], draw).value.Keys == {"a", "b", "x", "y"}
  {
    var names := ["a", "b", "x", "y"];
    ValidABXY();
    DefaultOptions();
    DemoKeys(names, map[], draw);
    KeysAre(Demo(names, map[], draw).value, names, {"a", "b", "x", "y"});
  }

  /** `demo_data("a", "b", "x", "y")`: the categorical columns are those of
      `balanced(a=2, b=2, repeat=2)`, as documented. */
  lemma DemoABXYCategorical(draw: nat -> real)
    ensures Demo(["a", "b", "x", "y"], map[], draw).Ok?
    ensures "a" in Demo(["a", "b", "x", "y"], map[], draw).value
    ensures "b" in Demo(["a", "b", "x", "y"], map[], draw).value
    ensures Demo(["a", "b", "x", "y"], map[], draw).value["a"]
            == Categorical(["a1", "a1", "a2", "a2", "a1", "a1", "a2", "a2"])
    ensures Demo(["a", "b", "x", "y"], map[], draw).value["b"]
            == Categorical(["b1", "b2", "b1", "b2", "b1", "b2", "b1", "b2"])
  {
    var names := ["a", "b", "x", "y"];
    ValidABXY();
    KindsABXY();
    DefaultOptions();
    FactorsAB(2);
    RowsAB(2, 5);
    assert RepeatCount({"a", "b"}, 2, 5) == 2;
    DemoCategorical(names, map[], draw, "a");
    DemoCategorical(names, map[], draw, "b");
    BalancedA22Twice();
    BalancedB22Twice();
  }

  /** `demo_data("a", "b", "x", "y")`: `x` holds the generator's first eight
      draws and `y` the next eight. */
  lemma DemoABXYNumerical(draw: nat -> real)
    ensures Demo(["a", "b", "x", "y"], map[], draw).Ok?
    ensures "x" in Demo(["a", "b", "x", "y"], map[], draw).value
    ensures "y" in Demo(["a", "b", "x", "y"], map[], draw).value
    ensures Demo(["a", "b", "x", "y"], map[], draw).value["x"] == Numerical(Draws(draw, 0, 8))
    ensures Demo(["a", "b", "x", "y"], map[], draw).value["y"] == Numerical(Draws(draw, 8, 8))
  {
    var names := ["a", "b", "x", "y"];
    assert OptionsInRange(map[]) && Demo(names, map[], draw).Ok? by {
      ValidABXY();
      DefaultOptions();
    }
    assert |Numerics(names)| == 2 && Sorted(Numerics(names)) == ["x", "y"] by {
      KindsABXY();
      SortedXY();
    }
    assert RowCount(Categories(names), LevelCount(map[]), MinRows(map[])) == 8 by {
      KindsABXY();
      DefaultOptions();
      RowsABDefault();
    }
    NumericColumn(names, map[], draw, 0, "x", 8);
    NumericColumn(names, map[], draw, 1, "y", 8);
    assert BlockStart(0, 8) == 0 && BlockStart(1, 8) == 8;
  }
}
