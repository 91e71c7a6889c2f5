/** `demo_data`: a small data set built from variable names. Options other
    than `nlevels` and `min_rows` are refused first; then each name is
    classified by its first character (a to n: categorical, p to z:
    numerical, anything else: an error naming it); the categorical names get
    a balanced design repeated just often enough to reach `min_rows` rows,
    and every numerical name gets that many normal samples. */
module DemoData {
  import opened LexOrder
  import opened CartesianProduct
  import opened FactorialDesign

  /** A column of the result: level labels, or sampled numbers. */
  datatype DataColumn = Categorical(labels: seq<string>) | Numerical(values: seq<real>)

  /** The number of entries in a column. */
  function Height(c: DataColumn): nat
  {
    match c
    case Categorical(labels) => |labels|
    case Numerical(values) => |values|
  }

  /** The exceptions `demo_data` raises. */
  datatype Error =
    | UnexpectedOptions(extra: map<string, int>)  // TypeError: unexpected keyword arguments
    | BadName(name: string)                       // PatsyError: bad name
    | EmptyName                                   // IndexError from `name[0]` on ""

  datatype Result<T> = Ok(value: T) | Err(error: Error)

  /** How a name's first character classifies it. */
  datatype Kind = Factor | Numeric | Invalid

  const CategoricalInitials: string := "abcdefghijklmn"
  const NumericalInitials: string := "pqrstuvwxyz"
  const DefaultLevels: int := 2
  const DefaultMinRows: int := 5

  function KindOf(name: string): Kind
    requires |name| > 0
  {
    if name[0] in CategoricalInitials then Factor
    else if name[0] in NumericalInitials then Numeric
    else Invalid
  }

  /** The classification as character ranges: a to n (n included) is
      categorical, p to z numerical; `o` and everything outside a to z is invalid. */
  lemma KindOfRanges(name: string)
    requires |name| > 0
    ensures KindOf(name) == Factor <==> 'a' <= name[0] <= 'n'
    ensures KindOf(name) == Numeric <==> 'p' <= name[0] <= 'z'
    ensures KindOf(name) == Invalid <==> !('a' <= name[0] <= 'n' || 'p' <= name[0] <= 'z')
  {
    var c := name[0];
    if 'a' <= c <= 'n' {
      assert CategoricalInitials[c as int - 'a' as int] == c;
    } else if 'p' <= c <= 'z' {
      assert NumericalInitials[c as int - 'p' as int] == c;
    }
  }

  /** A name the classification accepts. */
  predicate Valid(name: string)
  {
    |name| > 0 && KindOf(name) != Invalid
  }

  /** The exception a rejected name raises. */
  function NameError(name: string): Error
  {
    if |name| == 0 then EmptyName else BadName(name)
  }

  /** The categorical names among `names`. */
  function Categories(names: seq<string>): set<string>
  {
    set name | name in names && |name| > 0 && KindOf(name) == Factor
  }

  /** The numerical names among `names`. */
  function Numerics(names: seq<string>): set<string>
  {
    set name | name in names && |name| > 0 && KindOf(name) == Numeric
  }

  /** `names[i]` is the first name the classification rejects. */
  predicate FirstInvalid(names: seq<string>, i: int)
  {
    && 0 <= i < |names|
    && !Valid(names[i])
    && forall j :: 0 <= j < i ==> Valid(names[j])
  }

  /** The classification loop: the categorical and the numerical names, or the
      exception for the first name that is neither. */
  function Classify(names: seq<string>): (r: Result<(set<string>, set<string>)>)
    ensures r.Ok? <==> forall i :: 0 <= i < |names| ==> Valid(names[i])
    ensures r.Ok? ==> r.value.0 == Categories(names) && r.value.1 == Numerics(names)
    ensures r.Err? ==> exists i :: FirstInvalid(names, i) && r.error == NameError(names[i])
  {
    if |names| == 0 then Ok(({}, {}))
    else
      var name := names[0];
      var rest := Classify(names[1..]);
      if !Valid(name) then
        assert FirstInvalid(names, 0);
        Err(NameError(name))
      else if rest.Err? then
        ClassifyShift(names, rest.error);
        rest
      else
        ClassifyCons(names);
        var (cats, nums) := rest.value;
        if KindOf(name) == Factor then Ok((cats + {name}, nums))
        else Ok((cats, nums + {name}))
  }

  /** A valid head in front of names whose first rejected name raised `e`
      leaves that name the first rejected one. */
  lemma ClassifyShift(names: seq<string>, e: Error)
    requires |names| > 0 && Valid(names[0])
    requires exists i :: FirstInvalid(names[1..], i) && e == NameError(names[1..][i])
    ensures exists i :: FirstInvalid(names, i) && e == NameError(names[i])
  {
    var tail := names[1..];
    var i :| FirstInvalid(tail, i) && e == NameError(tail[i]);
    assert tail[i] == names[i + 1];
    assert forall j :: 0 <= j < i ==> tail[j] == names[j + 1];
    assert FirstInvalid(names, i + 1);
  }

  /** A valid head joins its own kind's set; all the other names keep theirs,
      and every name after it is valid exactly when the tail is. */
  lemma ClassifyCons(names: seq<string>)
    requires |names| > 0 && Valid(names[0])
    ensures Categories(names) == (if KindOf(names[0]) == Factor then {names[0]} else {}) + Categories(names[1..])
    ensures Numerics(names) == (if KindOf(names[0]) == Numeric then {names[0]} else {}) + Numerics(names[1..])
    ensures (forall i :: 0 <= i < |names| ==> Valid(names[i]))
            <==> (forall i :: 0 <= i < |names| - 1 ==> Valid(names[1..][i]))
  {
    assert names == [names[0]] + names[1..];
    assert forall i :: 1 <= i < |names| ==> names[1..][i - 1] == names[i];
  }

  // ---------------------------------------------------------------------------
  // Row count.

  /** `int(np.ceil(a * 1.0 / b))`, computed exactly. */
  function CeilDiv(a: nat, b: nat): nat
    requires b >= 1
  {
    (a + b - 1) / b
  }

  /** `repeat * balanced_design_size`: the design size times the number of
      copies needed to reach `minRows`. */
  function NumRows(minRows: nat, size: nat): nat
    requires size >= 1
  {
    CeilDiv(minRows, size) * size
  }

  lemma MulCancel(a: int, b: int, c: int)
    requires c > 0 && a * c > b * c
    ensures a > b
  {
    if a <= b {
      MulMonotone(a, b, c);
    }
  }

  lemma MulMonotone(a: int, b: int, c: int)
    requires a <= b && c >= 0
    ensures a * c <= b * c
  {
  }

  /** The row count reaches `minRows`, is a whole number of copies of the
      design, and is `minRows` itself when the design has one combination. */
  lemma NumRowsCovers(minRows: nat, size: nat)
    requires size >= 1
    ensures NumRows(minRows, size) >= minRows
    ensures NumRows(minRows, size) < minRows + size
    ensures NumRows(minRows, size) % size == 0
    ensures NumRows(minRows, size) / size == CeilDiv(minRows, size)
    ensures size == 1 ==> NumRows(minRows, size) == minRows
  {
    var t := minRows + size - 1;
    var q := CeilDiv(minRows, size);
    DivMod(t, size);
    assert t == q * size + t % size;
    DivModUnique(q * size, size, q, 0);
  }

  /** No smaller whole number of copies reaches `minRows`: the row count is
      the least multiple of the design size that is at least `minRows`. */
  lemma NumRowsIsLeast(minRows: nat, size: nat, m: int)
    requires size >= 1
    requires m >= minRows && m % size == 0
    ensures m >= NumRows(minRows, size)
  {
    var q := CeilDiv(minRows, size);
    NumRowsCovers(minRows, size);
    DivMod(m, size);
    var k := m / size;
    assert m == k * size;
    MulPred(q, size);
    assert k * size > (q - 1) * size;
    MulCancel(k, q - 1, size);
    MulMonotone(q, k, size);
  }

  function Pow(b: int, e: nat): int
  {
    if e == 0 then 1 else b * Pow(b, e - 1)
  }

  /** The product of `n` equal counts `b` is `b` to the power `n`. */
  lemma {:induction false} ProdConstant(cs: seq<int>, b: int)
    requires forall i :: 0 <= i < |cs| ==> cs[i] == b
    ensures Prod(cs) == Pow(b, |cs|)
    decreases |cs|
  {
    if |cs| != 0 {
      var rest := cs[1..];
      assert forall i :: 0 <= i < |rest| ==> rest[i] == cs[i + 1];
      ProdConstant(rest, b);
    }
  }

  // ---------------------------------------------------------------------------
  // The categorical part.

  /** The factor map handed to `balanced`: every categorical name with `nlevels` levels. */
  function CategoricalFactors(cats: set<string>, nlevels: int): (factors: map<string, int>)
    ensures nlevels >= 1 ==> AllPositive(factors)
  {
    map name | name in cats :: nlevels
  }

  /** `np.prod(categorical.values())`: with `k` categorical names the design
      has `nlevels ** k` combinations. */
  lemma CategoricalDesignSize(cats: set<string>, nlevels: int)
    ensures DesignSize(CategoricalFactors(cats, nlevels)) == Pow(nlevels, |cats|)
  {
    var factors := CategoricalFactors(cats, nlevels);
    assert factors.Keys == cats;
    var cs := Counts(factors);
    assert |cs| == |cats|;
    ProdConstant(cs, nlevels);
  }

  /** `repeat`: how many copies of the design reach `minRows`. */
  function RepeatCount(cats: set<string>, nlevels: int, minRows: int): nat
    requires nlevels >= 1 && minRows >= 0
  {
    var factors := CategoricalFactors(cats, nlevels);
    DesignSizePositive(factors);
    CeilDiv(minRows, DesignSize(factors))
  }

  /** `num_rows`: the height of every column. */
  function RowCount(cats: set<string>, nlevels: int, minRows: int): nat
    requires nlevels >= 1 && minRows >= 0
  {
    var factors := CategoricalFactors(cats, nlevels);
    DesignSizePositive(factors);
    NumRows(minRows, DesignSize(factors))
  }

  /** The row count is the least multiple of `nlevels ** k` that reaches
      `minRows`, where `k` is the number of categorical names. */
  lemma RowCountIsLeastMultiple(cats: set<string>, nlevels: int, minRows: int)
    requires nlevels >= 1 && minRows >= 0
    ensures Pow(nlevels, |cats|) >= 1
    ensures RowCount(cats, nlevels, minRows) == NumRows(minRows, Pow(nlevels, |cats|))
  {
    var factors := CategoricalFactors(cats, nlevels);
    DesignSizePositive(factors);
    CategoricalDesignSize(cats, nlevels);
  }

  /** The categorical columns as result columns. */
  function Wrap(design: map<string, seq<string>>): map<string, DataColumn>
  {
    map name | name in design :: Categorical(design[name])
  }

  // ---------------------------------------------------------------------------
  // Numerical columns.

  /** `n` consecutive draws of the generator, starting at draw `offset`. */
  function Draws(draw: nat -> real, offset: nat, n: nat): seq<real>
  {
    seq(n, i requires 0 <= i < n => draw(offset + i))
  }

  /** Where the `j`-th block of `rows` draws starts, counted one block at a time. */
  function BlockStart(j: nat, rows: nat): nat
  {
    if j == 0 then 0 else BlockStart(j - 1, rows) + rows
  }

  /** The `j`-th block starts at draw `j * rows`. */
  lemma {:induction false} BlockStartIsProduct(j: nat, rows: nat)
    ensures BlockStart(j, rows) == j * rows
  {
    if j > 0 {
      BlockStartIsProduct(j - 1, rows);
      MulPred(j, rows);
    }
  }

  /** The loop `for name in names: data[name] = r.normal(size=rows)`, as the
      map after its last iteration: the `j`-th name takes the `rows` draws
      that follow the `j * rows` the earlier names consumed. */
  function FillNumeric(data: map<string, DataColumn>, names: seq<string>, rows: nat, draw: nat -> real)
    : map<string, DataColumn>
    decreases |names|
  {
    if |names| == 0 then data
    else
      var last := |names| - 1;
      FillNumeric(data, names[..last], rows, draw)[names[last] := Numerical(Draws(draw, BlockStart(last, rows), rows))]
  }

  /** The loop adds exactly the given names to the map. */
  lemma {:induction false} FillNumericKeys(data: map<string, DataColumn>, names: seq<string>, rows: nat, draw: nat -> real)
    ensures forall x :: x in FillNumeric(data, names, rows, draw) <==> x in data || x in names
    decreases |names|
  {
    if |names| != 0 {
      var last := |names| - 1;
      FillNumericKeys(data, names[..last], rows, draw);
      assert names == names[..last] + [names[last]];
    }
  }

  /** The loop leaves every entry whose name it does not fill as it was. */
  lemma {:induction false} FillNumericKeeps(data: map<string, DataColumn>, names: seq<string>, rows: nat,
                                            draw: nat -> real, x: string)
    requires x in data && x !in names
    ensures x in FillNumeric(data, names, rows, draw)
    ensures FillNumeric(data, names, rows, draw)[x] == data[x]
    decreases |names|
  {
    if |names| != 0 {
      var last := |names| - 1;
      var init := names[..last];
      assert x !in init by {
        assert forall i :: 0 <= i < |init| ==> init[i] == names[i];
      }
      FillNumericKeeps(data, init, rows, draw, x);
    }
  }

  /** With distinct names, the `j`-th name receives the `j`-th block of
      `rows` draws. */
  lemma {:induction false} FillNumericBlock(data: map<string, DataColumn>, names: seq<string>, rows: nat,
                                            draw: nat -> real, j: int)
    requires Distinct(names)
    requires 0 <= j < |names|
    ensures names[j] in FillNumeric(data, names, rows, draw)
    ensures FillNumeric(data, names, rows, draw)[names[j]] == Numerical(Draws(draw, BlockStart(j, rows), rows))
    decreases |names|
  {
    var last := |names| - 1;
    var init := names[..last];
    if j < last {
      assert init[j] == names[j];
      assert names[j] != names[last];
      assert Distinct(init) by {
        assert forall i :: 0 <= i < |init| ==> init[i] == names[i];
      }
      FillNumericBlock(data, init, rows, draw, j);
    }
  }

  // ---------------------------------------------------------------------------
  // demo_data.

  /** `kwargs.pop(key, default)`, the value only. */
  function Option(options: map<string, int>, key: string, default: int): int
  {
    if key in options then options[key] else default
  }

  /** `nlevels`, 2 unless given. */
  function LevelCount(options: map<string, int>): int
  {
    Option(options, "nlevels", DefaultLevels)
  }

  /** `min_rows`, 5 unless given. */
  function MinRows(options: map<string, int>): int
  {
    Option(options, "min_rows", DefaultMinRows)
  }

  /** The options other than `nlevels` and `min_rows`. */
  function Unexpected(options: map<string, int>): map<string, int>
  {
    options - {"nlevels", "min_rows"}
  }

  /** The option values the model computes a design for: at least one level
      and a row count that is not negative. */
  predicate OptionsInRange(options: map<string, int>)
  {
    && ("nlevels" in options ==> options["nlevels"] >= 1)
    && ("min_rows" in options ==> options["min_rows"] >= 0)
  }

  /** Everything after the classification: the balanced design on the
      categorical names, repeated to reach `minRows`, then one block of draws
      per numerical name, in sorted order. */
  function Build(cats: set<string>, nums: set<string>, nlevels: int, minRows: int, draw: nat -> real)
    : map<string, DataColumn>
    requires nlevels >= 1 && minRows >= 0
  {
    var design := Balanced(CategoricalFactors(cats, nlevels), RepeatCount(cats, nlevels, minRows));
    FillNumeric(Wrap(design), Sorted(nums), RowCount(cats, nlevels, minRows), draw)
  }

  /** The result has exactly one column per name. */
  lemma BuildKeys(cats: set<string>, nums: set<string>, nlevels: int, minRows: int, draw: nat -> real)
    requires nlevels >= 1 && minRows >= 0
    ensures forall x :: x in Build(cats, nums, nlevels, minRows, draw) <==> x in cats || x in nums
  {
    var factors := CategoricalFactors(cats, nlevels);
    var repeat := RepeatCount(cats, nlevels, minRows);
    var data := Wrap(Balanced(factors, repeat));
    var names := Sorted(nums);
    var rows := RowCount(cats, nlevels, minRows);
    assert Build(cats, nums, nlevels, minRows, draw) == FillNumeric(data, names, rows, draw);
    BalancedKeys(factors, repeat);
    FillNumericKeys(data, names, rows, draw);
  }

  /** A categorical name's column is its column of the balanced design. */
  lemma BuildCategorical(cats: set<string>, nums: set<string>, nlevels: int, minRows: int, draw: nat -> real,
                         name: string)
    requires nlevels >= 1 && minRows >= 0
    requires cats !! nums && name in cats
    ensures name in Balanced(CategoricalFactors(cats, nlevels), RepeatCount(cats, nlevels, minRows))
    ensures name in Build(cats, nums, nlevels, minRows, draw)
    ensures Build(cats, nums, nlevels, minRows, draw)[name]
            == Categorical(Balanced(CategoricalFactors(cats, nlevels), RepeatCount(cats, nlevels, minRows))[name])
  {
    var factors := CategoricalFactors(cats, nlevels);
    var repeat := RepeatCount(cats, nlevels, minRows);
    var design := Balanced(factors, repeat);
    var data := Wrap(design);
    var names := Sorted(nums);
    var rows := RowCount(cats, nlevels, minRows);
    assert Build(cats, nums, nlevels, minRows, draw) == FillNumeric(data, names, rows, draw);
    BalancedKeys(factors, repeat);
    assert name in data && name !in names;
    FillNumericKeeps(data, names, rows, draw, name);
  }

  /** The `j`-th numerical name in sorted order gets the `j`-th block of
      `rows` draws (draws `j * rows` to `(j + 1) * rows - 1`, by
      `BlockStartIsProduct`). */
  lemma BuildNumerical(cats: set<string>, nums: set<string>, nlevels: int, minRows: int, draw: nat -> real,
                       j: int)
    requires nlevels >= 1 && minRows >= 0
    requires 0 <= j < |nums|
    ensures |Sorted(nums)| == |nums|
    ensures Sorted(nums)[j] in Build(cats, nums, nlevels, minRows, draw)
    ensures Build(cats, nums, nlevels, minRows, draw)[Sorted(nums)[j]]
            == Numerical(Draws(draw, BlockStart(j, RowCount(cats, nlevels, minRows)), RowCount(cats, nlevels, minRows)))
  {
    var data := Wrap(Balanced(CategoricalFactors(cats, nlevels), RepeatCount(cats, nlevels, minRows)));
    var names := Sorted(nums);
    var rows := RowCount(cats, nlevels, minRows);
    assert Build(cats, nums, nlevels, minRows, draw) == FillNumeric(data, names, rows, draw);
    FillNumericBlock(data, names, rows, draw, j);
  }

  /** `num_rows` is `repeat` copies of the design. */
  lemma RowCountIsRepeats(cats: set<string>, nlevels: int, minRows: int)
    requires nlevels >= 1 && minRows >= 0
    ensures RowCount(cats, nlevels, minRows)
            == RepeatCount(cats, nlevels, minRows) * DesignSize(CategoricalFactors(cats, nlevels))
  {
  }

  /** A categorical column has `RowCount` entries. */
  lemma BuildCategoricalHeight(cats: set<string>, nums: set<string>, nlevels: int, minRows: int,
                               draw: nat -> real, name: string)
    requires nlevels >= 1 && minRows >= 0
    requires cats !! nums && name in cats
    ensures name in Build(cats, nums, nlevels, minRows, draw)
    ensures Height(Build(cats, nums, nlevels, minRows, draw)[name]) == RowCount(cats, nlevels, minRows)
  {
    var factors := CategoricalFactors(cats, nlevels);
    var repeat := RepeatCount(cats, nlevels, minRows);
    BuildCategorical(cats, nums, nlevels, minRows, draw, name);
    BalancedHeight(factors, repeat, name);
    RowCountIsRepeats(cats, nlevels, minRows);
  }

  /** A column of `balanced` has `repeat` times the design size entries. */
  lemma BalancedHeight(factors: map<string, int>, repeat: nat, name: string)
    requires AllPositive(factors) && name in factors
    ensures name in Balanced(factors, repeat)
    ensures |Balanced(factors, repeat)[name]| == repeat * DesignSize(factors)
  {
    BalancedLength(factors, repeat, name);
    if repeat == 0 {
      assert repeat * DesignSize(factors) == 0;
    }
  }

  /** A numerical column has `RowCount` entries. */
  lemma BuildNumericalHeight(cats: set<string>, nums: set<string>, nlevels: int, minRows: int,
                             draw: nat -> real, name: string)
    requires nlevels >= 1 && minRows >= 0
    requires name in nums
    ensures name in Build(cats, nums, nlevels, minRows, draw)
    ensures Height(Build(cats, nums, nlevels, minRows, draw)[name]) == RowCount(cats, nlevels, minRows)
  {
    var sorted := Sorted(nums);
    assert name in sorted;
    var j :| 0 <= j < |sorted| && sorted[j] == name;
    BuildNumerical(cats, nums, nlevels, minRows, draw, j);
  }

  /** Every column, categorical or numerical, has `RowCount` entries. */
  lemma BuildHeight(cats: set<string>, nums: set<string>, nlevels: int, minRows: int, draw: nat -> real,
                    name: string)
    requires nlevels >= 1 && minRows >= 0
    requires cats !! nums
    requires name in cats || name in nums
    ensures name in Build(cats, nums, nlevels, minRows, draw)
    ensures Height(Build(cats, nums, nlevels, minRows, draw)[name]) == RowCount(cats, nlevels, minRows)
  {
    if name in cats {
      BuildCategoricalHeight(cats, nums, nlevels, minRows, draw, name);
    } else {
      BuildNumericalHeight(cats, nums, nlevels, minRows, draw, name);
    }
  }

  /** `demo_data(*names, **options)`; `draw(i)` stands for the `i`-th
      standard-normal value of `np.random.RandomState(0)`. Unexpected options
      are reported before any name is looked at; otherwise the first name
      that is neither categorical nor numerical is reported. The option values
      need to be in range only on the path that builds the design. */
  function Demo(names: seq<string>, options: map<string, int>, draw: nat -> real): (r: Result<map<string, DataColumn>>)
    requires Unexpected(options) == map[] && (forall i :: 0 <= i < |names| ==> Valid(names[i])) ==> OptionsInRange(options)
    ensures Unexpected(options) != map[] ==> r == Err(UnexpectedOptions(Unexpected(options)))
    ensures r.Ok? <==> Unexpected(options) == map[] && forall i :: 0 <= i < |names| ==> Valid(names[i])
    ensures r.Err? && Unexpected(options) == map[] ==>
              exists i :: FirstInvalid(names, i) && r.error == NameError(names[i])
    ensures r.Ok? ==> r.value == Build(Categories(names), Numerics(names), LevelCount(options), MinRows(options), draw)
  {
    if Unexpected(options) != map[] then Err(UnexpectedOptions(Unexpected(options)))
    else
      match Classify(names)
      case Err(e) => Err(e)
      case Ok(kinds) => Ok(Build(kinds.0, kinds.1, LevelCount(options), MinRows(options), draw))
  }

  /** Categorical and numerical names never overlap. */
  lemma KindsDisjoint(names: seq<string>)
    ensures Categories(names) !! Numerics(names)
  {
  }

  /** A successful call has one column per name given. */
  lemma DemoKeys(names: seq<string>, options: map<string, int>, draw: nat -> real)
    requires OptionsInRange(options)
    requires Demo(names, options, draw).Ok?
    ensures forall x :: x in Demo(names, options, draw).value <==> x in names
  {
    BuildKeys(Categories(names), Numerics(names), LevelCount(options), MinRows(options), draw);
    forall x | x in names
      ensures x in Categories(names) || x in Numerics(names)
    {
      var i :| 0 <= i < |names| && names[i] == x;
      assert Valid(names[i]);
    }
  }

  /** In a successful call every column has the same height: the least
      multiple of `nlevels ** k` that reaches `min_rows`, `k` being the number
      of categorical names. */
  lemma DemoHeight(names: seq<string>, options: map<string, int>, draw: nat -> real, name: string)
    requires OptionsInRange(options)
    requires Demo(names, options, draw).Ok? && name in names
    ensures Pow(LevelCount(options), |Categories(names)|) >= 1
    ensures name in Demo(names, options, draw).value
    ensures Height(Demo(names, options, draw).value[name])
            == NumRows(MinRows(options), Pow(LevelCount(options), |Categories(names)|))
  {
    var cats, nums := Categories(names), Numerics(names);
    DemoKeys(names, options, draw);
    KindsDisjoint(names);
    BuildKeys(cats, nums, LevelCount(options), MinRows(options), draw);
    BuildHeight(cats, nums, LevelCount(options), MinRows(options), draw, name);
    RowCountIsLeastMultiple(cats, LevelCount(options), MinRows(options));
  }

  /** In a successful call, a categorical name's column is its column of
      `balanced` on the categorical names, each with `nlevels` levels,
      repeated `ceil(min_rows / nlevels ** k)` times. */
  lemma DemoCategorical(names: seq<string>, options: map<string, int>, draw: nat -> real, name: string)
    requires OptionsInRange(options)
    requires Demo(names, options, draw).Ok? && name in Categories(names)
    ensures name in Balanced(CategoricalFactors(Categories(names), LevelCount(options)),
                             RepeatCount(Categories(names), LevelCount(options), MinRows(options)))
    ensures name in Demo(names, options, draw).value
    ensures Demo(names, options, draw).value[name]
            == Categorical(Balanced(CategoricalFactors(Categories(names), LevelCount(options)),
                                    RepeatCount(Categories(names), LevelCount(options), MinRows(options)))[name])
  {
    KindsDisjoint(names);
    BuildCategorical(Categories(names), Numerics(names), LevelCount(options), MinRows(options), draw, name);
  }

  /** In a successful call, the `j`-th numerical name in sorted order gets the
      `j`-th block of `num_rows` draws. */
  lemma DemoNumerical(names: seq<string>, options: map<string, int>, draw: nat -> real, j: int)
    requires OptionsInRange(options)
    requires Demo(names, options, draw).Ok? && 0 <= j < |Numerics(names)|
    ensures |Sorted(Numerics(names))| == |Numerics(names)|
    ensures Sorted(Numerics(names))[j] in Demo(names, options, draw).value
    ensures Demo(names, options, draw).value[Sorted(Numerics(names))[j]]
            == Numerical(Draws(draw, BlockStart(j, RowCount(Categories(names), LevelCount(options), MinRows(options))),
                               RowCount(Categories(names), LevelCount(options), MinRows(options))))
  {
    BuildNumerical(Categories(names), Numerics(names), LevelCount(options), MinRows(options), draw, j);
  }
}
