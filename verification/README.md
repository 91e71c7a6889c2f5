# Balanced designs and demo data

A Dafny model of `charlton/user_util.py`, the two user-facing helpers of a
formula library:

- `balanced(**kwargs)` builds a balanced full factorial design. It takes a
  level count per factor name and an optional `repeat`. Factor `a` with three
  levels has the labels `a1`, `a2`, `a3`. The columns are the unzipped
  Cartesian product of the label lists. Factor names are taken in sorted
  order, and the last factor varies fastest. Each column is then repeated
  `repeat` times.
- `demo_data(*names, **kwargs)` classifies each name by its first letter.
  `a` to `n` is categorical, `p` to `z` is numerical, and anything else is an
  error. It picks the least multiple of the design size `nlevels ** k` that
  reaches `min_rows`, with `k` the number of categorical names. It fills the
  categorical columns from `balanced` and gives every numerical column that
  many normal draws from one fixed random stream, taking the numerical names
  in sorted order.

The modules follow the structure of the code:

| module | file | what it holds |
|---|---|---|
| `LexOrder` | `lex_order.dfy` | Python's string order and `sorted` on a set of names |
| `Decimal` | `decimal.dfy` | `str(i)` for the level number in a label, with its parser as partner |
| `CartesianProduct` | `cartesian_product.dfy` | `itertools.product`, the `zip(*...)` unzip, and `list * n` |
| `FactorialDesign` | `factorial_design.dfy` | `balanced` |
| `DemoData` | `demo_data.dfy` | `demo_data`: classification, row count, columns, errors |
| `Examples` | `examples.dfy` | the docstring examples and both test functions, as lemmas |

Keyword arguments are modelled as maps.

- `Balanced(factors, repeat)` takes a `map<string, int>` from factor names to
  level counts, plus `repeat`.
- `Demo(names, options, draw)` takes the positional names as a sequence and
  the keyword options as a `map<string, int>`. It returns either the data map
  or one of three errors:
  - `UnexpectedOptions(extra)`: the `TypeError` for unknown keywords. It is
    raised before any name is looked at.
  - `BadName(name)`: the library's error for a name that starts outside both
    letter ranges. The first such name in argument order is reported.
  - `EmptyName`: the `IndexError` that `name[0]` raises on `""`.

The random stream becomes a parameter `draw: nat -> real`, where `draw(i)` is
the `i`-th normal draw of `RandomState(0)`. The `j`-th numerical name in
sorted order takes draws `j * rows` up to `(j + 1) * rows - 1`.

The docstring says that names from "a" through "m" are categorical. The code
tests membership in `"abcdefghijklmn"`, so `n` is categorical too. The model
follows the code, and `DemoData.KindOfRanges` states the ranges.

## Model

| member | source | states |
|---|---|---|
| LexOrder.Sorted | charlton/user_util.py:44 | `sorted(kwargs)`: every name appears exactly once, each one strictly before the next in Python's string order |
| LexOrder.SortedIsUnique | charlton/user_util.py:44 | any strictly increasing enumeration of a set of names equals `Sorted`, so the column order and the order of the numerical names are fully determined |
| LexOrder.LeTotal | charlton/user_util.py:44 | any two strings are comparable in Python's string order |
| LexOrder.LeAntisymmetric | charlton/user_util.py:44 | two strings that each sort no later than the other are equal |
| LexOrder.LeTransitive | charlton/user_util.py:44 | the string order is transitive |
| Decimal.Str | charlton/user_util.py:47 | the `%s` of a level number is a canonical numeral: all digits, no leading zero, and `"0"` exactly for 0 |
| Decimal.ValueOfStr | charlton/user_util.py:47 | reading back the numeral of `n` gives `n` |
| Decimal.StrOfValue | charlton/user_util.py:47 | every canonical numeral is the numeral of its value, so `Str` is a bijection onto canonical numerals |
| Decimal.StrInjective | charlton/user_util.py:47 | distinct level numbers give distinct numerals |
| FactorialDesign.LabelInjective | charlton/user_util.py:47 | two labels of one factor are equal only when their level numbers are |
| FactorialDesign.Labels | charlton/user_util.py:45-47 | the label list of a factor has `count` entries, none when `count <= 0` as with an empty `xrange`; they are distinct and are exactly name + `i` for `1 <= i <= count` |
| FactorialDesign.LabelsIndex | charlton/user_util.py:47 | entry `j` of the label list is name + `(j + 1)` |
| FactorialDesign.Names | charlton/user_util.py:44 | the sorted factor names enumerate the keys exactly once |
| FactorialDesign.BalancedKeys | charlton/user_util.py:50-53 | when every count is positive, the result has exactly the factor names as keys |
| FactorialDesign.BalancedWithEmptyFactor | charlton/user_util.py:47-53 | a factor with a count of 0 or less empties the product, and unzipping nothing yields the empty dict |
| FactorialDesign.BalancedLength | charlton/user_util.py:52 | each column has `repeat * prod(counts)` entries, or none when `repeat <= 0` |
| FactorialDesign.BalancedTiling | charlton/user_util.py:52 | entries of a column whose indices agree modulo the design size are equal, because the column is `repeat` copies of one block |
| FactorialDesign.BalancedElement | charlton/user_util.py:42-53 | entry `r` of the `k`-th sorted column is the label numbered `1 + (q / stride) % c_k`, where `q = r % design size`, `c_k` is the factor's count and `stride` is the product of the later counts (last factor fastest) |
| FactorialDesign.BalancedColumnEntry | charlton/user_util.py:48-52 | entry `r` of a column is entry `r % design size` of the unzipped product column |
| FactorialDesign.BalancedEntry | charlton/user_util.py:48-52 | entry `r` of the `k`-th column is coordinate `k` of product tuple `r % design size` |
| FactorialDesign.BalancedRow | charlton/user_util.py:48-52 | reading row `r` across the sorted columns gives product tuple `r % design size` |
| FactorialDesign.FirstRowsAreProduct | charlton/user_util.py:48-52 | the first `design size` rows are the product tuples in order |
| FactorialDesign.BalancedEachCombinationOnce | charlton/user_util.py:42-53 | each choice of one label per factor appears as exactly one of the first `design size` rows |
| FactorialDesign.BalancedLabelsInRange | charlton/user_util.py:47 | every entry of a column is a label of its own factor numbered from 1 to its count |
| FactorialDesign.UnzipProduct | charlton/user_util.py:49 | `zip(*product)` has one column per factor, and column `k` lists coordinate `k` of each tuple |
| FactorialDesign.ProductColumnElement | charlton/user_util.py:47-49 | entry `q` of the `k`-th product column is the label numbered `1 + (q / stride) % c_k` |
| FactorialDesign.AssembleLookup | charlton/user_util.py:50-52 | pairing distinct names with columns gives a dict with exactly those names, each mapped to its own column repeated |
| FactorialDesign.SizeOfLevels | charlton/user_util.py:49 | the number of product tuples is the product of the counts |
| CartesianProduct.ProductLength | charlton/user_util.py:49 | the product has `prod(len(l_k))` tuples, each with one coordinate per list |
| CartesianProduct.ProductIndex | charlton/user_util.py:49 | coordinate `k` of tuple `r` is element `(r / size of later lists) % len(l_k)` of list `k`, which is the last-fastest order |
| CartesianProduct.ProductMembers | charlton/user_util.py:49 | a tuple is in the product exactly when it has one coordinate per list and each coordinate is in its list |
| CartesianProduct.ProductDistinct | charlton/user_util.py:49 | lists without repeats give a product without repeats |
| CartesianProduct.UnzipColumns | charlton/user_util.py:49 | `zip(*rows)` of a non-empty list of rows of equal width `w` has `w` columns, and column `k` holds coordinate `k` of every row |
| CartesianProduct.UnzipTransposes | charlton/user_util.py:49 | unzipping twice gives back rectangular rows |
| CartesianProduct.TileIndex | charlton/user_util.py:52 | `list * n` is empty for `n <= 0`, otherwise `n * len` long, with entry `i` equal to entry `i % len` of the list |
| CartesianProduct.TilePeriodic | charlton/user_util.py:52 | entries of `list * n` at indices congruent modulo the list length are equal |
| DemoData.KindOfRanges | charlton/user_util.py:105-110 | a name is categorical exactly when its first letter is `a` to `n`, numerical exactly when it is `p` to `z`, and rejected otherwise |
| DemoData.Classify | charlton/user_util.py:102-110 | classification succeeds exactly when every name is valid, and then returns the categorical and numerical name sets; otherwise it returns the error for the first rejected name |
| DemoData.CategoricalDesignSize | charlton/user_util.py:111 | `np.prod` of the categorical level counts is `nlevels ** k`, where `k` is the number of categorical names |
| DemoData.ProdConstant | charlton/user_util.py:111 | the product of `k` equal counts `b` is `b ** k`, and 1 when `k = 0` as with `np.prod([])` |
| DemoData.NumRowsCovers | charlton/user_util.py:112-113 | `ceil(min_rows / size) * size` is at least `min_rows` and below `min_rows + size`, is a multiple of `size`, and is exactly `min_rows` when `size` is 1 |
| DemoData.NumRowsIsLeast | charlton/user_util.py:112-113 | every multiple of `size` that reaches `min_rows` is at least `num_rows` |
| DemoData.RowCountIsLeastMultiple | charlton/user_util.py:111-113 | `num_rows` is the least multiple of `nlevels ** k` that reaches `min_rows` |
| DemoData.RowCountIsRepeats | charlton/user_util.py:112-113 | `num_rows` is `repeat` times the design size |
| DemoData.BlockStartIsProduct | charlton/user_util.py:115-117 | the `j`-th numerical column starts at draw `j * num_rows` |
| DemoData.FillNumericKeys | charlton/user_util.py:116-117 | after the loop, the keys are the categorical keys plus the numerical names |
| DemoData.FillNumericKeeps | charlton/user_util.py:116-117 | the loop leaves every column it does not name unchanged |
| DemoData.FillNumericBlock | charlton/user_util.py:116-117 | the `j`-th name of the loop gets the `num_rows` draws starting at `j * num_rows` |
| DemoData.BuildKeys | charlton/user_util.py:114-117 | the result's keys are the categorical names plus the numerical names |
| DemoData.BuildCategorical | charlton/user_util.py:114 | a categorical column is the `balanced` column for `nlevels` levels per name and `repeat` copies |
| DemoData.BuildNumerical | charlton/user_util.py:115-117 | the `j`-th numerical name in sorted order gets draws `j * num_rows` to `(j + 1) * num_rows - 1` |
| DemoData.BalancedHeight | charlton/user_util.py:52 | each `balanced` column has `repeat * design size` entries |
| DemoData.BuildCategoricalHeight | charlton/user_util.py:113-114 | every categorical column has `num_rows` entries |
| DemoData.BuildNumericalHeight | charlton/user_util.py:113-117 | every numerical column has `num_rows` entries |
| DemoData.BuildHeight | charlton/user_util.py:111-117 | every column of the result has `num_rows` entries |
| DemoData.Demo | charlton/user_util.py:98-118 | unknown keywords fail with exactly those keywords, before any name is checked. With none, the call succeeds exactly when every name is valid, and otherwise fails on the first rejected name. On success it returns the design built from the classified names, `nlevels` and `min_rows`. Option values have to be in range only on that success path |
| DemoData.DemoKeys | charlton/user_util.py:102-118 | a successful call has exactly the given names as keys |
| DemoData.DemoHeight | charlton/user_util.py:111-118 | in a successful call every column has the least multiple of `nlevels ** k` that reaches `min_rows` entries |
| DemoData.DemoCategorical | charlton/user_util.py:114 | a categorical column of a successful call is the `balanced` column for its name |
| DemoData.DemoNumerical | charlton/user_util.py:115-117 | the `j`-th numerical name in sorted order takes the `j`-th block of `num_rows` draws |
| Examples.BalancedA23 | charlton/user_util.py:56-57 | `balanced(a=2, b=3)["a"]` is `a1 a1 a1 a2 a2 a2` |
| Examples.BalancedB23 | charlton/user_util.py:56-58 | `balanced(a=2, b=3)["b"]` is `b1 b2 b3 b1 b2 b3` |
| Examples.BalancedA23Twice | charlton/user_util.py:59-61 | with `repeat=2`, column `a` is that block twice |
| Examples.BalancedB23Twice | charlton/user_util.py:59-63 | with `repeat=2`, column `b` is that block twice |
| Examples.BalancedA22Twice | charlton/user_util.py:37-40 | `balanced(a=2, b=2, repeat=2)["a"]` is `a1 a1 a2 a2 a1 a1 a2 a2` |
| Examples.BalancedB22Twice | charlton/user_util.py:37-40 | `balanced(a=2, b=2, repeat=2)["b"]` is `b1 b2 b1 b2 b1 b2 b1 b2` |
| Examples.DemoABXShape | charlton/user_util.py:121-122 | `demo_data("a", "b", "x")` succeeds with keys `a`, `b` and `x` |
| Examples.DemoABXCategorical | charlton/user_util.py:123-124 | its `a` and `b` columns are the two columns of `balanced(a=2, b=2, repeat=2)` |
| Examples.DemoABXNumerical | charlton/user_util.py:125-126 | its `x` column is the first eight draws |
| Examples.DemoXYShape | charlton/user_util.py:128-129 | `demo_data("x", "y")` succeeds with keys `x` and `y` |
| Examples.DemoXY | charlton/user_util.py:128-130 | `x` takes draws 0 to 4 and `y` takes draws 5 to 9, five values each |
| Examples.RowsWithoutFactors | charlton/user_util.py:111-113 | with no categorical name there is one combination, so `num_rows` is `min_rows` |
| Examples.DemoXTenRows | charlton/user_util.py:132 | `demo_data("x", min_rows=10)["x"]` has ten entries |
| Examples.DemoABXTwelveRows | charlton/user_util.py:133 | `demo_data("a", "b", "x", min_rows=10)["x"]` has twelve entries |
| Examples.DemoABXEighteenRows | charlton/user_util.py:134 | with `nlevels=3` as well, it has eighteen entries |
| Examples.DemoBadName | charlton/user_util.py:137 | `demo_data("a", "b", "__123")` fails with the bad-name error for `__123` |
| Examples.DemoUnexpectedOption | charlton/user_util.py:138 | `demo_data("a", "b", asdfasdf=123)` fails with the unexpected-keyword error naming `asdfasdf` |
| Examples.DemoUnexpectedBeforeLevels | charlton/user_util.py:98-101 | `demo_data("a", nlevels=0, foo=1)` fails with the unexpected-keyword error naming only `foo`; the out-of-range `nlevels` is never used |
| Examples.DemoBadNameBeforeLevels | charlton/user_util.py:98-110 | `demo_data("_", nlevels=0)` fails with the bad-name error for `_`; the out-of-range `nlevels` is never used |
| Examples.DemoABXYShape | charlton/user_util.py:89-91 | the documented call `demo_data("a", "b", "x", "y")` succeeds with keys `a`, `b`, `x` and `y` |
| Examples.DemoABXYCategorical | charlton/user_util.py:89-92 | its `a` column is `a1 a1 a2 a2 a1 a1 a2 a2` and its `b` column is `b1 b2 b1 b2 b1 b2 b1 b2`, as documented |
| Examples.DemoABXYNumerical | charlton/user_util.py:93-96 | its `x` column is draws 0 to 7 and its `y` column is draws 8 to 15 |

## Left out

- The normal draws: the values of `RandomState(0).normal` are not modelled. The stream is the parameter `draw`, and only which draw lands where is stated. This includes the numbers in the docstring example at lines 89-96 and the float `dtype` checked at line 125.
- Floating point in the row count: `np.ceil(min_rows * 1.0 / size)` is modelled as exact integer ceiling division. The two agree whenever the float quotient `min_rows * 1.0 / size` carries no rounding error.
- Integer width: `np.prod` of the level counts is unbounded here. NumPy's 64-bit overflow is not modelled.
- Demo: requires `nlevels >= 1` and `min_rows >= 0`, when given, only on the path that builds the design; both error paths accept any option values. Outside that range the source still returns or raises, and the model does not state what. A negative `nlevels` gives every categorical name an empty label list, so `balanced` yields no categorical column at all, while the design size `nlevels ** k` can stay positive: `demo_data("a", "b", "x", nlevels=-1)` returns only `x`, with five draws. A negative `min_rows` makes `repeat` zero or less, so the categorical columns come out empty: `demo_data("a", min_rows=-3)` returns `{"a": []}`. With `nlevels >= 1`, the source raises only when `num_rows` itself is negative and there is a numerical name, since `RandomState.normal` is then asked for a negative size. `num_rows` is negative when `min_rows` is at most minus the design size, or when `min_rows` is negative and there is no categorical name. Otherwise `num_rows` is 0: `demo_data("a", "x", min_rows=-1)` returns empty `a` and `x` columns and raises nothing. `nlevels=0` with a categorical name makes the design size zero, and the call raises. Without a categorical name `nlevels` is never used, so `demo_data("x", nlevels=0)` returns normally, but that call is outside the range the model builds for.
- With no categorical name, `np.prod([])` is the float `1.0`, so the source's `num_rows` is a float. The model uses the integer value.
- The `repeat` keyword of `balanced` cannot also be a factor name in the source. `Balanced` takes `repeat` as a separate argument, so that clash does not arise.
- The error message texts, and the exception types themselves, are represented only by the `Error` constructors.
- Imports, `__all__`, and the Python 2 compatibility shim for `itertools.product` are not modelled. `nose.tools.assert_raises` is represented by the error results of the two lemmas for lines 137-138.
- `patsy.compat` and `PatsyError` are not part of this model; the error is the `BadName` constructor.
