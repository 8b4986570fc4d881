# Proportional disaggregation, modelled in Dafny

`DesdobradorProporcional` spreads a value known at a coarse level (the
*source*, e.g. per region) over the rows of a finer level (the *target*,
e.g. per region and item). The spread follows the target's own values. The
source and target levels share some key columns (the *common keys*).

A run does the following:

- it splits the source into valid rows and error rows, according to whether
  a row's common-key tuple occurs in the target;
- it keeps the target rows whose key occurs among the valid source rows;
- it weighs each kept target row by its share of its key group's total;
- it joins each kept target row with every valid source row of its key;
- it multiplies the weight by the source value;
- it reports the difference `source total - distributed - errors`, which the
  code expects to be zero.

The project models construction and one run as pure functions over
immutable tables, and proves what the run guarantees.

Modules:

- `Tables`: rows, tables, key tuples, sums and group sums, subsequences.
- `Keys`: the common keys, and the source keys the final join carries.
- `Matcher`: the key match (a partition by key-tuple membership). It serves
  both as the source split and as the target filter.
- `Weights`: group totals and weights, and the two zero-total policies.
- `Distribution`: the final join and multiplication, and its totals.
- `Reconcile`: where the source total goes when some target group totals zero.
- `Engine`: construction (`New`), one run (`Run`), the reported difference,
  and the engine-level theorems.
- `Scenarios`: three worked runs on small tables.

A table is a set of declared columns and a sequence of rows. A row maps
column names to cells (a number or a string) and holds the value column as
a `real`. Missing key columns are the source's `KeyError`s. The model
returns them as errors, in the order the code raises them.

The weight rule is parameterised by `ZeroSumPolicy`:

- `KeepOwnValue` is the code as written. When a group's total is zero,
  `Series.mask` leaves the row's own value as its weight.
- `ZeroWeight` gives weight 0 in that case, which is what the code's comments
  describe.

Every engine theorem holds under both policies (see Findings).

## Model

| member | source | states |
|---|---|---|
| Keys.CommonKeys | data_classes.py:37 | a column is a common key iff it is both a source key and a target key |
| Keys.CommonKeysOrder | data_classes.py:37 | the common keys keep source order, and each appears as often as among the source keys when it is a target key, and never otherwise |
| Keys.NoCommonKeysIff | data_classes.py:37-40 | the common-key list is empty iff no source key is a target key |
| Engine.New | data_classes.py:18-40 | construction fails with NoCommonKeys iff the key lists share no column; otherwise the engine keeps both tables and key lists unchanged, its join keys are the common keys, and its source total is the sum of the source values |
| Keys.CarriedKeys | data_classes.py:105-110 | a column is carried into the output iff it is a source key column and not a join key, and the carried columns keep source order |
| Keys.CarriedKeysCount | data_classes.py:105-110 | each carried column appears exactly as often as among the source keys, and a join key never appears, so together with `CarriedKeys` the carried list is fixed |
| Matcher.Partition | data_classes.py:52-67 | both sides hold only input rows; matched rows have their key present, unmatched rows do not |
| Matcher.PartitionPermutes | data_classes.py:52-67 | every row lands on exactly one side, once: the two sides together are a permutation of the input |
| Matcher.PartitionOrder | data_classes.py:52-67 | both sides keep the input's relative row order |
| Matcher.PartitionExact | data_classes.py:59-67 | a row is matched iff its key is present, and unmatched iff it is not |
| Matcher.PartitionSum | data_classes.py:59-69 | the valid total plus the error total is the source total |
| Engine.SourceSplitExact | data_classes.py:52-67 | the run's error rows are the unmatched side, all of them source rows; a source row is an error iff its key tuple is not among the target's |
| Engine.SourceSplitOrder | data_classes.py:52-67 | valid and error rows together are a permutation of the source rows, and each side is in source order |
| Matcher.DuplicateKeysIgnored | data_classes.py:53 | repeating a target row leaves the set of distinct target key tuples unchanged |
| Engine.DuplicateTargetRowsIgnored | data_classes.py:52-57 | repeating a target row does not change the source split, so duplicate target keys never duplicate a source row |
| Engine.NothingValid | data_classes.py:74-77 | when no source row has a target key, the run returns no distributed rows and every source row, in order, as an error |
| Engine.RunFailsIff | data_classes.py:52-110 | a run fails iff either table lacks a join column, or some source row is valid and the source lacks one of its own key columns; the target is checked first |
| Engine.KeptTargetExact | data_classes.py:80-84 | the target filter keeps only target rows, and keeps a target row iff its key occurs among the valid source rows |
| Engine.KeptTargetOrder | data_classes.py:80-84 | the kept target rows are in target order |
| Engine.KeptTargetGroups | data_classes.py:80-95 | a kept key group has the same total as in the whole target, so filtering first does not change any weight |
| Engine.ValidKeysKept | data_classes.py:80-95 | every valid source row's key occurs among the kept target rows, with the whole target's group total |
| Weights.Weight | data_classes.py:100-103 | a non-zero group total times the weight gives back the row's value; a zero value weighs 0 |
| Weights.ZeroSumGroupsKeepOwnValue | data_classes.py:100-103 | as written, every row of a zero-total group weighs its own value, for all inputs, since `mask` replaces the value only where the group total is non-zero |
| Weights.WeighAgainst | data_classes.py:87-103 | each row gets its own key tuple, the total of its key group, and the weight of its value within that total |
| Weights.WeightTotalOfGroup | data_classes.py:87-103 | the weights of a key group add up to the weight of the group's own total |
| Weights.GroupWeightsNormalise | data_classes.py:87-103 | the weights of a group with non-zero total sum to 1, and those of a zero-total group sum to 0 |
| Weights.WeightsBounded | data_classes.py:97-103 | with non-negative values every weight lies in [0, 1] |
| Weights.NonNegativeZeroGroupsWeighNothing | data_classes.py:97-103 | with non-negative values every row of a zero-total group weighs 0, under either policy |
| Weights.MaskKeepsOwnValue | data_classes.py:100-103 | as written, two target rows under one key with values v and -v (v non-zero, e.g. 5 and -5) form a zero-total group whose rows weigh v and -v |
| Weights.ZeroSumGroupsWeighNothing | data_classes.py:97-99 | under the intended policy every row of a zero-total group weighs 0, whatever the signs |
| Distribution.DistributeSize | data_classes.py:105-110 | the join yields exactly one output row per pair of a weighted target row and a source row with the same key tuple: the output length is the sum, over the target rows, of the number of source rows carrying that row's key |
| Distribution.DistributeRows | data_classes.py:105-114 | every output row joins some weighted target row with a source row of the same key tuple |
| Distribution.DistributeCovers | data_classes.py:105-110 | every pair of a weighted target row and a source row of the same key yields an output row |
| Distribution.DistributedTotal | data_classes.py:112-116 | the distributed total is the sum over source rows of value times the total weight of their key among the target rows |
| Distribution.GroupDistributed | data_classes.py:112-116 | the output rows of one key group total the group's weight times the source total of that key |
| Distribution.GroupOfDistribute | data_classes.py:105-116 | the output rows of one key group, in order, are exactly the rows of joining only that group's target rows, so the two have the same total |
| Engine.OutputRows | data_classes.py:105-123 | every distributed row is an unchanged target row joined with a source row of its key; it carries that row's other key cells; its value is the target row's weight in its whole target group times the source value; the helper columns are gone |
| Engine.OutputCovers | data_classes.py:105-114 | every target row meets every source row of the same key tuple in exactly such an output row |
| Engine.GroupConservation | data_classes.py:87-116 | for a target key whose group total is non-zero, the distributed rows of that key add up to the source total of that key |
| Reconcile.RowShare | data_classes.py:100-116 | against the engine's weights, a source row receives its full value when its target group total is non-zero, and nothing when it is zero |
| Reconcile.NormalisedShare | data_classes.py:100-116 | against the engine's weights, each valid source row receives its full value, or nothing when its target group totals zero; together they receive the source total less the value of the zero-total groups |
| Reconcile.ZeroGroupValueNone | data_classes.py:97-103 | when no matched target group totals zero, no value is stranded |
| Engine.Reconciliation | data_classes.py:116-118 | given the source total taken at construction, the source total equals distributed plus errors plus the value of valid rows whose target group totals zero; that value is the reported difference |
| Engine.Conservation | data_classes.py:116-118 | when every matched target group has a non-zero total, the reported difference is zero: source total equals distributed plus errors |
| Scenarios.EndToEnd | data_classes.py:43-127 | region A (100) over items x (30) and y (10) gives x 75 and y 25 and no errors, under either policy |
| Scenarios.UnmatchedExample | data_classes.py:52-118 | a source region missing from the target becomes the only error row, and the difference is zero |
| Scenarios.ZeroGroupExample | data_classes.py:97-118 | target values 5 and -5 under region A make the run succeed with a difference of 10, the region's whole source value, under either policy |

## Left out

- Saving results (`salvar_resultados`, data_classes.py:129-169): file I/O.
- The printed report lines (data_classes.py:70-72, 117-118): console output.
  The figures they print are modelled as `Matcher.PartitionSum`,
  `Distribution.DistributedTotal` and `Engine.Difference`.
- `DataFrameDiagnostics` (data_classes.py:171-350), `logger.py` and
  `helpers.py`: they are outside the disaggregation core. helpers.py and
  logger.py are not part of this model.
- Floating point. Values are exact reals, so the zero-difference claim
  (`Engine.Conservation`) holds without rounding. Float rounding, infinities
  and NaN are not modelled.
- NaN cells and `fillna(0)`:
  - a missing value, or a NaN key that pandas drops from `groupby`, is not
    modelled;
  - the value column is always present and numeric (`Row.value`);
  - NaN reaches `fillna(0)` only through NaN inputs, so that call is left out.
- The early return builds `pd.DataFrame()`, which has no columns. The model
  returns an empty sequence of output rows.
- Column-name collisions in the final merge are not modelled. The model
  keeps the source value apart from the target's (the `_origem` suffix). It
  assumes no carried source key column also appears, under the same name,
  among the target's non-key columns.
- Row order of the inner merge (data_classes.py:80-84) is taken to be the
  target's order, the left operand's, as pandas documents for `how="inner"`.
- Cell types are numbers and strings. Any other dtype, and pandas' equality
  between ints and floats of different dtypes, are left out.
- `Engine.New`: does not model a missing value column. In the source that is
  a `KeyError` at data_classes.py:32; here the value is a field of every row.
- `Engine.RunFailsIff`: only missing key columns fail a run. These failures
  of the source are not modelled, and the model returns `Ok` in their place:
  - a target without the value column: the grouping at data_classes.py:89
    raises `KeyError`, but only when some source row is valid (with none,
    the early return at data_classes.py:75-77 succeeds). In the model the
    value is a field of every row, so this cannot arise. A source without
    it already fails at construction (see `Engine.New`);
  - a join key column that is numeric on one side and text on the other
    makes the pandas merge at data_classes.py:52-57 raise. The model
    compares cells by equality, so `Num(1.0)` and `Text("1")` simply do not
    match, and such a source row becomes an error row;
  - a source column named `_merge` makes `indicator=True` raise at
    data_classes.py:56;
  - a target column named `soma_destino` gets suffixed by the merge at
    data_classes.py:95, so the lookup at data_classes.py:101 raises
    `KeyError`;
  - a source key list that names a join column twice keeps both copies in
    the common keys (data_classes.py:37). The merge at data_classes.py:52-57
    then gets a duplicated column label and raises. The model matches on
    the repeated tuple and returns `Ok`;
  - a target column named `<value column>_origem` (e.g. `valor_origem`)
    sits next to the source value that the merge at data_classes.py:105-110
    adds under the same name. The lookup at data_classes.py:113 then yields
    two columns, and assigning their product with `peso` to the single
    column `valor_desdobrado` at data_classes.py:112 raises.
  The model neither checks cell types per column nor reserves the helper
  column names that pandas and the code add.
- `Engine.OutputRows`: assumes that no target column is named like one of
  the helper columns `_merge`, `soma_destino`, `peso` or `valor_desdobrado`.
  In the source, a target column named `peso` is overwritten at
  data_classes.py:100 and dropped at data_classes.py:121. A target column
  named `valor_desdobrado` is overwritten at data_classes.py:112. Either way
  the output row is then not the unchanged target row. A target column
  named `<value column>_origem` makes the run fail instead (see
  `Engine.RunFailsIff`).
- `Engine.New`: takes the key lists as values. The source keeps references
  to the caller's lists (data_classes.py:20-21) and reads the source key
  list again when it runs (data_classes.py:49 and 106). The common keys
  stay as computed at construction. So a caller that changes its list
  after construction changes the carried columns, or gets a `KeyError` at
  data_classes.py:106. Aliasing of mutable lists is not modelled.

## Findings

| source | as written | input that shows it | evidently intended | confidence | as-written member | corrected member |
|---|---|---|---|---|---|---|
| data_classes.py:97-103 | when a group's total is zero, `mask` keeps the row's own value as its weight | target values 5 and -5 under one key, so the group total is 0: the weights come out as 5 and -5 | weight 0 for every row of a zero-total group, as the comments at lines 97-99 and 103 say | not executed | Weights.MaskKeepsOwnValue | Weights.ZeroSumGroupsWeighNothing |

The run is parameterised by the policy, and `Weight(…, ZeroWeight)` is the
corrected rule. `Engine.Reconciliation` holds for both policies. Under either
policy, a zero-total group is never distributed in full:

- under `ZeroWeight` it receives nothing;
- under `KeepOwnValue` its weights sum to 0 (`Weights.GroupWeightsNormalise`),
  so what its rows receive sums to 0.

In both cases the group's source value shows up in the reported difference,
as `Scenarios.ZeroGroupExample` shows.
