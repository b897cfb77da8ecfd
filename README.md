# dataframe-apply, modelled in Dafny

`apply(df, func, **kwargs)` calls a scalar function once per row of a pandas
DataFrame. Each keyword argument whose value is a column label of the frame is
*column-bound*: the function sees that column's entry for the current row. Every
other keyword argument is a *constant*: the function sees the same value on every
row. Before doing anything, `apply` asserts that every keyword names a declared
parameter of the function. That check is skipped when the function takes
`**kwargs`.

The model (`apply.dfy`, module `DataframeApply`) is made of pure functions, as
the source is:

- `Frame` is the DataFrame: a map from column label to column data, plus the
  row count `height`. `Valid()` says that every column has `height` entries.
- Column labels, cell values and argument values share one value type `V`. The
  source decides "column-bound" by comparing the argument value itself with the
  labels.
- `Signature` is what `inspect.signature` gives: the set of declared parameter
  names and whether one of them is `**kwargs`.
- The target function is a total Dafny function `f` from a keyword-argument map
  to a result.
- `Apply` requires that `kwargs` holds neither `df` nor `func`. Those keywords
  bind `apply`'s own parameters, so Python rejects such a call before `apply`
  runs.
- `Apply` returns an `Outcome`:
  - `InvalidParams(names)` is the failed assertion, carrying the offending names.
  - `Rows(values)` holds one result per row, in row order.
  - `Single(value)` covers the case where nothing is column-bound. The vectorizer
    then has nothing to broadcast and makes one plain call.
  - `EmptyInput` covers a column-bound call on a frame with zero rows. There is
    no empty result: `np.vectorize` without `otypes` raises on size-0 inputs
    before it calls `func`.
- `Calls` lists the keyword-argument maps the function is called with, in order.
  This includes the extra call on row 0 that `np.vectorize` makes to learn the
  output type.
- `Scenarios` (`scenarios.dfy`) checks worked examples of `apply` on strings
  and integers.

Purity holds by construction. `Apply` is a Dafny function of immutable values, so
it cannot modify `df` or `kwargs`. Two calls with the same inputs give the same
outcome.

## Model

| member | source | states |
|---|---|---|
| DataframeApply.InvalidParamsUsed | apply.py:14-18 | the reported set is contained in the used names, is disjoint from the declared ones and covers every used name that is not declared (so it is exactly used minus declared); it is empty when the function takes `**kwargs` |
| DataframeApply.ValidationFailsIff | apply.py:16-19 | validation fails iff the function has no `**kwargs` and some used name is undeclared; without `**kwargs` a name is reported iff it is used and undeclared |
| DataframeApply.ColumnBound | apply.py:22 | every used parameter whose argument value is a column label is column-bound, and only used parameters are |
| DataframeApply.Constants | apply.py:25 | the constant parameters are disjoint from the column-bound ones, and together the two sets are exactly the keys of `kwargs` |
| DataframeApply.ColumnBoundIff | apply.py:22-25 | a parameter is column-bound iff it is used and its value is a column label, and constant iff it is used and its value is not a column label |
| DataframeApply.Resolve | apply.py:29 | the resolved inputs have exactly the keys of `kwargs`; a column-bound key maps to its column's data and a constant key to its own value, unchanged |
| DataframeApply.ResolveMarksColumns | apply.py:25-29 | an input is broadcast exactly when its parameter is column-bound, and held fixed exactly when it is one of the excluded constants |
| DataframeApply.RowArgs | apply.py:26-30 | the call for row i has exactly the resolved keys; every column input supplies entry i of its column, and every constant keeps its fixed value |
| DataframeApply.VectorizedRows | apply.py:26-30 | the vectorized call over k rows yields exactly k results, and result i is `f` applied to row i's arguments |
| DataframeApply.Apply | apply.py:6-31 | fails iff validation fails, reporting exactly the used-minus-declared names; with nothing column-bound it makes one call on `kwargs` unchanged; with column-bound parameters and no rows it raises; otherwise it returns one result per row, result i being `f` on entry i of each column-bound parameter's column with every other argument fixed |
| DataframeApply.ApplyRowsEqual | apply.py:22-30 | when validation passes, some parameter is column-bound and `f` gives `expected[i]` on row i's arguments for every row, the result is exactly `Rows(expected)` |
| DataframeApply.Calls | apply.py:26-30 | every call receives exactly the keys of `kwargs`, and every constant parameter receives its own argument value on every call |
| DataframeApply.ApplyMatchesCalls | apply.py:19-30 | a validation failure or an empty frame makes no call; with nothing column-bound there is exactly one call, on `kwargs`; otherwise the calls are the type-probing call on row 0 followed by one call per row in row order, each result is `f` of its row's call, and row i's call sees entry i of each bound column |
| Scenarios.AddConstantScenario | apply.py:6-31 | `a + b` with `a` bound to column `x = [1, 2, 3]` and `b = 10` gives `[11, 12, 13]` |
| Scenarios.TwoColumnScenario | apply.py:6-31 | `a * b` with `a`, `b` bound to columns `[2, 4]` and `[3, 5]` gives `[6, 20]` |
| Scenarios.UnknownParameterScenario | apply.py:16-19 | passing `z` to a function of `(a, b)` fails, naming exactly `{z}` |
| Scenarios.VarKwScenario | apply.py:15-30 | `add(a, b, **rest)` with `a` bound to column `x = [1, 2, 3]`, `b = 10` and an extra `z = 1` passes validation and gives `[11, 12, 13]` |

## Left out

- Introspection (`inspect.signature` and the `VAR_KEYWORD` kind test) is replaced by an explicit `Signature` supplied with the function. The declared set includes the names of `*args` and `**kwargs` parameters themselves, as `set(func_params)` does.
- The internals of pandas and numpy (`df.columns` lookup, `df[arg]` Series construction, broadcasting) are replaced by a map of equal-length sequences and an explicit per-row function.
- The return type is not modelled. numpy returns an ndarray whose dtype it infers from the first call, and it converts every later result to that dtype. This changes values, not only types: after an integer first result, a later `2.5` becomes `2`. A tuple first result makes the output a tuple of arrays. `Rows` holds `f`'s results exactly as returned.
- Only equality of values is modelled. Hash-based label lookup can make `1`, `1.0` and `True` match one another, and an unhashable argument value raises a TypeError; neither is modelled.
- Duplicate column labels are not modelled, because a map has unique keys. With duplicates, pandas returns a DataFrame for `df[arg]`.
- Exceptions raised inside `func` are not modelled, because `f` is total. This includes the TypeError for a missing required parameter.
- The text of the assertion message is not modelled, only the set of offending names.
- The order of `kwargs` is not modelled. The list built at line 22 is used only for membership, and the partition does not depend on that order. Line 29 builds the call's arguments in `kwargs` order, though, so a `func` that takes `**kwargs` sees its keys in that order. `f` receives a map and cannot observe the order.
- Running Python with `-O` is not modelled. It removes the bare `assert` at line 19, so validation never fails and `func` receives the undeclared names. The model always performs the check.
- Broadcasting between columns of different lengths is not modelled. All columns of one `Frame` have `height` entries (`Frame.Valid`).
