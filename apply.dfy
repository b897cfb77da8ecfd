/** Model of `apply(df, func, **kwargs)`: validate the keyword arguments against
    the function's signature, split them into column-bound and constant ones,
    resolve the column-bound ones to column data, and call the function once per
    row with the constants held fixed.

    Column labels, cell values and argument values all live in one value
    universe `V`, as they do in Python: whether an argument is column-bound is
    decided by comparing the argument value itself with the column labels. */
module DataframeApply {

  /** A DataFrame: labelled columns over a shared row index of `height` rows. */
  datatype Frame<V> = Frame(columns: map<V, seq<V>>, height: nat)
  {
    /** Every column holds exactly one entry per row. */
    predicate Valid() {
      forall c :: c in columns ==> |columns[c]| == height
    }
  }

  /** What introspection of the target function yields: the names of its declared
      parameters, and whether one of them is a `**kwargs` parameter. */
  datatype Signature = Signature(params: set<string>, hasVarKw: bool)

  /** A resolved input: a column-bound parameter carries the column's data and is
      broadcast row by row; a constant is excluded from broadcasting. */
  datatype Input<V> = Column(data: seq<V>) | Constant(value: V)

  /** The result of one call of `apply`. */
  datatype Outcome<R> =
    | InvalidParams(names: set<string>)  // the assertion of the validation step fails
    | EmptyInput                         // the vectorizer refuses column inputs of size 0
    | Single(value: R)                   // no column-bound parameter: one plain call
    | Rows(values: seq<R>)               // one result per row, in row order

  // ---------------------------------------------------------------------------
  // Validation

  /** The parameter names used that the function does not declare; empty when the
      function takes `**kwargs`, since then any name is accepted. */
  function InvalidParamsUsed(sig: Signature, used: set<string>): (r: set<string>)
    ensures r <= used
    ensures sig.hasVarKw ==> r == {}
    ensures !sig.hasVarKw ==> r !! sig.params && used <= sig.params + r
  {
    if sig.hasVarKw then {} else used - sig.params
  }

  /** Validation rejects exactly when the function has no `**kwargs` and some
      used name is not declared; the reported names are exactly those. */
  lemma ValidationFailsIff(sig: Signature, used: set<string>)
    ensures InvalidParamsUsed(sig, used) != {}
        <==> !sig.hasVarKw && exists p :: p in used && p !in sig.params
    ensures !sig.hasVarKw ==>
        forall p :: p in InvalidParamsUsed(sig, used) <==> p in used && p !in sig.params
  {
  }

  // ---------------------------------------------------------------------------
  // Partition

  /** The parameters whose argument value is one of the frame's column labels. */
  function ColumnBound<V>(df: Frame<V>, kwargs: map<string, V>): (r: set<string>)
    ensures r <= kwargs.Keys
    ensures forall p :: p in kwargs && kwargs[p] in df.columns ==> p in r
  {
    set p | p in kwargs && kwargs[p] in df.columns
  }

  /** The parameters excluded from broadcasting: every other used parameter. */
  function Constants<V>(df: Frame<V>, kwargs: map<string, V>): (r: set<string>)
    ensures r !! ColumnBound(df, kwargs)
    ensures r + ColumnBound(df, kwargs) == kwargs.Keys
  {
    kwargs.Keys - ColumnBound(df, kwargs)
  }

  /** A parameter is column-bound iff its argument value is a column label, and
      constant iff it is used and its value is not a column label. A constant
      whose value happens to equal a label is therefore always column-bound. */
  lemma ColumnBoundIff<V>(df: Frame<V>, kwargs: map<string, V>, p: string)
    ensures p in ColumnBound(df, kwargs) <==> p in kwargs && kwargs[p] in df.columns
    ensures p in Constants(df, kwargs) <==> p in kwargs && kwargs[p] !in df.columns
  {
  }

  // ---------------------------------------------------------------------------
  // Resolution

  /** The inputs handed to the vectorized function: a column-bound parameter gets
      its column's data, a constant keeps its value. */
  function Resolve<V>(df: Frame<V>, kwargs: map<string, V>): (inputs: map<string, Input<V>>)
    ensures inputs.Keys == kwargs.Keys
    ensures forall p :: p in ColumnBound(df, kwargs) ==> inputs[p] == Column(df.columns[kwargs[p]])
    ensures forall p :: p in Constants(df, kwargs) ==> inputs[p] == Constant(kwargs[p])
  {
    var bound := ColumnBound(df, kwargs);
    map p | p in kwargs :: if p in bound then Column(df.columns[kwargs[p]]) else Constant(kwargs[p])
  }

  /** The parameters that `Resolve` marks as broadcast inputs are exactly the
      column-bound ones; the others are exactly the excluded constants. */
  lemma ResolveMarksColumns<V>(df: Frame<V>, kwargs: map<string, V>)
    ensures forall p :: p in Resolve(df, kwargs) ==>
      (Resolve(df, kwargs)[p].Column? <==> p in ColumnBound(df, kwargs))
    ensures forall p :: p in Resolve(df, kwargs) ==>
      (Resolve(df, kwargs)[p].Constant? <==> p in Constants(df, kwargs))
  {
  }

  // ---------------------------------------------------------------------------
  // Element-wise application

  /** The inputs are long enough to supply row `i`. */
  predicate HasRow<V>(inputs: map<string, Input<V>>, i: nat) {
    forall p :: p in inputs && inputs[p].Column? ==> i < |inputs[p].data|
  }

  /** The keyword arguments of the call for row `i`: every column input gives its
      `i`-th entry, every constant its fixed value. */
  function RowArgs<V>(inputs: map<string, Input<V>>, i: nat): (args: map<string, V>)
    requires HasRow(inputs, i)
    ensures args.Keys == inputs.Keys
    ensures forall p :: p in inputs && inputs[p].Column? ==> args[p] == inputs[p].data[i]
    ensures forall p :: p in inputs && inputs[p].Constant? ==> args[p] == inputs[p].value
  {
    map p | p in inputs :: match inputs[p] case Column(data) => data[i] case Constant(v) => v
  }

  /** The vectorized call over the first `k` rows: one call of `f` per row, the
      results kept in row order. */
  function VectorizedRows<V, R>(f: map<string, V> -> R, inputs: map<string, Input<V>>, k: nat)
    : (values: seq<R>)
    requires forall p :: p in inputs && inputs[p].Column? ==> k <= |inputs[p].data|
    ensures |values| == k
    ensures forall i :: 0 <= i < k ==> HasRow(inputs, i) && values[i] == f(RowArgs(inputs, i))
  {
    if k == 0 then [] else VectorizedRows(f, inputs, k - 1) + [f(RowArgs(inputs, k - 1))]
  }

  // ---------------------------------------------------------------------------
  // The whole operation

  /** The keyword arguments that row `i` should receive, read straight off the
      frame: a column-bound parameter gets row `i` of its column, every other
      parameter its own argument value. */
  function ExpectedRowArgs<V>(df: Frame<V>, kwargs: map<string, V>, i: nat): map<string, V>
    requires df.Valid() && i < df.height
  {
    map p | p in kwargs :: if kwargs[p] in df.columns then df.columns[kwargs[p]][i] else kwargs[p]
  }

  /** `apply(df, func, **kwargs)` where `sig` describes `func` and `f` is its
      behaviour on a full set of keyword arguments. The keywords `df` and `func`
      bind `apply`'s own parameters, so Python never lets them into `kwargs`. */
  function Apply<V, R>(df: Frame<V>, sig: Signature, f: map<string, V> -> R, kwargs: map<string, V>)
    : (out: Outcome<R>)
    requires df.Valid()
    requires "df" !in kwargs && "func" !in kwargs
    ensures out.InvalidParams? <==> !sig.hasVarKw && !(kwargs.Keys <= sig.params)
    ensures out.InvalidParams? ==> out.names == kwargs.Keys - sig.params
    ensures out.Single? <==> !out.InvalidParams? && ColumnBound(df, kwargs) == {}
    ensures out.Single? ==> out.value == f(kwargs)
    ensures out.EmptyInput? <==> !out.InvalidParams? && ColumnBound(df, kwargs) != {} && df.height == 0
    ensures out.Rows? <==> !out.InvalidParams? && ColumnBound(df, kwargs) != {} && df.height > 0
    ensures out.Rows? ==> |out.values| == df.height
    ensures out.Rows? ==> forall i :: 0 <= i < |out.values| ==>
      out.values[i] == f(ExpectedRowArgs(df, kwargs, i))
  {
    var invalid := InvalidParamsUsed(sig, kwargs.Keys);
    if invalid != {} then
      InvalidParams(invalid)
    else
      var bound := ColumnBound(df, kwargs);
      var inputs := Resolve(df, kwargs);
      ResolveMarksColumns(df, kwargs);
      if bound == {} then
        assert RowArgs(inputs, 0) == kwargs;
        Single(f(RowArgs(inputs, 0)))
      else if df.height == 0 then
        EmptyInput
      else
        var values := VectorizedRows(f, inputs, df.height);
        assert forall i :: 0 <= i < df.height ==> RowArgs(inputs, i) == ExpectedRowArgs(df, kwargs, i);
        Rows(values)
  }
  /** When validation passes, some parameter is column-bound and `f` gives
      `expected[i]` on row `i`'s arguments for every row, `apply` returns exactly
      `expected`. */
  lemma ApplyRowsEqual<V, R>(
    df: Frame<V>, sig: Signature, f: map<string, V> -> R, kwargs: map<string, V>, expected: seq<R>)
    requires df.Valid()
    requires "df" !in kwargs && "func" !in kwargs
    requires sig.hasVarKw || kwargs.Keys <= sig.params
    requires ColumnBound(df, kwargs) != {}
    requires 0 < df.height == |expected|
    requires forall i :: 0 <= i < df.height ==> f(ExpectedRowArgs(df, kwargs, i)) == expected[i]
    ensures Apply(df, sig, f, kwargs) == Rows(expected)
  {
    var out := Apply(df, sig, f, kwargs);
    assert out.Rows?;
    assert out.values == expected;
  }

  // ---------------------------------------------------------------------------
  // The calls of the target function

  /** The keyword arguments `func` is called with, in call order. When it is
      given no output types, the vectorizer first calls `func` on row 0 to learn
      the output type and then calls it once per row; with nothing to broadcast
      it makes one plain call; it checks for empty inputs before any call. */
  function Calls<V>(df: Frame<V>, sig: Signature, kwargs: map<string, V>): (calls: seq<map<string, V>>)
    requires df.Valid()
    requires "df" !in kwargs && "func" !in kwargs
    ensures forall k :: 0 <= k < |calls| ==> calls[k].Keys == kwargs.Keys
    ensures forall k, p :: 0 <= k < |calls| && p in Constants(df, kwargs) ==> calls[k][p] == kwargs[p]
  {
    if InvalidParamsUsed(sig, kwargs.Keys) != {} then []
    else if ColumnBound(df, kwargs) == {} then [kwargs]
    else if df.height == 0 then []
    else
      [ExpectedRowArgs(df, kwargs, 0)]
        + seq(df.height, i requires 0 <= i < df.height => ExpectedRowArgs(df, kwargs, i))
  }

  /** What `Apply` returns is what the calls in `Calls` return: no call at all
      when validation fails or the rows are empty, one plain call with the
      arguments unchanged when nothing is column-bound, and otherwise one call per
      row in row order (after the extra call on row 0), where row `i` sees entry
      `i` of each column-bound parameter's column. */
  lemma ApplyMatchesCalls<V, R>(
    df: Frame<V>, sig: Signature, f: map<string, V> -> R, kwargs: map<string, V>)
    requires df.Valid()
    requires "df" !in kwargs && "func" !in kwargs
    ensures Apply(df, sig, f, kwargs).InvalidParams? ==> Calls(df, sig, kwargs) == []
    ensures Apply(df, sig, f, kwargs).EmptyInput? ==> Calls(df, sig, kwargs) == []
    ensures Apply(df, sig, f, kwargs).Single? ==>
      Calls(df, sig, kwargs) == [kwargs] && Apply(df, sig, f, kwargs).value == f(kwargs)
    ensures Apply(df, sig, f, kwargs).Rows? ==>
      var values, calls := Apply(df, sig, f, kwargs).values, Calls(df, sig, kwargs);
      && |calls| == |values| + 1 == df.height + 1
      && calls[0] == calls[1]
      && (forall i :: 0 <= i < |values| ==> values[i] == f(calls[i + 1]))
      && (forall i, p :: 0 <= i < |values| && p in ColumnBound(df, kwargs) ==>
            calls[i + 1][p] == df.columns[kwargs[p]][i])
  {
  }
}
