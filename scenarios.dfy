/** Worked examples of `apply`, on a small value universe
    of strings and integers. */
module Scenarios {
  import opened DataframeApply

  /** A Python value: a string or an integer. */
  datatype Cell = Text(s: string) | Int(n: int)

  /** `func(a, b) = a + b` on integers. */
  function Add(args: map<string, Cell>): Cell {
    if "a" in args && "b" in args && args["a"].Int? && args["b"].Int?
    then Int(args["a"].n + args["b"].n) else Text("")
  }

  /** `func(a, b) = a * b` on integers. */
  function Mul(args: map<string, Cell>): Cell {
    if "a" in args && "b" in args && args["a"].Int? && args["b"].Int?
    then Int(args["a"].n * args["b"].n) else Text("")
  }

  const AB := Signature({"a", "b"}, false)

  /** Column `x = [1, 2, 3]` with `a = "x"`, `b = 10`: each row adds the constant. */
  lemma AddConstantScenario()
    ensures Apply(Frame(map[Text("x") := [Int(1), Int(2), Int(3)]], 3), AB, Add,
                  map["a" := Text("x"), "b" := Int(10)])
         == Rows([Int(11), Int(12), Int(13)])
  {
    var df := Frame(map[Text("x") := [Int(1), Int(2), Int(3)]], 3);
    var kwargs := map["a" := Text("x"), "b" := Int(10)];
    assert ColumnBound(df, kwargs) == {"a"} by { ColumnBoundIff(df, kwargs, "b"); }
    assert df.Valid() && kwargs.Keys <= AB.params;
    assert Add(ExpectedRowArgs(df, kwargs, 0)) == Int(11) by {
      assert ExpectedRowArgs(df, kwargs, 0) == map["a" := Int(1), "b" := Int(10)];
    }
    assert Add(ExpectedRowArgs(df, kwargs, 1)) == Int(12) by {
      assert ExpectedRowArgs(df, kwargs, 1) == map["a" := Int(2), "b" := Int(10)];
    }
    assert Add(ExpectedRowArgs(df, kwargs, 2)) == Int(13) by {
      assert ExpectedRowArgs(df, kwargs, 2) == map["a" := Int(3), "b" := Int(10)];
    }
    ApplyRowsEqual(df, AB, Add, kwargs, [Int(11), Int(12), Int(13)]);
  }

  /** Columns `x = [2, 4]` and `y = [3, 5]` with `a = "x"`, `b = "y"`: rows pair up. */
  lemma TwoColumnScenario()
    ensures Apply(Frame(map[Text("x") := [Int(2), Int(4)], Text("y") := [Int(3), Int(5)]], 2), AB, Mul,
                  map["a" := Text("x"), "b" := Text("y")])
         == Rows([Int(6), Int(20)])
  {
    var df := Frame(map[Text("x") := [Int(2), Int(4)], Text("y") := [Int(3), Int(5)]], 2);
    var kwargs := map["a" := Text("x"), "b" := Text("y")];
    assert df.Valid();
    assert ColumnBound(df, kwargs) == {"a", "b"} by {
      ColumnBoundIff(df, kwargs, "a");
      ColumnBoundIff(df, kwargs, "b");
    }
    assert Mul(ExpectedRowArgs(df, kwargs, 0)) == Int(6) by {
      assert ExpectedRowArgs(df, kwargs, 0) == map["a" := Int(2), "b" := Int(3)];
    }
    assert Mul(ExpectedRowArgs(df, kwargs, 1)) == Int(20) by {
      assert ExpectedRowArgs(df, kwargs, 1) == map["a" := Int(4), "b" := Int(5)];
    }
    ApplyRowsEqual(df, AB, Mul, kwargs, [Int(6), Int(20)]);
  }

  /** `z` is not a parameter of `func(a, b)`: validation names exactly `z`. */
  lemma UnknownParameterScenario()
    ensures Apply(Frame(map[Text("x") := [Int(1), Int(2), Int(3)]], 3), AB, Add,
                  map["a" := Text("x"), "z" := Int(1)])
         == InvalidParams({"z"})
  {
    var kwargs := map["a" := Text("x"), "z" := Int(1)];
    assert kwargs.Keys - AB.params == {"z"};
  }

  /** A function `add(a, b, **rest)` accepts the extra keyword `z`, which reaches
      every call through `**rest` and is ignored by the addition. */
  lemma VarKwScenario()
    ensures Apply(Frame(map[Text("x") := [Int(1), Int(2), Int(3)]], 3), Signature({"a", "b", "rest"}, true),
                  Add, map["a" := Text("x"), "b" := Int(10), "z" := Int(1)])
         == Rows([Int(11), Int(12), Int(13)])
  {
    var df := Frame(map[Text("x") := [Int(1), Int(2), Int(3)]], 3);
    var kwargs := map["a" := Text("x"), "b" := Int(10), "z" := Int(1)];
    assert ColumnBound(df, kwargs) == {"a"} by {
      ColumnBoundIff(df, kwargs, "b");
      ColumnBoundIff(df, kwargs, "z");
    }
    assert df.Valid();
    assert Add(ExpectedRowArgs(df, kwargs, 0)) == Int(11) by {
      assert ExpectedRowArgs(df, kwargs, 0) == map["a" := Int(1), "b" := Int(10), "z" := Int(1)];
    }
    assert Add(ExpectedRowArgs(df, kwargs, 1)) == Int(12) by {
      assert ExpectedRowArgs(df, kwargs, 1) == map["a" := Int(2), "b" := Int(10), "z" := Int(1)];
    }
    assert Add(ExpectedRowArgs(df, kwargs, 2)) == Int(13) by {
      assert ExpectedRowArgs(df, kwargs, 2) == map["a" := Int(3), "b" := Int(10), "z" := Int(1)];
    }
    ApplyRowsEqual(df, Signature({"a", "b", "rest"}, true), Add, kwargs, [Int(11), Int(12), Int(13)]);
  }
}
