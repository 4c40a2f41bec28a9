/**
  Concrete function definitions modelled on the repository's parametrised
  tests and regression data, plus a few built to show one edge each, with
  what each query and check gives on them.
 */
module Cases {
  import opened PyAst
  import opened Utils
  import Nba0
  import Nba1
  import Nba2

  function Undecorated(body: seq<Stmt>): FunctionDef {
    FunctionDef("func", [], [], body)
  }

  function DecoratedBy(d: Decorator, params: seq<string>, body: seq<Stmt>): FunctionDef {
    FunctionDef("func", params, [d], body)
  }

  /** `@guvectorize`, `@nb.guvectorize` and `@numba.guvectorize` all resolve to "guvectorize"; `@vectorize` and no decorator do not. */
  lemma GuvectorizeSpellings(body: seq<Stmt>)
    ensures IsDecoratedWith(Single("guvectorize"), DecoratedBy(Bare(NameRef("guvectorize")), [], body))
    ensures IsDecoratedWith(Single("guvectorize"), DecoratedBy(Bare(AttributeRef(Name("nb"), "guvectorize")), [], body))
    ensures IsDecoratedWith(Single("guvectorize"), DecoratedBy(Bare(AttributeRef(Name("numba"), "guvectorize")), [], body))
    ensures !IsDecoratedWith(Single("guvectorize"), DecoratedBy(Bare(NameRef("vectorize")), [], body))
    ensures !IsDecoratedWith(Single("guvectorize"), Undecorated(body))
  {
  }

  /** A called decorator resolves through what is called. */
  lemma CalledDecoratorResolves(args: seq<Expr>, kws: seq<Keyword>)
    ensures IsDecoratedWith(Single("vectorize"), DecoratedBy(Call(AttributeRef(Name("nb"), "vectorize"), args, kws), [], []))
    ensures !IsDecoratedWith(Single("guvectorize"), DecoratedBy(Call(NameRef("vectorize"), args, kws), [], []))
  {
  }

  /** `return 2` has a value; a bare `return` and `pass` do not. */
  lemma ReturnValueCases()
    ensures HasReturnValue(Undecorated([Return(Some(Constant("2")), 3, 4)])) == (true, Location(3, 4))
    ensures HasReturnValue(Undecorated([Return(None, 3, 4)])) == (false, DefaultLocation)
    ensures HasReturnValue(Undecorated([Plain(3, 4)])) == (false, DefaultLocation)
  {
  }

  /**
    A nested valued return on line 3 and a top-level one on line 5: the walk
    is breadth-first, so line 5 is the one reported.
   */
  lemma BreadthFirstBeatsTextOrder()
    ensures HasReturnValue(Undecorated([
              Compound([Return(Some(Name("a")), 3, 8)], 2, 4),
              Return(Some(Name("b")), 5, 4)])) == (true, Location(5, 4))
  {
  }

  /** `@guvectorize(a, x=1, y=2)`: one positional, two keyword, three in all. */
  lemma ArgumentCountCases()
    ensures var f := DecoratedBy(Call(NameRef("guvectorize"), [Name("a")],
                                      [Keyword(Some("x"), Constant("1")), Keyword(Some("y"), Constant("2"))]), [], []);
      GetDecoratorNArgs(f, "args") == 1 && GetDecoratorNArgs(f, "kwargs") == 2 && GetDecoratorNArgs(f, "") == 3
    ensures !DecoratorHasArguments(DecoratedBy(Call(NameRef("vectorize"), [], [Keyword(Some("target"), Constant("'cpu'"))]), [], []))
  {
  }

  /** A list literal is not counted as a positional argument, though the call has one. */
  lemma ListLiteralNotCounted(elts: seq<Expr>)
    ensures var f := DecoratedBy(Call(NameRef("vectorize"), [List(elts)], []), [], []);
      GetDecoratorNArgs(f, "args") == 0 && DecoratorHasArguments(f)
  {
  }

  /** `@vectorize` on `def f(self, x)` is reported once; on `def f(a, b)` it is not. */
  lemma BoundMethodCases(loc: Location)
    ensures |Nba0.Nba006Check(DecoratedBy(Bare(NameRef("vectorize")), ["self", "x"], []), loc)| == 1
    ensures Nba0.Nba006Check(DecoratedBy(Bare(NameRef("guvectorize")), ["a", "b"], []), loc) == []
  {
  }

  /** `return x, y` under `vectorize` is reported; `return x` is not. */
  lemma ReturnArityCases()
    ensures |Nba1.Nba101Check(DecoratedBy(Bare(NameRef("vectorize")), ["x"],
              [Return(Some(Tuple([Name("x"), Name("y")])), 3, 4)]))| == 1
    ensures Nba1.Nba101Check(DecoratedBy(Bare(NameRef("vectorize")), ["x"],
              [Return(Some(Name("x")), 3, 4)])) == []
  {
  }

  /** A tuple return nested in an `if` is not reported: only top-level statements are inspected. */
  lemma NestedTupleReturnIgnored()
    ensures Nba1.Nba101Check(DecoratedBy(Bare(NameRef("vectorize")), ["x"],
              [Compound([Return(Some(Tuple([Name("x"), Name("y")])), 4, 8)], 3, 4), Plain(5, 4)])) == []
  {
  }

  /**
    NBA205 on the test data: a valued return under `guvectorize` is reported
    at that return; a bare return, no return, or no decorator is not.
   */
  lemma ReturnBanCases()
    ensures var errs := Nba2.Nba205Check(DecoratedBy(Bare(NameRef("guvectorize")), ["a", "out"],
                                          [Return(Some(Name("out")), 3, 4)]));
      |errs| == 1 && errs[0].line == 3 && errs[0].column == 4
    ensures Nba2.Nba205Check(DecoratedBy(Bare(NameRef("guvectorize")), ["a", "out"], [Return(None, 3, 4)])) == []
    ensures Nba2.Nba205Check(DecoratedBy(Bare(NameRef("guvectorize")), ["a", "out"], [Plain(3, 4)])) == []
    ensures Nba2.Nba205Check(Undecorated([Return(Some(Name("out")), 3, 4)])) == []
  {
  }

  /**
    `@guvectorize([(float64[:], intp, float64[:])], '(n),()->(n)')` over
    `def move_mean(a, window_arr, out): out[:] = 2` draws no report.
   */
  lemma MoveMeanIsClean(argLoc: Location, decLoc: Location)
    ensures var f := FunctionDef("move_mean", ["a", "window_arr", "out"],
              [Call(NameRef("guvectorize"),
                    [List([Tuple([OtherExpr, Name("intp"), OtherExpr])]), Constant("'(n),()->(n)'")], [])],
              [Plain(3, 4)]);
      var sig := Nba0.ListValue([Nba0.TupleValue([Nba0.Opaque, Nba0.Opaque, Nba0.Opaque])]);
      Nba0.Nba007Check(f, sig, argLoc) == [] && Nba0.Nba006Check(f, decLoc) == []
      && Nba1.Nba101Check(f) == [] && Nba2.Nba205Check(f) == []
  {
  }

  /** A decorated function without parameters is outside what NBA006 can handle. */
  lemma ParameterlessDecoratedFunction()
    ensures !Nba0.Nba006Defined(DecoratedBy(Bare(NameRef("vectorize")), [], []))
  {
  }

  /** A first argument that is not a list draws an NBA007 report whose code is NBA207. */
  lemma FirstArgumentCodeMismatch(argLoc: Location)
    ensures var f := DecoratedBy(Call(NameRef("guvectorize"), [Constant("'f8'"), Constant("'(n)->(n)'")], []), [], []);
      var errs := Nba0.Nba007Check(f, Nba0.StringValue("f8"), argLoc);
      |errs| == 1 && "NBA207:" <= errs[0].message && !("NBA007" <= errs[0].message)
  {
    var f := DecoratedBy(Call(NameRef("guvectorize"), [Constant("'f8'"), Constant("'(n)->(n)'")], []), [], []);
    assert CountedArgs([Constant("'f8'"), Constant("'(n)->(n)'")]) == 2;
    Nba0.Nba007MessageLacksOwnCode(f, Nba0.StringValue("f8"), argLoc);
  }
}
