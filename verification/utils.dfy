/**
  Queries over one function definition that the rules share: which
  decorators it carries, how many arguments those decorators are called
  with, and whether its body returns a value.
 */
module Utils {
  import opened PyAst
  import Walk

  /** A source position; the default position is line 0, column 0. */
  datatype Location = Location(line: int, column: int)

  const DefaultLocation := Location(0, 0)

  function StmtLocation(s: Stmt): Location {
    Location(s.line, s.column)
  }

  /**
    The names to look for: either one string or a list of strings. The two
    are kept apart because the caller may pass either.
   */
  datatype DecoratorNames = Single(name: string) | Several(names: seq<string>)

  /** A single string stands for the one-element list holding it. */
  function NameList(names: DecoratorNames): seq<string> {
    match names
    case Single(n) => [n]
    case Several(ns) => ns
  }

  /** Both vectorizing decorators. */
  const Vectorizers := Several(["guvectorize", "vectorize"])

  const Guvectorize := Single("guvectorize")

  const Vectorize := Single("vectorize")

  function CalleeName(c: Callee): string {
    match c
    case NameRef(id) => id
    case AttributeRef(_, attr) => attr
  }

  /**
    The name a decorator is known by: the identifier of a bare name, the
    attribute of `owner.attr`, and for a call the same taken from what is called.
   */
  function DecoratorName(d: Decorator): string {
    match d
    case Bare(target) => CalleeName(target)
    case Call(func, _, _) => CalleeName(func)
  }

  function AnyDecoratorIn(decs: seq<Decorator>, names: seq<string>): (b: bool)
    ensures b <==> exists i :: 0 <= i < |decs| && DecoratorName(decs[i]) in names
  {
    if decs == [] then false
    else if DecoratorName(decs[0]) in names then true
    else
      var rest := AnyDecoratorIn(decs[1..], names);
      assert forall i :: 1 <= i < |decs| ==> decs[i] == decs[1..][i - 1];
      rest
  }

  /** True iff some decorator of `f` is known by one of the given names. */
  function IsDecoratedWith(names: DecoratorNames, f: FunctionDef): (b: bool)
    ensures b <==> exists i :: 0 <= i < |f.decorators| && DecoratorName(f.decorators[i]) in NameList(names)
    ensures f.decorators == [] ==> !b
  {
    AnyDecoratorIn(f.decorators, NameList(names))
  }

  /** Passing one name is the same as passing the list holding only it. */
  lemma SingleNameIsSingletonList(name: string, f: FunctionDef)
    ensures IsDecoratedWith(Single(name), f) == IsDecoratedWith(Several([name]), f)
  {
  }

  /**
    Whether the function has a valued return anywhere in its body, and where
    the first one met in breadth-first order is; `(false, DefaultLocation)` if none.
   */
  function HasReturnValue(f: FunctionDef): (r: (bool, Location))
    ensures r.0 <==> exists t :: Walk.Occurs(t, f.body) && Walk.IsValuedReturn(t)
    ensures r.0 ==> exists t :: Walk.Occurs(t, f.body) && Walk.IsValuedReturn(t) && r.1 == StmtLocation(t)
    ensures !r.0 ==> r.1 == DefaultLocation
  {
    Walk.WalkFindsValuedReturn(f.body);
    match Walk.FirstValuedReturn(f.body)
    case Some(t) => (true, StmtLocation(t))
    case None => (false, DefaultLocation)
  }

  /** The location reported is that of the first valued return in breadth-first order. */
  lemma HasReturnValueIsBreadthFirst(f: FunctionDef)
    ensures var order := Walk.LevelOrder(f.body);
      HasReturnValue(f).0 ==>
        exists i :: (0 <= i < |order| && Walk.IsValuedReturn(order[i])
                     && HasReturnValue(f).1 == StmtLocation(order[i])
                     && forall j :: 0 <= j < i ==> !Walk.IsValuedReturn(order[j]))
  {
    Walk.WalkIsLevelOrder(f.body);
  }

  function AnyCallWithArgs(decs: seq<Decorator>): (b: bool)
    ensures b <==> exists i :: 0 <= i < |decs| && decs[i].Call? && |decs[i].args| > 0
  {
    if decs == [] then false
    else if decs[0].Call? && |decs[0].args| > 0 then true
    else
      var rest := AnyCallWithArgs(decs[1..]);
      assert forall i :: 1 <= i < |decs| ==> decs[i] == decs[1..][i - 1];
      rest
  }

  /** True iff some decorator is a call with at least one positional argument. */
  function DecoratorHasArguments(f: FunctionDef): (b: bool)
    ensures b <==> exists i :: 0 <= i < |f.decorators| && f.decorators[i].Call? && |f.decorators[i].args| > 0
    ensures f.decorators == [] ==> !b
  {
    AnyCallWithArgs(f.decorators)
  }

  /** Positional arguments that are counted: plain names and constants only. */
  predicate IsCountedArg(e: Expr) {
    e.Name? || e.Constant?
  }

  function CountedArgs(args: seq<Expr>): (n: nat)
    ensures n <= |args|
    ensures n == |args| <==> forall i :: 0 <= i < |args| ==> IsCountedArg(args[i])
    ensures n == 0 <==> forall i :: 0 <= i < |args| ==> !IsCountedArg(args[i])
  {
    if args == [] then 0
    else
      var rest := CountedArgs(args[1..]);
      assert forall i :: 1 <= i < |args| ==> args[i] == args[1..][i - 1];
      (if IsCountedArg(args[0]) then 1 else 0) + rest
  }

  /** Counting splits over concatenation: each argument is counted on its own. */
  lemma {:induction false} CountedArgsConcat(a: seq<Expr>, b: seq<Expr>)
    ensures CountedArgs(a + b) == CountedArgs(a) + CountedArgs(b)
    decreases |a|
  {
    if a == [] {
      assert a + b == b;
    } else {
      assert (a + b)[0] == a[0];
      assert (a + b)[1..] == a[1..] + b;
      CountedArgsConcat(a[1..], b);
    }
  }

  /** Every positional argument of every decorator call is a name or a constant. */
  predicate EveryPositionalCounted(decs: seq<Decorator>) {
    forall i, j :: 0 <= i < |decs| && decs[i].Call? && 0 <= j < |decs[i].args| ==> IsCountedArg(decs[i].args[j])
  }

  /** No positional argument of any decorator call is a name or a constant. */
  predicate NoPositionalCounted(decs: seq<Decorator>) {
    forall i, j :: 0 <= i < |decs| && decs[i].Call? && 0 <= j < |decs[i].args| ==> !IsCountedArg(decs[i].args[j])
  }

  /** The arguments of one decorator that `argType` selects. */
  function DecoratorArgCount(d: Decorator, argType: string): nat {
    if !d.Call? then 0
    else
      (if argType == "args" || argType == "" then CountedArgs(d.args) else 0)
      + (if argType == "kwargs" || argType == "" then |d.keywords| else 0)
  }

  /** The sum of `count` over a list of decorators. */
  function SumOver(decs: seq<Decorator>, count: Decorator -> nat): nat {
    if decs == [] then 0 else count(decs[0]) + SumOver(decs[1..], count)
  }

  lemma {:induction false} SumOverConcat(a: seq<Decorator>, b: seq<Decorator>, count: Decorator -> nat)
    ensures SumOver(a + b, count) == SumOver(a, count) + SumOver(b, count)
    decreases |a|
  {
    if a == [] {
      assert a + b == b;
    } else {
      assert (a + b)[0] == a[0];
      assert (a + b)[1..] == a[1..] + b;
      SumOverConcat(a[1..], b, count);
    }
  }

  lemma {:induction false} SumOverAdds(decs: seq<Decorator>, c: Decorator -> nat, c1: Decorator -> nat, c2: Decorator -> nat)
    requires forall d :: c(d) == c1(d) + c2(d)
    ensures SumOver(decs, c) == SumOver(decs, c1) + SumOver(decs, c2)
    decreases |decs|
  {
    if decs != [] {
      SumOverAdds(decs[1..], c, c1, c2);
    }
  }

  lemma {:induction false} SumOverMonotone(decs: seq<Decorator>, c1: Decorator -> nat, c2: Decorator -> nat)
    requires forall d :: c1(d) <= c2(d)
    ensures SumOver(decs, c1) <= SumOver(decs, c2)
    decreases |decs|
  {
    if decs != [] {
      SumOverMonotone(decs[1..], c1, c2);
    }
  }

  /** How many positional arguments the decorator calls carry, of any kind. */
  function PositionalOf(d: Decorator): nat {
    if d.Call? then |d.args| else 0
  }

  /** How many keyword arguments the decorator calls carry. */
  function KeywordsOf(d: Decorator): nat {
    if d.Call? then |d.keywords| else 0
  }

  function PositionalTotal(f: FunctionDef): nat {
    SumOver(f.decorators, PositionalOf)
  }

  function KeywordTotal(f: FunctionDef): nat {
    SumOver(f.decorators, KeywordsOf)
  }

  lemma {:induction false} ZeroSum(decs: seq<Decorator>, count: Decorator -> nat)
    requires forall d :: count(d) == 0
    ensures SumOver(decs, count) == 0
    decreases |decs|
  {
    if decs != [] {
      ZeroSum(decs[1..], count);
    }
  }

  lemma {:induction false} PositionalCountWitness(decs: seq<Decorator>)
    ensures SumOver(decs, ArgCounter("args")) > 0 ==> AnyCallWithArgs(decs)
    decreases |decs|
  {
    if decs != [] {
      PositionalCountWitness(decs[1..]);
    }
  }

  function ArgCounter(argType: string): Decorator -> nat {
    d => DecoratorArgCount(d, argType)
  }

  /**
    The number of decorator arguments of the selected kind, summed over all
    decorators: "args" counts positional names and constants, "kwargs" counts
    keyword arguments, "" counts both, any other string counts nothing.
   */
  function GetDecoratorNArgs(f: FunctionDef, argType: string): (n: nat)
    ensures f.decorators == [] ==> n == 0
    ensures argType != "args" && argType != "kwargs" && argType != "" ==> n == 0
    ensures argType == "args" ==> n <= PositionalTotal(f)
    ensures argType == "args" && n > 0 ==> DecoratorHasArguments(f)
    ensures argType == "args" ==> (n == PositionalTotal(f) <==> EveryPositionalCounted(f.decorators))
    ensures argType == "args" ==> (n == 0 <==> NoPositionalCounted(f.decorators))
    ensures argType == "args" && |f.decorators| == 1 ==>
      n == (if f.decorators[0].Call? then CountedArgs(f.decorators[0].args) else 0)
    ensures argType == "kwargs" ==> n == KeywordTotal(f)
  {
    CountFacts(f.decorators, argType);
    SumOver(f.decorators, ArgCounter(argType))
  }

  lemma {:induction false} CountFacts(decs: seq<Decorator>, argType: string)
    ensures argType != "args" && argType != "kwargs" && argType != "" ==> SumOver(decs, ArgCounter(argType)) == 0
    ensures argType == "args" ==> SumOver(decs, ArgCounter(argType)) <= SumOver(decs, PositionalOf)
    ensures argType == "args" && SumOver(decs, ArgCounter(argType)) > 0 ==> AnyCallWithArgs(decs)
    ensures argType == "args" ==>
      (SumOver(decs, ArgCounter(argType)) == SumOver(decs, PositionalOf) <==> EveryPositionalCounted(decs))
    ensures argType == "args" ==> (SumOver(decs, ArgCounter(argType)) == 0 <==> NoPositionalCounted(decs))
    ensures argType == "args" && |decs| == 1 ==>
      SumOver(decs, ArgCounter(argType)) == (if decs[0].Call? then CountedArgs(decs[0].args) else 0)
    ensures argType == "kwargs" ==> SumOver(decs, ArgCounter(argType)) == SumOver(decs, KeywordsOf)
  {
    if argType != "args" && argType != "kwargs" && argType != "" {
      ZeroSum(decs, ArgCounter(argType));
    }
    if argType == "args" {
      SumOverMonotone(decs, ArgCounter(argType), PositionalOf);
      PositionalCountWitness(decs);
      ExactArgsCount(decs);
      if |decs| == 1 {
        assert decs[1..] == [];
      }
    }
    if argType == "kwargs" {
      SumOverAdds(decs, ArgCounter(argType), KeywordsOf, (d: Decorator) => 0);
      ZeroSum(decs, (d: Decorator) => 0);
    }
  }

  /**
    Only names and constants are counted: the "args" count reaches the
    number of positional arguments exactly when every one of them is a name
    or a constant, and is zero exactly when none is.
   */
  lemma {:induction false} ExactArgsCount(decs: seq<Decorator>)
    ensures SumOver(decs, ArgCounter("args")) == SumOver(decs, PositionalOf) <==> EveryPositionalCounted(decs)
    ensures SumOver(decs, ArgCounter("args")) == 0 <==> NoPositionalCounted(decs)
    decreases |decs|
  {
    if decs != [] {
      var d, rest := decs[0], decs[1..];
      ExactArgsCount(rest);
      SumOverMonotone(rest, ArgCounter("args"), PositionalOf);
      assert forall i :: 1 <= i < |decs| ==> decs[i] == rest[i - 1];
      assert EveryPositionalCounted(decs) <==>
        (d.Call? ==> forall j :: 0 <= j < |d.args| ==> IsCountedArg(d.args[j])) && EveryPositionalCounted(rest);
      assert NoPositionalCounted(decs) <==>
        (d.Call? ==> forall j :: 0 <= j < |d.args| ==> !IsCountedArg(d.args[j])) && NoPositionalCounted(rest);
    }
  }

  /** The default kind counts both positional and keyword arguments. */
  lemma DefaultCountsBoth(f: FunctionDef)
    ensures GetDecoratorNArgs(f, "") == GetDecoratorNArgs(f, "args") + GetDecoratorNArgs(f, "kwargs")
  {
    SumOverAdds(f.decorators, ArgCounter(""), ArgCounter("args"), ArgCounter("kwargs"));
  }

  /** Counting over two groups of decorators adds up. */
  lemma NArgsSumsOverDecorators(f: FunctionDef, g: FunctionDef, argType: string)
    ensures GetDecoratorNArgs(f.(decorators := f.decorators + g.decorators), argType)
         == GetDecoratorNArgs(f, argType) + GetDecoratorNArgs(g, argType)
  {
    SumOverConcat(f.decorators, g.decorators, ArgCounter(argType));
  }
}
