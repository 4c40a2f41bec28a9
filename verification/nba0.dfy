/**
  Checks on how a vectorizing decorator is applied: the shape of its first
  positional argument (NBA007) and its use on bound methods (NBA006).
 */
module Nba0 {
  import opened PyAst
  import opened Utils
  import opened Rule

  /**
    The value the first positional argument of the decorator resolves to.
    Resolving it is not part of this model; the checks take the resolved
    value and its location as inputs.
   */
  datatype ArgValue =
    | ListValue(items: seq<ArgValue>)
    | TupleValue(items: seq<ArgValue>)
    | StringValue(text: string)
    | Opaque
    | Absent

  const ListOfTuplesText := " Expected a list of tuples. Each one containing a valid signature of the type `(*input_types, *rtypes)`."

  const ListText := " Expected a list with each element being `rtype(*input_types)` with numba types."

  const BoundMethodText := " Cannot use this decorator in bound methods."

  /** The code NBA007 puts in front of its messages, as the check is written. */
  const Nba007AsWritten := "NBA207:"

  /** The code NBA006 puts in front of its messages, as the check is written. */
  const Nba006AsWritten := "NBA206:"

  predicate IsListOfTuples(v: ArgValue) {
    v.ListValue? && forall i :: 0 <= i < |v.items| ==> v.items[i].TupleValue?
  }

  /** The first-argument check, with the code its messages start with. */
  function Nba007Report(code: string, f: FunctionDef, firstArg: ArgValue, argLoc: Location): (errs: seq<Error>)
    ensures forall e :: e in errs ==> code <= e.message
  {
    if !IsDecoratedWith(Vectorizers, f) then []
    else if GetDecoratorNArgs(f, "args") == 0 then []
    else if IsDecoratedWith(Guvectorize, f) then
      if !IsListOfTuples(firstArg) then [Error(argLoc.line, argLoc.column, code + ListOfTuplesText)] else []
    else if IsDecoratedWith(Vectorize, f) then
      if !firstArg.ListValue? then [Error(argLoc.line, argLoc.column, code + ListText)] else []
    else []
  }

  /**
    NBA007: under `guvectorize` the first positional argument must be a list
    of tuples, under `vectorize` alone it must be a list. Nothing is checked
    when the function carries neither decorator or when no positional
    argument is counted.
   */
  function Nba007Check(f: FunctionDef, firstArg: ArgValue, argLoc: Location): (errs: seq<Error>)
    ensures |errs| <= 1
    ensures !IsDecoratedWith(Vectorizers, f) ==> errs == []
    ensures GetDecoratorNArgs(f, "args") == 0 ==> errs == []
    ensures IsDecoratedWith(Guvectorize, f) && GetDecoratorNArgs(f, "args") > 0 ==>
      (errs != [] <==> !IsListOfTuples(firstArg))
    ensures IsDecoratedWith(Vectorize, f) && !IsDecoratedWith(Guvectorize, f) && GetDecoratorNArgs(f, "args") > 0 ==>
      (errs != [] <==> !firstArg.ListValue?)
    ensures forall e :: e in errs ==> e.line == argLoc.line && e.column == argLoc.column
    ensures forall e :: e in errs ==> "NBA207:" <= e.message
  {
    Nba007Report(Nba007AsWritten, f, firstArg, argLoc)
  }

  /** A function decorated with neither vectorizing decorator is never reported. */
  lemma Nba007NeedsDecorator(f: FunctionDef, firstArg: ArgValue, argLoc: Location)
    requires forall i :: 0 <= i < |f.decorators| ==> DecoratorName(f.decorators[i]) !in ["guvectorize", "vectorize"]
    ensures Nba007Check(f, firstArg, argLoc) == []
  {
  }

  /**
    A decorator whose only positional argument is a list literal counts no
    positional argument, so NBA007 stays silent whatever the list holds.
   */
  lemma Nba007SkipsLoneListLiteral(f: FunctionDef, c: Callee, elts: seq<Expr>, kws: seq<Keyword>, firstArg: ArgValue, argLoc: Location)
    requires f.decorators == [Call(c, [List(elts)], kws)]
    ensures Nba007Check(f, firstArg, argLoc) == []
  {
  }

  /** Whenever NBA007 reports, some decorator is a call with positional arguments. */
  lemma Nba007NeedsArguments(f: FunctionDef, firstArg: ArgValue, argLoc: Location)
    ensures Nba007Check(f, firstArg, argLoc) != [] ==> DecoratorHasArguments(f)
  {
  }

  /**
    With both decorators present the `guvectorize` requirement decides, and
    it is the stricter one: a first argument it accepts is accepted under
    `vectorize` too.
   */
  lemma Nba007GuvectorizeDecides(f: FunctionDef, g: FunctionDef, firstArg: ArgValue, argLoc: Location)
    requires IsDecoratedWith(Guvectorize, f) && IsDecoratedWith(Vectorize, f)
    requires IsDecoratedWith(Vectorize, g) && !IsDecoratedWith(Guvectorize, g)
    requires GetDecoratorNArgs(f, "args") > 0 && GetDecoratorNArgs(g, "args") > 0
    ensures Nba007Check(f, firstArg, argLoc) == [] <==> IsListOfTuples(firstArg)
    ensures Nba007Check(f, firstArg, argLoc) == [] ==> Nba007Check(g, firstArg, argLoc) == []
  {
  }

  /** The first-argument check with the code it is evidently meant to carry. */
  function Nba007CheckIntended(f: FunctionDef, firstArg: ArgValue, argLoc: Location): (errs: seq<Error>)
    ensures forall e :: e in errs ==> "NBA007:" <= e.message
    ensures |errs| == |Nba007Check(f, firstArg, argLoc)|
    ensures forall i :: 0 <= i < |errs| ==>
      errs[i].line == argLoc.line && errs[i].column == argLoc.column
  {
    Nba007Report("NBA007:", f, firstArg, argLoc)
  }

  /** As written, a message NBA007 emits does not start with its own code. */
  lemma Nba007MessageLacksOwnCode(f: FunctionDef, firstArg: ArgValue, argLoc: Location)
    ensures forall e :: e in Nba007Check(f, firstArg, argLoc) ==> !("NBA007" <= e.message)
  {
    forall e | e in Nba007Check(f, firstArg, argLoc)
      ensures !("NBA007" <= e.message)
    {
      assert e.message[..6] == "NBA207";
      assert e.message[3] != "NBA007"[3];
    }
  }

  /**
    NBA006 reads the name of the first parameter; on a decorated function
    without parameters that name is never bound and the check fails.
   */
  predicate Nba006Defined(f: FunctionDef) {
    !IsDecoratedWith(Vectorizers, f) || |f.params| > 0
  }

  predicate IsReceiverName(name: string) {
    name == "cls" || name == "self"
  }

  /** The bound-method check, with the code its message starts with. */
  function Nba006Report(code: string, f: FunctionDef, decoratorLoc: Location): (errs: seq<Error>)
    requires Nba006Defined(f)
    ensures forall e :: e in errs ==> code <= e.message
  {
    if !IsDecoratedWith(Vectorizers, f) then []
    else if IsReceiverName(f.params[0]) then [Error(decoratorLoc.line, decoratorLoc.column, code + BoundMethodText)]
    else []
  }

  /**
    NBA006: a vectorizing decorator must not sit on a bound method, one whose
    first parameter is `self` or `cls`. The decorator's location is an input.
   */
  function Nba006Check(f: FunctionDef, decoratorLoc: Location): (errs: seq<Error>)
    requires Nba006Defined(f)
    ensures |errs| <= 1
    ensures errs != [] <==> IsDecoratedWith(Vectorizers, f) && IsReceiverName(f.params[0])
    ensures forall e :: e in errs ==>
      e.line == decoratorLoc.line && e.column == decoratorLoc.column && "NBA206:" <= e.message
  {
    Nba006Report(Nba006AsWritten, f, decoratorLoc)
  }

  /**
    The bound-method check as evidently meant: total, silent on a function
    without parameters, and carrying its own code.
   */
  function Nba006CheckIntended(f: FunctionDef, decoratorLoc: Location): (errs: seq<Error>)
    ensures |f.params| == 0 ==> errs == []
    ensures forall e :: e in errs ==> "NBA006:" <= e.message
    ensures Nba006Defined(f) ==> |errs| == |Nba006Check(f, decoratorLoc)|
    ensures forall e :: e in errs ==> e.line == decoratorLoc.line && e.column == decoratorLoc.column
  {
    if |f.params| == 0 then [] else Nba006Report("NBA006:", f, decoratorLoc)
  }

  /** As written, the message NBA006 emits does not start with its own code. */
  lemma Nba006MessageLacksOwnCode(f: FunctionDef, decoratorLoc: Location)
    requires Nba006Defined(f)
    ensures forall e :: e in Nba006Check(f, decoratorLoc) ==> !("NBA006" <= e.message)
  {
    forall e | e in Nba006Check(f, decoratorLoc)
      ensures !("NBA006" <= e.message)
    {
      assert e.message[3] != "NBA006"[3];
    }
  }
}
