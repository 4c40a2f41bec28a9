/** The return-arity check for `vectorize` (NBA101). */
module Nba1 {
  import opened PyAst
  import opened Utils
  import opened Rule

  const SingleReturnText := " Only one value can be returned."

  /** The number of values a statement returns as a tuple literal; 0 for anything else. */
  function TupleArity(s: Stmt): nat {
    if s.Return? && s.value.Some? && s.value.value.Tuple? then |s.value.value.elts| else 0
  }

  function Max(a: nat, b: nat): nat {
    if a < b then b else a
  }

  /** Running maximum of the tuple arities of `body`, left to right, starting from `acc`. */
  function MaxArityFrom(acc: nat, body: seq<Stmt>): (m: nat)
    ensures acc <= m
    ensures forall i :: 0 <= i < |body| ==> TupleArity(body[i]) <= m
    ensures m == acc || exists i :: 0 <= i < |body| && TupleArity(body[i]) == m
    decreases |body|
  {
    if body == [] then acc
    else
      var m := MaxArityFrom(Max(acc, TupleArity(body[0])), body[1..]);
      assert forall i :: 1 <= i < |body| ==> body[i] == body[1..][i - 1];
      m
  }

  /** The largest tuple returned by a top-level statement of the body. */
  function ReturnCount(f: FunctionDef): (m: nat)
    ensures forall i :: 0 <= i < |f.body| ==> TupleArity(f.body[i]) <= m
    ensures m == 0 || exists i :: 0 <= i < |f.body| && TupleArity(f.body[i]) == m
  {
    MaxArityFrom(0, f.body)
  }

  /**
    NBA101: a `vectorize` function may return only one value. Only the
    top-level statements of the body are looked at, and the error is placed
    on the last of them.
   */
  function Nba101Check(f: FunctionDef): (errs: seq<Error>)
    ensures |errs| <= 1
    ensures errs != [] <==>
      IsDecoratedWith(Vectorize, f) && exists i :: 0 <= i < |f.body| && TupleArity(f.body[i]) > 1
    ensures errs != [] ==>
      |f.body| > 0 && errs[0].line == f.body[|f.body| - 1].line && errs[0].column == f.body[|f.body| - 1].column
    ensures forall e :: e in errs ==> "NBA101:" <= e.message
  {
    if !IsDecoratedWith(Vectorize, f) then []
    else if ReturnCount(f) > 1 then
      var last := f.body[|f.body| - 1];
      [Error(last.line, last.column, "NBA101:" + SingleReturnText)]
    else []
  }

  /** A statement with everything nested below it removed. */
  function Shallow(s: Stmt): Stmt {
    if s.Compound? then s.(body := []) else s
  }

  /**
    Statements nested in compound statements play no part: two functions
    whose bodies agree at the top level get the same report.
   */
  lemma Nba101IgnoresNested(f: FunctionDef, g: FunctionDef)
    requires f.decorators == g.decorators
    requires |f.body| == |g.body|
    requires forall i :: 0 <= i < |f.body| ==> Shallow(f.body[i]) == Shallow(g.body[i])
    ensures Nba101Check(f) == Nba101Check(g)
  {
  }
}
