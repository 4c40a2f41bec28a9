/** The return-value ban for `guvectorize` (NBA205). */
module Nba2 {
  import opened PyAst
  import opened Utils
  import opened Rule
  import Walk

  const NoReturnText := " Functions decorator with `@guvectorize` cannot return any value."

  /**
    NBA205: a `guvectorize` function must not return a value anywhere in its
    body. The error is placed on the valued return `has_return_value` finds.
   */
  function Nba205Check(f: FunctionDef): (errs: seq<Error>)
    ensures |errs| <= 1
    ensures errs != [] <==>
      IsDecoratedWith(Guvectorize, f) && exists t :: Walk.Occurs(t, f.body) && Walk.IsValuedReturn(t)
    ensures errs != [] ==>
      errs[0].line == HasReturnValue(f).1.line && errs[0].column == HasReturnValue(f).1.column
    ensures forall e :: e in errs ==> "NBA205:" <= e.message
  {
    var (hasReturn, location) := HasReturnValue(f);
    if hasReturn && IsDecoratedWith(Guvectorize, f) then
      [Error(location.line, location.column, "NBA205:" + NoReturnText)]
    else []
  }

  /**
    The error sits on a valued return of the body, the first one in
    breadth-first order.
   */
  lemma Nba205ReportsFirstValuedReturn(f: FunctionDef)
    ensures var errs := Nba205Check(f);
      var order := Walk.LevelOrder(f.body);
      errs != [] ==>
        exists i :: (0 <= i < |order| && Walk.IsValuedReturn(order[i])
                     && errs[0].line == order[i].line && errs[0].column == order[i].column
                     && forall j :: 0 <= j < i ==> !Walk.IsValuedReturn(order[j]))
  {
    HasReturnValueIsBreadthFirst(f);
  }
}
