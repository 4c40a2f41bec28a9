/**
  The fragment of Python's abstract syntax tree that the checks inspect:
  one function definition with its parameter names, its decorators and a
  statement body. Expressions are kept only as far as a check tells them
  apart; everything else is `OtherExpr`.
 */
module PyAst {

  datatype Option<+T> = None | Some(value: T)

  /** An expression node. `Constant` keeps the literal's source text. */
  datatype Expr =
    | Name(id: string)
    | Constant(literal: string)
    | List(elts: seq<Expr>)
    | Tuple(elts: seq<Expr>)
    | OtherExpr

  /** A `name=value` argument of a call; `arg` is None for `**kwargs`. */
  datatype Keyword = Keyword(arg: Option<string>, value: Expr)

  /** What a decorator refers to: a bare name or an attribute `owner.attr`. */
  datatype Callee =
    | NameRef(id: string)
    | AttributeRef(owner: Expr, attr: string)

  /** `@target` or `@func(args..., keywords...)`. */
  datatype Decorator =
    | Bare(target: Callee)
    | Call(func: Callee, args: seq<Expr>, keywords: seq<Keyword>)

  /**
    A statement with its `lineno` and `col_offset`. `Compound` stands for
    every node that holds further statements (if/for/while/with/try, a nested
    def or class, an except handler); its `body` lists them in field order.
   */
  datatype Stmt =
    | Return(value: Option<Expr>, line: int, column: int)
    | Plain(line: int, column: int)
    | Compound(body: seq<Stmt>, line: int, column: int)

  /**
    `params` holds the names of `args.args` only: the parameters that may be
    passed by position or keyword. Positional-only parameters (before `/`),
    `*args`, keyword-only parameters and `**kwargs` are not in it, so for
    `def f(self, /, x)` the first entry is `x`.
   */
  datatype FunctionDef = FunctionDef(
    name: string,
    params: seq<string>,
    decorators: seq<Decorator>,
    body: seq<Stmt>)

  /** The statements directly below `s`. */
  function Kids(s: Stmt): seq<Stmt> {
    if s.Compound? then s.body else []
  }

  /** Number of statement nodes in the tree rooted at `s`. */
  function Size(s: Stmt): (n: nat)
    decreases s
  {
    match s
    case Compound(body, _, _) => 1 + SeqSize(body)
    case _ => 1
  }

  /** Number of statement nodes in a forest. */
  function SeqSize(q: seq<Stmt>): (n: nat)
    decreases q
  {
    if q == [] then 0 else Size(q[0]) + SeqSize(q[1..])
  }

  lemma {:induction false} SeqSizeConcat(a: seq<Stmt>, b: seq<Stmt>)
    ensures SeqSize(a + b) == SeqSize(a) + SeqSize(b)
    decreases |a|
  {
    if a == [] {
      assert a + b == b;
    } else {
      assert (a + b)[1..] == a[1..] + b;
      SeqSizeConcat(a[1..], b);
    }
  }

  /** A node is strictly larger than the forest of its children. */
  lemma SizeExceedsKids(s: Stmt)
    ensures SeqSize(Kids(s)) < Size(s)
  {
  }
}
