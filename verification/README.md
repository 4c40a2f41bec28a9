# flake8-numba checks, modelled in Dafny

flake8-numba is a flake8 plugin that inspects Python function definitions
decorated with numba's `vectorize` or `guvectorize`. It reports decorator
arguments of the wrong shape and bodies that do not fit the decorator. This
project models one parsed function definition as an immutable datatype and
states the plugin's queries and checks over it:

- `PyAst`: the function definition: parameter names, decorators and a statement body. A decorator is a bare name, an attribute `owner.attr`, or a call of either with positional and keyword arguments. Statements are `Return` (with or without a value), `Compound` (anything holding further statements) and `Plain`.
- `Walk`: Python's `ast.walk`, a breadth-first walk driven by a FIFO queue, stopped at the first `return` that has a value. It is proved equal to a level-by-level order of the tree and to plain membership in the tree.
- `Utils`: `Location`, `is_decorated_with`, `has_return_value`, `decorator_has_arguments`, `get_decorator_n_args`.
- `Rule`: the `Error(line, column, message)` record.
- `Nba0`, `Nba1`, `Nba2`: the checks NBA007, NBA006, NBA101 and NBA205. Each returns a list of at most one `Error`.
- `Cases`: concrete function definitions modelled on the repository's tests and regression data, plus a few built to show one edge each.

Inputs computed by helpers outside this model are explicit parameters:

- NBA007 takes the resolved first positional argument and its location. `get_pos_arg_from_decorator` would provide them.
- NBA006 takes the decorator's location. `get_decorator_location` would provide it.

## Model

| member | source | states |
|---|---|---|
| Utils.IsDecoratedWith | flake8_numba/utils.py:13-35 | true iff some decorator's resolved name is in the name list (attr for an attribute, id for a name, taken from `func` for a call); false with no decorators |
| Utils.SingleNameIsSingletonList | flake8_numba/utils.py:16-18 | passing one string gives the same answer as passing the list holding only it |
| Utils.HasReturnValue | flake8_numba/utils.py:38-51 | first component true iff a `Return` with a value occurs anywhere in the body tree; when true the location is that of such a node; otherwise `(false, Location(0, 0))` |
| Utils.HasReturnValueIsBreadthFirst | flake8_numba/utils.py:48-50 | the reported location is that of the first valued return in breadth-first (level) order |
| Walk.WalkIsLevelOrder | flake8_numba/utils.py:48 | the queue-driven walk stops at the first valued return of the level-by-level order of the tree |
| Walk.LevelOrderMembers | flake8_numba/utils.py:48 | the level-by-level order lists exactly the nodes that occur in the tree, so the walk misses no statement |
| Walk.WalkFindsValuedReturn | flake8_numba/utils.py:48-51 | the walk finds a node iff some valued return occurs in the tree, and what it finds is one |
| Utils.DecoratorHasArguments | flake8_numba/utils.py:54-71 | true iff some decorator is a call with a non-empty positional-argument list; false with no decorators |
| Utils.CountedArgs | flake8_numba/utils.py:107-109 | the count of name and constant positional arguments: at most their number, equal to it iff all are names or constants, zero iff none is (so one argument counts 1 exactly when it is a name or constant) |
| Utils.CountedArgsConcat | flake8_numba/utils.py:107-109 | counting splits over concatenated argument lists; with the one-argument case this fixes the count of every list |
| Utils.GetDecoratorNArgs | flake8_numba/utils.py:89-115 | zero with no decorators or an unknown kind; the "args" count never exceeds the positional arguments, equals their number iff every one is a name or constant, is zero iff none is, and for one decorator is the count of its call's name and constant arguments (0 when it is not called); positive only if some call has positional arguments; the "kwargs" count is the number of keywords |
| Utils.ExactArgsCount | flake8_numba/utils.py:104-109 | only names and constants count: the "args" sum over decorators reaches the positional total iff all are names or constants, and is zero iff none is |
| Utils.DefaultCountsBoth | flake8_numba/utils.py:104-114 | the default kind "" counts exactly "args" plus "kwargs" |
| Utils.NArgsSumsOverDecorators | flake8_numba/utils.py:103-115 | the count is a sum over decorators: splitting the decorator list splits the count |
| Nba0.Nba007Check | flake8_numba/rules/nba0.py:17-44 | at most one error, none without either decorator or with no counted positional argument; under guvectorize it errs iff the first argument is not a list of tuples; under vectorize alone iff it is not a list; located at the argument's location, message starting `NBA207:` |
| Nba0.Nba007NeedsDecorator | flake8_numba/rules/nba0.py:18-19 | a function with neither decorator is never reported |
| Nba0.Nba007SkipsLoneListLiteral | flake8_numba/rules/nba0.py:21-22 | a function whose one decorator is a call (of a name or an attribute, e.g. `@vectorize([...])` or `@nb.guvectorize([...])`) with a list literal as its only positional argument is never reported, whatever the list holds |
| Nba0.Nba007NeedsArguments | flake8_numba/rules/nba0.py:21-22 | a report implies some decorator is a call with positional arguments |
| Nba0.Nba007GuvectorizeDecides | flake8_numba/rules/nba0.py:25-43 | with both decorators the list-of-tuples requirement decides; whatever it accepts is accepted under vectorize alone |
| Nba0.Nba007MessageLacksOwnCode | flake8_numba/rules/nba0.py:27-38 | as written, no NBA007 message starts with `NBA007` |
| Nba0.Nba007CheckIntended | flake8_numba/rules/nba0.py:26-42 | same reports at the same location, messages starting `NBA007:` |
| Nba0.Nba006Check | flake8_numba/rules/nba0.py:51-64 | defined when the function is undecorated or has parameters; at most one error, present iff decorated and the first parameter is `self` or `cls`; at the decorator's location, message starting `NBA206:` |
| Nba0.Nba006MessageLacksOwnCode | flake8_numba/rules/nba0.py:60 | as written, the NBA006 message does not start with `NBA006` |
| Nba0.Nba006CheckIntended | flake8_numba/rules/nba0.py:55-62 | total; silent on a function without parameters; the same number of reports wherever the original is defined; at the decorator's location; messages starting `NBA006:` |
| Nba1.MaxArityFrom | flake8_numba/rules/nba1.py:16-22 | the running maximum is at least its start and every tuple arity, and equals the start or one of them |
| Nba1.ReturnCount | flake8_numba/rules/nba1.py:16-22 | the largest tuple length among top-level `return` statements, or 0 when there is none |
| Nba1.Nba101Check | flake8_numba/rules/nba1.py:12-27 | at most one error, present iff decorated with vectorize and some top-level return yields a tuple of more than one element; located at the last top-level statement; message starting `NBA101:` |
| Nba1.Nba101IgnoresNested | flake8_numba/rules/nba1.py:18-20 | statements nested inside compound statements do not change the result |
| Nba2.Nba205Check | flake8_numba/rules/nba2.py:13-20 | at most one error, present iff decorated with guvectorize and a valued return occurs anywhere in the body; at the location `has_return_value` reports; message starting `NBA205:` |
| Nba2.Nba205ReportsFirstValuedReturn | flake8_numba/rules/nba2.py:14-19 | the error sits on the first valued return in breadth-first order |
| Cases.GuvectorizeSpellings | tests/test_utils.py:46-101 | `@guvectorize`, `@nb.guvectorize`, `@numba.guvectorize` match "guvectorize"; `@vectorize` and no decorator do not |
| Cases.CalledDecoratorResolves | flake8_numba/utils.py:21-26 | a called decorator is matched through the name or attribute it calls |
| Cases.ReturnValueCases | tests/test_utils.py:6-43 | `return 2` has a value at its location; a bare `return` and `pass` give `(false, Location(0, 0))` |
| Cases.BreadthFirstBeatsTextOrder | flake8_numba/utils.py:48-50 | a top-level valued return is reported before an earlier-written nested one |
| Cases.ArgumentCountCases | tests/test_utils/test_utils.py:96-169 | `@guvectorize(a, x=1, y=2)` counts 1, 2 and 3 for "args", "kwargs" and ""; a keyword-only call has no positional arguments |
| Cases.ListLiteralNotCounted | flake8_numba/utils.py:105-109 | a call whose only positional argument is a list literal has arguments but counts 0 |
| Cases.BoundMethodCases | tests/test_rules/test_nba0.py:43-57 | `def f(self, x)` under vectorize is reported once; `def f(a, b)` under guvectorize is not |
| Cases.ReturnArityCases | tests/test_rules/test_nba1.py:8-23 | `return x, y` under vectorize is reported; `return x` is not |
| Cases.NestedTupleReturnIgnored | flake8_numba/rules/nba1.py:18-19 | a tuple return nested in an `if` is not reported, since only top-level statements are inspected |
| Cases.ReturnBanCases | tests/test_rules/test_NBA205/test_rule.py:29-50 | a valued return under guvectorize is reported at that return; a bare return, no return, or no decorator is not |
| Cases.MoveMeanIsClean | tests/test_rules/data/regression.py:4-6 | the `move_mean` regression function draws no report from any modelled check |
| Cases.ParameterlessDecoratedFunction | flake8_numba/rules/nba0.py:55-59 | a decorated function without parameters falls outside where NBA006 is defined |
| Cases.FirstArgumentCodeMismatch | flake8_numba/rules/nba0.py:25-31 | `@guvectorize('f8', '(n)->(n)')` draws one NBA007 report whose message starts `NBA207:`, not `NBA007` |

## Left out

- `get_pos_arg_from_decorator` and `get_decorator_location` are not part of this model. Their results are inputs of `Nba0.Nba007Check` and `Nba0.Nba006Check`.
- The `Rule` base class, rule registration and ordering, and skipping a rule after an earlier finding are not modelled. flake8_numba/rule.py defines only the abstract class and the list-returning `check(node)`.
- The checks NBA001, NBA005, NBA201–NBA204, NBA206–NBA208 and NBA211 are not modelled: the rule modules flake8_numba/rules/nba0.py, nba1.py and nba2.py define only NBA007, NBA006, NBA101 and NBA205. The shape-string grammar belongs to those other checks and is left out with them.
- `visitor.py` (a traversal stub) and `check_code.py` (developer tooling: subprocesses, threads, configuration files, printing) are left out.
- Parsing source text is left out: the model starts from the parsed tree.
- `PyAst.FunctionDef.params` stands for `node.args.args` (flake8_numba/rules/nba0.py:55). Positional-only parameters, `*args`, keyword-only parameters and `**kwargs` are not in it, so whoever builds a `FunctionDef` must leave them out to match the code.
- Decorators other than a name, an attribute, or a call of either are not modelled. An example is `@a()()`. On those the code raises `AttributeError` when it reads `.id`.
- `Walk.FirstValuedReturn` walks statements from the function's body. `ast.walk` also queues expression nodes and the `arguments` node. These hold no statements, so they do not change which `return` is met first.
- In `Utils.HasReturnValue`, `return None` is a `Return` whose value is the constant `None`, so it counts as a value, as the code's `is not None` test at flake8_numba/utils.py:48 does. The tests at tests/test_utils/test_utils.py:33 and tests/test_rules/test_NBA205/test_rule.py:32 expect the data named "return_none" to have no value. Those data files are not part of this model; if they hold `return None`, the code and those tests disagree, and the model follows the code.
- In `Utils.GetDecoratorNArgs` a list literal is not counted, as the code does. The test at tests/test_utils/test_utils.py:106 expects such an argument to count as 1. The model follows the code.
- Nba0.Nba006Check: requires the function to be undecorated or to have a parameter. Otherwise the code reads an unbound name and fails (see Findings).
- For `Nba1.Nba101Check`, the class docstring at flake8_numba/rules/nba1.py:9 says only one value can be returned with `vectorize`. The loop at flake8_numba/rules/nba1.py:18-22 only looks at top-level statements, so a tuple returned inside an `if` or a loop is not reported. The model follows the code.

## Findings

| source | as written | input that shows it | evidently intended | confidence | as-written member | corrected member |
|---|---|---|---|---|---|---|
| flake8_numba/rules/nba0.py:27 | NBA007's messages start with `NBA207:`, the code of a different check; the test fixture at tests/test_rules/conftest.py:37-43 requires an NBA007 message to start with `nba007` | `@guvectorize('f8', '(n)->(n)')` with first argument the string `'f8'` | messages start with `NBA007:` | medium, not executed | Nba0.Nba007Check, Nba0.Nba007MessageLacksOwnCode, Cases.FirstArgumentCodeMismatch | Nba0.Nba007CheckIntended |
| flake8_numba/rules/nba0.py:60 | NBA006's message starts with `NBA206:`, the code of a different check | `@vectorize` on `def f(self, x)` | the message starts with `NBA006:` | medium, not executed | Nba0.Nba006Check, Nba0.Nba006MessageLacksOwnCode | Nba0.Nba006CheckIntended |
| flake8_numba/rules/nba0.py:56-59 | `first_variable_name` is bound only when the function has parameters, but it is read regardless | `@vectorize` on `def f(): ...` raises `UnboundLocalError` | a function without parameters is not a bound method and draws no report | high, not executed | Nba0.Nba006Check, Cases.ParameterlessDecoratedFunction | Nba0.Nba006CheckIntended |
