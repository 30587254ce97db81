/**
 * The per-request choices `do` makes from the query-string arguments before it
 * renders and executes: the binding map, the cursor factory, the cursor name
 * and the optional `itersize`.
 */
module RequestOptions {
  import opened Wrappers
  import opened Http

  const AssocKey := "_assoc"
  const CursorKey := "_cursor"
  const ItersizeKey := "_itersize"

  /** `psycopg2.extras.NamedTupleCursor` or the connection's default (`None`). */
  datatype CursorFactory = DefaultFactory | NamedTupleFactory

  /** The arguments of `conn.cursor(name=..., cursor_factory=...)` and the `itersize` set on it. */
  datatype CursorOptions = CursorOptions(name: Option<string>, factory: CursorFactory, itersize: Option<string>)

  /**
   * `params = request.args if len(request.args) > 0 else {}`: the binding map
   * handed to both `render` and `execute`, never absent.
   */
  function Params(args: Args): (p: Args)
    ensures p == args
    ensures |args| == 0 ==> p == map[]
  {
    if |args| > 0 then args else map[]
  }

  /** `NamedTupleCursor if '_assoc' in request.args else None` */
  function Factory(args: Args): (f: CursorFactory)
    ensures f == NamedTupleFactory <==> AssocKey in args
  {
    if AssocKey in args then NamedTupleFactory else DefaultFactory
  }

  /** `templatePath if '_cursor' in request.args else None`: a named, server-side cursor. */
  function CursorName(templatePath: string, args: Args): (n: Option<string>)
    ensures n.Some? <==> CursorKey in args
    ensures n.Some? ==> n.value == templatePath
  {
    if CursorKey in args then Some(templatePath) else None
  }

  /** `cursor.itersize = request.args['_itersize']`, assigned only when the key is present (raw text). */
  function Itersize(args: Args): (s: Option<string>)
    ensures s.Some? <==> ItersizeKey in args
    ensures s.Some? ==> s.value == args[ItersizeKey]
  {
    if ItersizeKey in args then Some(args[ItersizeKey]) else None
  }

  function SelectCursor(templatePath: string, args: Args): (c: CursorOptions)
    ensures c.factory == NamedTupleFactory <==> AssocKey in args
    ensures c.name == (if CursorKey in args then Some(templatePath) else None)
    ensures c.itersize == (if ItersizeKey in args then Some(args[ItersizeKey]) else None)
  {
    CursorOptions(CursorName(templatePath, args), Factory(args), Itersize(args))
  }

  /** True when `a` and `b` agree on everything the cursor options look at. */
  predicate SameControls(a: Args, b: Args) {
    && (AssocKey in a <==> AssocKey in b)
    && (CursorKey in a <==> CursorKey in b)
    && (ItersizeKey in a <==> ItersizeKey in b)
    && (ItersizeKey in a ==> a[ItersizeKey] == b[ItersizeKey])
  }

  /** Cursor options depend only on the control keys: ordinary bind values never change them. */
  lemma CursorDependsOnlyOnControls(templatePath: string, a: Args, b: Args)
    requires SameControls(a, b)
    ensures SelectCursor(templatePath, a) == SelectCursor(templatePath, b)
  {
  }

  /** Adding an ordinary (non-control) argument leaves the cursor options as they were. */
  lemma OrdinaryArgumentKeepsCursor(templatePath: string, args: Args, key: string, value: string)
    requires key != AssocKey && key != CursorKey && key != ItersizeKey
    ensures SelectCursor(templatePath, args[key := value]) == SelectCursor(templatePath, args)
  {
    CursorDependsOnlyOnControls(templatePath, args[key := value], args);
  }
}
