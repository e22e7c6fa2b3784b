/**
 * The older schema: `QueryRoot::todoItems`, `MutationRoot::add_todo` and the
 * field getters of its own Todo, whose id is an `i32`. The resolvers run the
 * same row loop as the current schema, but `unwrap()` the driver result, so a
 * driver error panics instead of being handed back.
 */
module GraphqlSchema {
  import opened Cypher
  import opened Literals
  import opened Rows
  import opened TodoStatements

  /** The Todo this schema describes: an `i32` id, a title and a completion flag. */
  datatype Todo = Todo(id: Int32, title: string, completed: bool)
  {
    /** Field `id`. */
    function Id(): Int32 { id }

    /** Field `title`. */
    function Title(): string { title }

    /** Field `completed`. */
    function Completed(): bool { completed }
  }

  /** The `todoItems` statement. */
  const TodoItemsStatement: string := "MATCH (t:Todo)" + ReturnClause

  /** The id `add_todo` writes into every statement it builds. */
  const FixedId: Int32 := 1256

  /** The `add_todo` statement as written: the Debug-quoted title is wrapped in a second pair of quotes. */
  function CreateTodoStatement(title: string, completed: bool): string
  {
    CreatePrefix + DebugInt(FixedId) + ", title: " + "\"" + DebugStr(title) + "\"" + ", completed: "
    + DebugBool(completed) + " })" + ReturnClause
  }

  /** The `add_todo` statement with the title quoted once, as the current schema does. */
  function CorrectedCreateTodoStatement(title: string, completed: bool): string
  {
    CreatePrefix + DebugInt(FixedId) + ", title: " + DebugStr(title) + ", completed: " + DebugBool(completed)
    + " })" + ReturnClause
  }

  /** The per-row `Todo { .. }`: each `row.get(..).unwrap()` yields its field or panics. */
  function MapTodo(row: Row): Option<Todo>
  {
    match (GetInt32(row, "t.id"), GetString(row, "t.title"), GetBool(row, "t.completed"))
    case (Some(id), Some(title), Some(completed)) => Some(Todo(id, title, completed))
    case _ => None
  }

  /** The row holds exactly `t`'s fields in the three Todo columns. */
  predicate RowHolds(row: Row, t: Todo)
  {
    Lookup(row, "t.id") == Some(VInt(t.id))
    && Lookup(row, "t.title") == Some(VStr(t.title))
    && Lookup(row, "t.completed") == Some(VBool(t.completed))
  }

  /** The mapper yields a Todo exactly when the three columns hold its fields with the right types. */
  lemma MapTodoIff(row: Row, t: Todo)
    ensures MapTodo(row) == Some(t) <==> RowHolds(row, t)
  {
  }

  /** An integer id that does not fit in 32 bits fails the mapping rather than wrapping around. */
  lemma WideIdFails(row: Row, n: int)
    requires Lookup(row, "t.id") == Some(VInt(n))
    requires n < -0x8000_0000 || 0x8000_0000 <= n
    ensures MapTodo(row) == None
  {
  }

  /** The getters give back, unchanged, the values of the row the Todo was mapped from. */
  lemma GettersReturnRowValues(row: Row, t: Todo)
    requires MapTodo(row) == Some(t)
    ensures Lookup(row, "t.id") == Some(VInt(t.Id()))
    ensures Lookup(row, "t.title") == Some(VStr(t.Title()))
    ensures Lookup(row, "t.completed") == Some(VBool(t.Completed()))
  {
    MapTodoIff(row, t);
  }

  lemma FixedIdSpelling()
    ensures DebugInt(FixedId) == "1256"
  {
  }

  /** The text both `add_todo` statements start with, up to the title literal. */
  const FixedPrefix: string := "CREATE (t:Todo {id: 1256, title: "

  /** Whatever the title and flag, both statements write `id: 1256` into their CREATE pattern. */
  lemma StatementUsesFixedId(title: string, completed: bool)
    ensures |FixedPrefix| <= |CreateTodoStatement(title, completed)|
    ensures CreateTodoStatement(title, completed)[..|FixedPrefix|] == FixedPrefix
    ensures CorrectedCreateTodoStatement(title, completed)[..|FixedPrefix|] == FixedPrefix
  {
    SplitAtTitle(title, completed);
    SplitCorrectedAtTitle(title, completed);
  }

  lemma SplitAtTitle(title: string, completed: bool)
    ensures CreateTodoStatement(title, completed)
            == FixedPrefix + ("\"" + DebugStr(title) + "\"" + TitleTail(completed))
    ensures |FixedPrefix| <= |CreateTodoStatement(title, completed)|
    ensures CreateTodoStatement(title, completed)[..|FixedPrefix|] == FixedPrefix
  {
    FixedPrefixSpelling();
    var q, d, b := "\"", DebugStr(title), DebugBool(completed);
    Regroup(CreatePrefix, DebugInt(FixedId), ", title: ", q, d, q, ", completed: ", b, " })", ReturnClause);
    StartsWith(FixedPrefix, q + d + q + TitleTail(completed));
  }

  lemma SplitCorrectedAtTitle(title: string, completed: bool)
    ensures CorrectedCreateTodoStatement(title, completed) == FixedPrefix + (DebugStr(title) + TitleTail(completed))
    ensures |FixedPrefix| <= |CorrectedCreateTodoStatement(title, completed)|
    ensures CorrectedCreateTodoStatement(title, completed)[..|FixedPrefix|] == FixedPrefix
  {
    FixedPrefixSpelling();
    var d, b := DebugStr(title), DebugBool(completed);
    RegroupOnce(CreatePrefix, DebugInt(FixedId), ", title: ", d, ", completed: ", b, " })", ReturnClause);
    StartsWith(FixedPrefix, d + TitleTail(completed));
  }

  lemma RegroupOnce(p1: string, p2: string, p3: string, d: string, t1: string, t2: string, t3: string, t4: string)
    ensures p1 + p2 + p3 + d + t1 + t2 + t3 + t4 == (p1 + p2 + p3) + (d + (t1 + t2 + t3 + t4))
  {
  }

  lemma FixedPrefixSpelling()
    ensures CreatePrefix + DebugInt(FixedId) + ", title: " == FixedPrefix
  {
    FixedIdSpelling();
  }

  lemma Regroup(p1: string, p2: string, p3: string, q1: string, d: string, q2: string,
                t1: string, t2: string, t3: string, t4: string)
    ensures p1 + p2 + p3 + q1 + d + q2 + t1 + t2 + t3 + t4 == (p1 + p2 + p3) + (q1 + d + q2 + (t1 + t2 + t3 + t4))
  {
  }

  /** What follows the title literal in a correctly quoted statement. */
  function TitleTail(completed: bool): string
  {
    ", completed: " + DebugBool(completed) + " })" + ReturnClause
  }

  /**
   * As written, the first string literal after `title: ` is the empty literal
   * `""`, and what follows it is the escaped title and a second `""`: the
   * title's text stands outside any literal.
   */
  lemma TitleLiteralLost(title: string, completed: bool)
    ensures var s := CreateTodoStatement(title, completed);
      && |FixedPrefix| <= |s|
      && var lit := ParseStringLiteral(s[|FixedPrefix|..]);
      && lit == Some(("", Escape(title) + "\"\"" + TitleTail(completed)))
      && (title != "" ==> lit.value.0 != title)
  {
    SplitAtTitle(title, completed);
    var e, t := Escape(title), TitleTail(completed);
    var after := e + "\"\"" + t;
    RegroupQuoted(e, t);
    StartsWith(FixedPrefix, "\"\"" + after);
    EmptyLiteralFirst(after);
  }

  lemma RegroupQuoted(e: string, t: string)
    ensures "\"" + ("\"" + e + "\"") + "\"" + t == "\"\"" + (e + "\"\"" + t)
  {
  }

  /** Two quotes in a row are an empty literal, and reading resumes right after them. */
  lemma EmptyLiteralFirst(after: string)
    ensures ParseStringLiteral("\"\"" + after) == Some(("", after))
  {
    var r := "\"\"" + after;
    assert r[0] == '"' && r[1..] == "\"" + after;
    assert r[1..][0] == '"' && r[1..][1..] == after;
  }

  /** Quoted once, the title literal reads back as the title, followed by the rest of the statement. */
  lemma CorrectedTitleLiteral(title: string, completed: bool)
    ensures var s := CorrectedCreateTodoStatement(title, completed);
      && |FixedPrefix| <= |s|
      && ParseStringLiteral(s[|FixedPrefix|..]) == Some((title, TitleTail(completed)))
  {
    SplitCorrectedAtTitle(title, completed);
    StartsWith(FixedPrefix, DebugStr(title) + TitleTail(completed));
    DebugStrRoundTrip(title, TitleTail(completed));
  }

  /** Both statements, as written, RETURN exactly the columns the mapper reads. */
  lemma StatementsReturnTodoColumns(title: string, completed: bool)
    ensures Returns(TodoItemsStatement, TodoColumns)
    ensures Returns(CreateTodoStatement(title, completed), TodoColumns)
  {
    EndsWithReturnClause(TodoItemsStatement, "MATCH (t:Todo)");
    var head := CreatePrefix + DebugInt(FixedId) + ", title: " + "\"" + DebugStr(title) + "\"" + ", completed: "
                + DebugBool(completed) + " })";
    EndsWithReturnClause(CreateTodoStatement(title, completed), head);
  }

  /**
   * `todoItems` either panics or lists one Todo per row, in row order, each
   * read from its own row; it never hands a driver error back.
   */
  lemma TodoItemsFromRows(result: ExecResult, todos: seq<Todo>)
    ensures UnwrapExec(ManyOutcome(result, MapTodo)) == Ok(todos) <==>
              result.Rows? && |todos| == |result.rows|
              && forall k :: 0 <= k < |result.rows| ==> RowHolds(result.rows[k], todos[k])
    ensures result.DriverErr? ==> UnwrapExec(ManyOutcome(result, MapTodo)) == QueryPanicked(result.err)
  {
    if result.Rows? {
      ManyOk(result.rows, MapTodo, todos);
    }
  }

  /**
   * `add_todo` yields the Todo of the last returned row provided every row
   * maps; it panics on a driver error, on a failing row and on zero rows.
   */
  lemma AddTodoFromLastRow(result: ExecResult, t: Todo)
    ensures UnwrapExec(OneOutcome(result, MapTodo)) == Ok(t) <==>
              result.Rows? && |result.rows| > 0 && AllMap(result.rows, MapTodo)
              && RowHolds(result.rows[|result.rows| - 1], t)
    ensures !UnwrapExec(OneOutcome(result, MapTodo)).Ok? ==> UnwrapExec(OneOutcome(result, MapTodo)).Panicked()
  {
    if result.Rows? {
      OneOk(result.rows, MapTodo, t);
    }
  }

  /**
   * `QueryRoot::todoItems`. `exec` stands for the connection's `exec`;
   * `mapped` counts the rows the mapper was applied to.
   */
  method TodoItems(exec: string -> ExecResult) returns (out: Outcome<seq<Todo>>, ghost mapped: nat)
    ensures out == UnwrapExec(ManyOutcome(exec(TodoItemsStatement), MapTodo))
    ensures exec(TodoItemsStatement).DriverErr? ==> mapped == 0
    ensures out.MappingFailed? ==> mapped == out.row + 1
    ensures out.Ok? ==> mapped == |out.value|
  {
    mapped := 0;
    var result := exec(TodoItemsStatement);
    if result.DriverErr? {
      return QueryPanicked(result.err), mapped;
    }
    var rows := result.rows;
    var todos: seq<Todo> := [];
    for i := 0 to |rows|
      invariant |todos| == i
      invariant mapped == i
      invariant forall k :: 0 <= k < i ==> MapTodo(rows[k]) == Some(todos[k])
    {
      var todo := MapTodo(rows[i]);
      mapped := mapped + 1;
      if todo.None? {
        MapRowsFailedAtIff(rows, MapTodo, i);
        return MappingFailed(i), mapped;
      }
      todos := todos + [todo.value];
    }
    MapRowsMappedIff(rows, MapTodo, todos);
    return Ok(todos), mapped;
  }

  /**
   * `MutationRoot::add_todo`, with the statement as written. `exec` stands for
   * the connection's `exec`; `mapped` counts the rows the mapper was applied to.
   */
  method AddTodo(exec: string -> ExecResult, title: string, completed: bool)
    returns (out: Outcome<Todo>, ghost mapped: nat)
    ensures out == UnwrapExec(OneOutcome(exec(CreateTodoStatement(title, completed)), MapTodo))
    ensures exec(CreateTodoStatement(title, completed)).DriverErr? ==> mapped == 0
    ensures out.MappingFailed? ==> mapped == out.row + 1
    ensures exec(CreateTodoStatement(title, completed)).Rows? && !out.MappingFailed? ==>
              mapped == |exec(CreateTodoStatement(title, completed)).rows|
  {
    var statement := CreateTodoStatement(title, completed);
    mapped := 0;
    var result := exec(statement);
    if result.DriverErr? {
      return QueryPanicked(result.err), mapped;
    }
    var rows := result.rows;
    var todos: seq<Todo> := [];
    for i := 0 to |rows|
      invariant |todos| == i
      invariant mapped == i
      invariant forall k :: 0 <= k < i ==> MapTodo(rows[k]) == Some(todos[k])
    {
      var todo := MapTodo(rows[i]);
      mapped := mapped + 1;
      if todo.None? {
        MapRowsFailedAtIff(rows, MapTodo, i);
        return MappingFailed(i), mapped;
      }
      todos := todos + [todo.value];
    }
    MapRowsMappedIff(rows, MapTodo, todos);
    if |todos| == 0 {
      return NotFound, mapped;
    }
    var todo := todos[|todos| - 1];
    todos := todos[..|todos| - 1];
    out := Ok(todo);
  }
}
