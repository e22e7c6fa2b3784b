/**
 * The current schema's resolvers: the `todoItems` query (list cardinality) and
 * the `add_todo` mutation (single cardinality). Each inlines the row loop with
 * the Todo mapper and hands a driver error back through `?`.
 */
module Schema {
  import opened Cypher
  import opened Literals
  import opened Rows
  import opened Models
  import opened TodoStatements

  /** The `todoItems` statement. */
  const TodoItemsStatement: string := "MATCH (t:Todo)" + ReturnClause

  /** The `add_todo` statement up to its RETURN clause. */
  function CreateHead(id: string, title: string, completed: bool): string
  {
    CreatePrefix + DebugStr(id) + ", title: " + DebugStr(title) + ", completed: " + DebugBool(completed) + " })"
  }

  /** The `add_todo` statement: each value Debug-formatted into the text. */
  function CreateTodoStatement(id: string, title: string, completed: bool): string
  {
    CreateHead(id, title, completed) + ReturnClause
  }

  /** The per-row `Todo { .. }`: each `row.get(..).unwrap()` yields its field or panics. */
  function MapTodo(row: Row): Option<Todo>
  {
    match (GetString(row, "t.id"), GetString(row, "t.title"), GetBool(row, "t.completed"))
    case (Some(id), Some(title), Some(completed)) => Some(Todo(id, title, completed))
    case _ => None
  }

  /** The row holds exactly `t`'s fields in the three Todo columns. */
  predicate RowHolds(row: Row, t: Todo)
  {
    Lookup(row, "t.id") == Some(VStr(t.id))
    && Lookup(row, "t.title") == Some(VStr(t.title))
    && Lookup(row, "t.completed") == Some(VBool(t.completed))
  }

  /** The mapper yields a Todo exactly when the three columns hold its fields with the right types. */
  lemma MapTodoIff(row: Row, t: Todo)
    ensures MapTodo(row) == Some(t) <==> RowHolds(row, t)
  {
  }

  /** A row missing a Todo column, or holding another type there, yields no Todo at all. */
  lemma MapTodoFails(row: Row, column: string)
    requires column in TodoColumns
    requires column !in row || (column == "t.completed" && !row[column].VBool?)
                            || (column != "t.completed" && !row[column].VStr?)
    ensures MapTodo(row) == None
  {
  }

  /** The mapper reads nothing but the three Todo columns. */
  lemma MapTodoReadsOnlyTodoColumns(row1: Row, row2: Row)
    requires forall c :: c in TodoColumns ==> Lookup(row1, c) == Lookup(row2, c)
    ensures MapTodo(row1) == MapTodo(row2)
  {
  }

  /** Both statements RETURN exactly the columns the mapper reads, in that order. */
  lemma StatementsReturnTodoColumns(id: string, title: string, completed: bool)
    ensures Returns(TodoItemsStatement, TodoColumns)
    ensures Returns(CreateTodoStatement(id, title, completed), TodoColumns)
  {
    EndsWithReturnClause(TodoItemsStatement, "MATCH (t:Todo)");
    EndsWithReturnClause(CreateTodoStatement(id, title, completed), CreateHead(id, title, completed));
  }

  /** The `add_todo` statement carries the id and the title as string literals the store reads back unchanged. */
  lemma CreateStatementCarriesFields(id: string, title: string, completed: bool)
    ensures var s := CreateTodoStatement(id, title, completed);
      && |CreatePrefix| <= |s| && s[..|CreatePrefix|] == CreatePrefix
      && var first := ParseStringLiteral(s[|CreatePrefix|..]);
      && first.Some? && first.value.0 == id
      && var after := first.value.1;
      && |after| >= 9 && after[..9] == ", title: "
      && var second := ParseStringLiteral(after[9..]);
      && second.Some? && second.value.0 == title
      && second.value.1 == ", completed: " + DebugBool(completed) + " })" + ReturnClause
  {
    var tail := ", completed: " + DebugBool(completed) + " })" + ReturnClause;
    var rest2 := DebugStr(title) + tail;
    var rest1 := ", title: " + rest2;
    RegroupCreate(CreatePrefix, DebugStr(id), ", title: ", DebugStr(title), ", completed: ", DebugBool(completed),
                  " })", ReturnClause);
    StartsWith(CreatePrefix, DebugStr(id) + rest1);
    DebugStrRoundTrip(id, rest1);
    StartsWith(", title: ", rest2);
    DebugStrRoundTrip(title, tail);
  }

  lemma RegroupCreate(p: string, d1: string, t: string, d2: string, c: string, b: string, e: string, r: string)
    ensures p + d1 + t + d2 + c + b + e + r == p + (d1 + (t + (d2 + (c + b + e + r))))
  {
  }

  /**
   * Every returned Todo comes from the row at the same position, its fields
   * from that row's three columns; zero rows gives the empty list.
   */
  lemma TodoItemsFromRows(rows: seq<Row>, todos: seq<Todo>)
    ensures ManyOutcome(Rows(rows), MapTodo) == Ok(todos) <==>
              |todos| == |rows| && forall k :: 0 <= k < |rows| ==> RowHolds(rows[k], todos[k])
  {
    ManyOk(rows, MapTodo, todos);
  }

  /** `add_todo` yields the Todo of the last returned row, provided every row maps; no row gives NotFound. */
  lemma AddTodoFromLastRow(rows: seq<Row>, t: Todo)
    ensures OneOutcome(Rows(rows), MapTodo) == Ok(t) <==>
              |rows| > 0 && AllMap(rows, MapTodo) && RowHolds(rows[|rows| - 1], t)
    ensures OneOutcome(Rows(rows), MapTodo) == NotFound <==> rows == []
  {
    OneOk(rows, MapTodo, t);
    OneNotFound(Rows(rows), MapTodo);
  }

  /**
   * `Query::todoItems`. `exec` stands for the connection's `exec`; `mapped`
   * counts the rows the mapper was applied to.
   */
  method TodoItems(exec: string -> ExecResult) returns (out: Outcome<seq<Todo>>, ghost mapped: nat)
    ensures out == ManyOutcome(exec(TodoItemsStatement), MapTodo)
    ensures exec(TodoItemsStatement).DriverErr? ==> mapped == 0
    ensures out.MappingFailed? ==> mapped == out.row + 1
    ensures out.Ok? ==> mapped == |out.value|
  {
    mapped := 0;
    var result := exec(TodoItemsStatement);
    if result.DriverErr? {
      return QueryFailed(result.err), mapped;
    }
    var rows := result.rows;
    var todos: seq<Todo> := [];
    for i := 0 to |rows|
      invariant |todos| == i
      invariant mapped == i
      invariant forall k :: 0 <= k < i ==> MapTodo(rows[k]) == Some(todos[k])
    {
      var todo := MapTodo(rows[i]);
      mapped := mapped + 1;
      if todo.None? {
        MapRowsFailedAtIff(rows, MapTodo, i);
        return MappingFailed(i), mapped;
      }
      todos := todos + [todo.value];
    }
    MapRowsMappedIff(rows, MapTodo, todos);
    return Ok(todos), mapped;
  }

  /**
   * `Mutation::add_todo`. The fresh UUID is the parameter `id`; `exec` stands
   * for the connection's `exec`; `mapped` counts the rows the mapper was
   * applied to.
   */
  method AddTodo(exec: string -> ExecResult, id: string, title: string, completed: bool)
    returns (out: Outcome<Todo>, ghost mapped: nat)
    ensures out == OneOutcome(exec(CreateTodoStatement(id, title, completed)), MapTodo)
    ensures exec(CreateTodoStatement(id, title, completed)).DriverErr? ==> mapped == 0
    ensures out.MappingFailed? ==> mapped == out.row + 1
    ensures exec(CreateTodoStatement(id, title, completed)).Rows? && !out.MappingFailed? ==>
              mapped == |exec(CreateTodoStatement(id, title, completed)).rows|
  {
    var statement := CreateTodoStatement(id, title, completed);
    mapped := 0;
    var result := exec(statement);
    if result.DriverErr? {
      return QueryFailed(result.err), mapped;
    }
    var rows := result.rows;
    var todos: seq<Todo> := [];
    for i := 0 to |rows|
      invariant |todos| == i
      invariant mapped == i
      invariant forall k :: 0 <= k < i ==> MapTodo(rows[k]) == Some(todos[k])
    {
      var todo := MapTodo(rows[i]);
      mapped := mapped + 1;
      if todo.None? {
        MapRowsFailedAtIff(rows, MapTodo, i);
        return MappingFailed(i), mapped;
      }
      todos := todos + [todo.value];
    }
    MapRowsMappedIff(rows, MapTodo, todos);
    if |todos| == 0 {
      return NotFound, mapped;
    }
    var todo := todos[|todos| - 1];
    todos := todos[..|todos| - 1];
    out := Ok(todo);
  }

  /** An empty store lists no Todo, and that is not an error. */
  lemma EmptyStoreListsNothing()
    ensures ManyOutcome(Rows([]), MapTodo) == Ok([])
  {
  }

  /** One stored node comes back as the one Todo it holds. */
  lemma OneNodeListed()
    ensures ManyOutcome(Rows([map["t.id" := VStr("abc"), "t.title" := VStr("buy milk"), "t.completed" := VBool(false)]]), MapTodo)
            == Ok([Todo("abc", "buy milk", false)])
  {
    var row := map["t.id" := VStr("abc"), "t.title" := VStr("buy milk"), "t.completed" := VBool(false)];
    TodoItemsFromRows([row], [Todo("abc", "buy milk", false)]);
  }
}
