/**
 * The statement text both schemas share: the columns every Todo statement
 * returns, the RETURN clause that lists them and the start of the CREATE
 * pattern.
 */
module TodoStatements {
  import opened Cypher
  import opened Literals

  /** The columns the Todo mapper reads, in the order the statements return them. */
  const TodoColumns: seq<string> := ["t.id", "t.title", "t.completed"]

  /** The prefix of an `add_todo` statement, up to the id literal. */
  const CreatePrefix: string := "CREATE (t:Todo {id: "

  /** The RETURN clause every Todo statement ends with. */
  const ReturnClause: string := " RETURN t.id, t.title, t.completed"

  lemma ReturnClauseListsTodoColumns()
    ensures " RETURN " + JoinColumns(TodoColumns) == ReturnClause
  {
  }

  /** A statement that ends with the RETURN clause returns exactly the Todo columns. */
  lemma EndsWithReturnClause(statement: string, head: string)
    requires statement == head + ReturnClause
    ensures Returns(statement, TodoColumns)
  {
    ReturnClauseListsTodoColumns();
    EndsWith(head, ReturnClause);
  }
}
