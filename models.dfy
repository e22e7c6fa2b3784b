/** The domain record the resolvers hand back. */
module Models {

  /** A todo item that can be marked as completed; `id` is the store's textual identifier. */
  datatype Todo = Todo(id: string, title: string, completed: bool)
}
