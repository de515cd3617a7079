/** The Task row: its columns and the three values its status column admits. */
module TaskModel {

  /** The values of the status column's ENUM, in declaration order. */
  const StatusValues: seq<string> := ["To Do", "In Progress", "Done"]

  datatype Task = Task(title: string, status: string, projectId: int)
}
