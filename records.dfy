/** The student record and the replies the record handlers give. */
module Records {

  /** The `marks` column. The handlers only store and return it, so the model
      carries it as an uninterpreted number and never computes with it. */
  type Marks = real

  /** One row of the data file: the columns id, name, marks, grade, course. */
  datatype Record = Record(id: int, name: string, marks: Marks, grade: string, course: string)

  /** Absence of a value, used for "no stored record matches". */
  datatype Option<T> = None | Some(value: T)

  /** What a handler answers: a value, or the 404 reply whose body is
      `{"error": "Record not found"}`. */
  datatype Reply<T> = Ok(value: T) | NotFound

  /** The message body of a successful delete. */
  const DeletedMessage: string := "Record deleted successfully"
}
