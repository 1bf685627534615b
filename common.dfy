/** Outcome types shared by the model: Python's `None` and the exceptions the pipeline can raise. */
module Common {

  /** A nullable value (`None` in Python, `NULL` in SQLite). */
  datatype Option<T> = None | Some(value: T)

  /** The exceptions of the modelled code that end a Streamlit rerun. */
  datatype Error =
    | IndexError            // `label.split('(')[1]` on a label without `(`
    | KeyError(key: string) // a DataFrame column or dict key that is not there
    | GeneratorError        // the language-model call raised
    | InsertError           // an `INSERT` the store rejected

  /** A value or the exception that replaced it. */
  datatype Result<T> = Success(value: T) | Failure(error: Error)
}
