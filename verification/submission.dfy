/** What the two lead-capture forms share: the state a submit attempt leaves
    behind, the outcome of a remote call, and the trace of remote calls a
    handler issues. */
module Submission {

  /** The form's `submitted`, `error` and `loading` state. */
  datatype FormState = FormState(submitted: bool, error: string, loading: bool)

  /** The outcome of one remote call. */
  datatype RemoteResult = Succeeded | FailedWith(message: string)

  /** A remote call issued by a handler: a storage upload under a key, or a
      row insert. */
  datatype Effect<Row> = Upload(key: string) | Insert(row: Row)

  /** The calls a submit issued, in order, and the state it ends in. */
  datatype Submit<Row> = Submit(effects: seq<Effect<Row>>, state: FormState)

  /** The keys uploaded, in order. */
  function Uploads<Row>(effects: seq<Effect<Row>>): (keys: seq<string>)
    ensures |keys| <= |effects|
    decreases |effects|
  {
    if effects == [] then []
    else if effects[0].Upload? then [effects[0].key] + Uploads(effects[1..])
    else Uploads(effects[1..])
  }

  /** The rows inserted, in order. */
  function Inserts<Row>(effects: seq<Effect<Row>>): (rows: seq<Row>)
    ensures |rows| <= |effects|
    decreases |effects|
  {
    if effects == [] then []
    else if effects[0].Insert? then [effects[0].row] + Inserts(effects[1..])
    else Inserts(effects[1..])
  }

  /** No upload follows an insert: the blob is stored before the row that
      refers to it. */
  predicate UploadsBeforeInserts<Row>(effects: seq<Effect<Row>>) {
    forall i, j :: 0 <= i < j < |effects| && effects[i].Insert? ==> !effects[j].Upload?
  }

  /** A state every exit path of a handler leaves: not loading, and an error
      shown exactly when the form was not submitted. */
  predicate Settled(s: FormState) {
    !s.loading && (s.submitted <==> s.error == "")
  }

  const SubmissionFailedPrefix := "Submission failed: "
}
