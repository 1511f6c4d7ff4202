/**
 * The delete confirmation both list screens of the second revision keep:
 * whether the confirmation dialog is open, and which record waits for the
 * user's answer.
 */
module DeleteConfirmation {
  import opened Options

  datatype Pending<T> = Pending(open: bool, target: Option<T>)

  /** The dialog is open exactly while a record waits for confirmation. */
  predicate Consistent<T>(p: Pending<T>) {
    p.open <==> p.target.Some?
  }

  /** `handleDeleteClick`: remember the record and open the dialog, whatever was pending before. */
  function Ask<T>(t: T): (r: Pending<T>)
    ensures Consistent(r) && r.target == Some(t)
  {
    Pending(true, Some(t))
  }

  /** `handleDeleteCancel`, and the end of every confirmed delete: close the dialog and forget the record. */
  function Dismiss<T>(): (r: Pending<T>)
    ensures Consistent(r) && !r.open
  {
    Pending(false, None)
  }
}
