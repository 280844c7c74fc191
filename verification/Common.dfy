/** Small datatypes and one fact about sequences, shared by the models. */
module Common {

  datatype Option<+T> = None | Some(value: T)

  /** What can happen to one database write: it is applied and acknowledged, it
      is not applied, or it is applied but reported to the caller as a failure. */
  datatype Write = Acked | Lost | Unacked

  lemma Reassociate<T>(a: seq<T>, b: seq<T>, c: seq<T>)
    ensures a + b + c == a + (b + c)
  {
  }
}
