/** Values shared by both replay generators: annotation rows and the replies to a query. */
module Records {

  datatype Option<T> = None | Some(value: T)

  datatype Result<T, E> = Ok(value: T) | Err(error: E)

  /** One annotation row once decoded: its original time `T` and what the generator
      buffers for it (a face `(identifier, box, status)` or a shape `(identifier, points)`). */
  datatype Row<P> = Row(time: real, item: P)

  /** What one `send(t)` yields: `(t, [])` when nothing is due, `(currentT, group)` otherwise. */
  datatype Reply<P> = Reply(time: real, group: seq<P>)

  /** The buffered items of some rows, in row order (the rows' times are dropped). */
  function Items<P>(rows: seq<Row<P>>): (items: seq<P>)
    ensures |items| == |rows|
    ensures forall i :: 0 <= i < |rows| ==> items[i] == rows[i].item
  {
    seq(|rows|, i requires 0 <= i < |rows| => rows[i].item)
  }

  /** A reply that carries nothing: the query time and an empty group. */
  function Silent<P>(qs: seq<real>): (replies: seq<Reply<P>>)
    ensures |replies| == |qs|
    ensures forall i :: 0 <= i < |qs| ==> replies[i] == Reply(qs[i], [])
  {
    seq(|qs|, i requires 0 <= i < |qs| => Reply(qs[i], []))
  }

  /** The rows are in non-decreasing time order. */
  predicate TimeSorted<P>(rows: seq<Row<P>>)
  {
    forall i, j :: 0 <= i < j < |rows| ==> rows[i].time <= rows[j].time
  }
}
