/** The replay generator as an object: the Python generator's local variables (`faces` or
    `shapes`, `currentT`, the position of the `for` loop over the rows) become fields, and the
    point where it is suspended becomes `phase`.  One class, generic over what a row carries,
    covers both `getFaceGenerator` and `getLandmarkGenerator`. */
module ReplayGenerator {
  import opened Records
  import opened ReplaySpec

  /** Where the generator is suspended between two `send` calls. */
  datatype Phase =
    | Collecting  // inside the `for` loop, about to load rows of the current time
    | Holding     // in the `while True` wait loop: the group is closed, rows[next] has another time
    | Finished    // in the final `while True: yield t, []`

  class Replay<P> {
    /** The decoded rows in the order the `for` loop visits them. */
    const rows: seq<Row<P>>
    /** The rows loaded for the current time (`faces` / `shapes`). */
    var buffer: seq<Row<P>>
    /** The time of the buffered rows; `None` before the first row is loaded. */
    var currentT: Option<real>
    /** Index of the next row the `for` loop reads. */
    var next: nat
    var phase: Phase

    ghost predicate Valid()
      reads this
    {
      && next <= |rows|
      && |buffer| <= next
      && buffer == rows[next - |buffer|..next]
      && (currentT.None? <==> buffer == [])
      && (buffer == [] ==> next == 0)
      && (forall k :: 0 <= k < |buffer| ==> Some(buffer[k].time) == currentT)
      && WellFormed(rows, Pending(next - |buffer|))
      && (phase.Holding? ==> next < |rows| && buffer != [] && rows[next].time != currentT.value)
      && (phase.Finished? ==> next == |rows|)
    }

    /** The abstract position: the first row of the group the generator will deliver next. */
    ghost function Cursor(): Cursor
      reads this
      requires Valid()
    {
      if phase.Finished? then Exhausted else Pending(next - |buffer|)
    }

    /** Creating the generator and priming it with `send(None)`: nothing loaded yet. */
    constructor (rows: seq<Row<P>>)
      ensures Valid() && this.rows == rows && Cursor() == Pending(0)
      ensures buffer == [] && currentT == None && next == 0 && phase == Collecting
    {
      this.rows := rows;
      buffer := [];
      currentT := None;
      next := 0;
      phase := Collecting;
    }

    /** The `for` loop of the source: load the rows of the current time, and only those, until
        the time changes or the rows run out. */
    method Collect()
      requires Valid() && phase == Collecting
      modifies this`buffer, this`currentT, this`next
      ensures Valid() && phase == Collecting
      ensures next - |buffer| == old(next - |buffer|)
      ensures next == |rows| || (buffer != [] && rows[next].time != currentT.value)
    {
      while next < |rows| && (currentT.None? || rows[next].time == currentT.value)
        invariant Valid() && phase == Collecting
        invariant next - |buffer| == old(next - |buffer|)
        decreases |rows| - next
      {
        buffer := buffer + [rows[next]];
        currentT := Some(rows[next].time);
        next := next + 1;
      }
    }

    /** The `while True` wait loop: hold the closed group while its time is ahead of `t`,
        otherwise return it whole and start the next group with `rows[next]`. */
    method Release(t: real) returns (reply: Reply<P>)
      requires Valid() && phase == Holding
      modifies this`buffer, this`currentT, this`next, this`phase
      ensures Valid()
      ensures (Cursor(), reply) == Step(rows, old(Cursor()), t)
    {
      ghost var g := next - |buffer|;
      assert buffer[0] == rows[g];
      StepAt(rows, g, next, t);
      if currentT.value > t {
        // the group's time is still ahead of the query: hold it and answer with nothing
        return Reply(t, []);
      }
      // return all rows at once, then reset the buffer to the row that changed the time
      reply := Reply(currentT.value, Items(buffer));
      buffer := [rows[next]];
      currentT := Some(rows[next].time);
      next := next + 1;
      phase := Collecting;
    }

    /** `send(t)`: answer one query and move to the next suspension point, exactly as `Step`. */
    method Query(t: real) returns (reply: Reply<P>)
      requires Valid()
      modifies this
      ensures Valid()
      ensures (Cursor(), reply) == Step(rows, old(Cursor()), t)
    {
      if phase.Finished? {
        return Reply(t, []);
      }
      if phase.Collecting? {
        ghost var g := next - |buffer|;
        Collect();
        if next == |rows| {
          // the rows ran out before the time changed: the buffered group is never yielded
          if g < |rows| {
            assert buffer[0] == rows[g];
            StepAt(rows, g, next, t);
          }
          phase := Finished;
          return Reply(t, []);
        }
        phase := Holding;
      }
      reply := Release(t);
    }

    /** A driver feeding one query per video frame: the replies are exactly `Run`'s. */
    method QueryAll(qs: seq<real>) returns (replies: seq<Reply<P>>)
      requires Valid()
      modifies this
      ensures Valid()
      ensures (Cursor(), replies) == Run(rows, old(Cursor()), qs)
    {
      ghost var c0 := Cursor();
      replies := [];
      var i := 0;
      assert qs[i..] == qs;
      assert replies + Run(rows, c0, qs).1 == Run(rows, c0, qs).1;
      while i < |qs|
        invariant 0 <= i <= |qs| && Valid()
        invariant Run(rows, c0, qs) ==
                  (Run(rows, Cursor(), qs[i..]).0, replies + Run(rows, Cursor(), qs[i..]).1)
      {
        ghost var c := Cursor();
        RunUnfold(rows, c, qs[i..]);
        assert qs[i..][0] == qs[i] && qs[i..][1..] == qs[i + 1..];
        var reply := Query(qs[i]);
        ghost var rest := Run(rows, Cursor(), qs[i + 1..]).1;
        assert replies + ([reply] + rest) == (replies + [reply]) + rest;
        replies := replies + [reply];
        i := i + 1;
      }
      assert qs[i..] == [] && replies + [] == replies;
    }
  }
}
