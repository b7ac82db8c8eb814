/** The timestamp-replay state machine of `getFaceGenerator` / `getLandmarkGenerator`, as pure
    functions: what one query answers (`Step`), what a sequence of queries answers (`Run`), and
    which groups are still to be delivered (`Backlog`).  A group is a maximal run of consecutive
    rows sharing one time.  The generator class in `ReplayGenerator` is proved against `Step`. */
module ReplaySpec {
  import opened Records

  /** Where the generator stands between two queries: `start` is the first row of the group it
      will deliver next (whether or not it has scanned that group yet), or the rows are used up. */
  datatype Cursor = Pending(start: nat) | Exhausted

  /** One past the last row of the run of rows sharing `rows[g]`'s time. */
  function RunEnd<P>(rows: seq<Row<P>>, g: nat): (e: nat)
    requires g < |rows|
    ensures g < e <= |rows|
    ensures forall k :: g <= k < e ==> rows[k].time == rows[g].time
    ensures e < |rows| ==> rows[e].time != rows[g].time
    decreases |rows| - g
  {
    if g + 1 < |rows| && rows[g + 1].time == rows[g].time then RunEnd(rows, g + 1) else g + 1
  }

  /** Row `g` opens a run: it is the first row, or its predecessor has another time. */
  predicate IsRunStart<P>(rows: seq<Row<P>>, g: nat)
  {
    g < |rows| && (g == 0 || rows[g - 1].time != rows[g].time)
  }

  /** The cursors the generator can reach: a pending group starts a run (or is the very start). */
  predicate WellFormed<P>(rows: seq<Row<P>>, c: Cursor)
  {
    c.Pending? ==> c.start == 0 || IsRunStart(rows, c.start)
  }

  /** The answer to one query `t`, and the cursor afterwards.  From a pending group: if the rows
      run out before a time change, the generator is exhausted and answers `(t, [])`; if the
      group's time is still ahead of `t`, it answers `(t, [])` and keeps waiting; otherwise it
      delivers the whole group with the group's own time and moves to the next run. */
  function Step<P>(rows: seq<Row<P>>, c: Cursor, t: real): (res: (Cursor, Reply<P>))
    ensures res.1.group == [] ==> res.1.time == t
    ensures res.1.group != [] ==>
              c.Pending? && c.start < |rows| && res.1.time == rows[c.start].time && res.1.time <= t
    ensures c.Pending? && c.start < |rows| && rows[c.start].time > t ==> res.1 == Reply(t, [])
    ensures c.Exhausted? ==> res.0.Exhausted?
  {
    match c
    case Exhausted => (Exhausted, Reply(t, []))
    case Pending(g) =>
      if g >= |rows| then (Exhausted, Reply(t, []))
      else
        var e := RunEnd(rows, g);
        if e == |rows| then (Exhausted, Reply(t, []))
        else if rows[g].time > t then (c, Reply(t, []))
        else (Pending(e), Reply(rows[g].time, Items(rows[g..e])))
  }

  /** The replies to the queries `qs`, one per query, and the cursor after the last one. */
  function Run<P>(rows: seq<Row<P>>, c: Cursor, qs: seq<real>): (res: (Cursor, seq<Reply<P>>))
    ensures |res.1| == |qs|
    decreases |qs|
  {
    if qs == [] then (c, [])
    else
      var (c1, reply) := Step(rows, c, qs[0]);
      var (c2, replies) := Run(rows, c1, qs[1..]);
      (c2, [reply] + replies)
  }

  /** The runs from row `g` on that a generator standing at `g` can still deliver: every run
      except the final one, each non-empty and of one time. */
  function RunsFrom<P>(rows: seq<Row<P>>, g: nat): (runs: seq<seq<Row<P>>>)
    ensures forall i :: 0 <= i < |runs| ==> runs[i] != []
    ensures forall i, k :: 0 <= i < |runs| && 0 <= k < |runs[i]| ==> runs[i][k].time == runs[i][0].time
    decreases |rows| - g
  {
    if g >= |rows| then []
    else
      var e := RunEnd(rows, g);
      if e == |rows| then [] else [rows[g..e]] + RunsFrom(rows, e)
  }

  /** The first row of the final run (the rows after the last time change), searching from `g`. */
  function FinalStart<P>(rows: seq<Row<P>>, g: nat): (f: nat)
    requires g <= |rows|
    ensures g <= f <= |rows|
    ensures g < |rows| ==> f < |rows|
    decreases |rows| - g
  {
    if g == |rows| then g
    else
      var e := RunEnd(rows, g);
      if e == |rows| then g else FinalStart(rows, e)
  }

  /** The reply that delivers one run. */
  function Deliver<P>(run: seq<Row<P>>): Reply<P>
    requires run != []
  {
    Reply(run[0].time, Items(run))
  }

  /** The replies a generator standing at row `g` will still deliver, in order: one per run,
      each with its run's time and items, up to but excluding the final run. */
  function BacklogFrom<P>(rows: seq<Row<P>>, g: nat): seq<Reply<P>>
    decreases |rows| - g
  {
    if g >= |rows| then []
    else
      var e := RunEnd(rows, g);
      if e == |rows| then [] else [Reply(rows[g].time, Items(rows[g..e]))] + BacklogFrom(rows, e)
  }

  /** The replies the generator will still deliver from cursor `c`, in order. */
  function Backlog<P>(rows: seq<Row<P>>, c: Cursor): seq<Reply<P>>
  {
    match c
    case Exhausted => []
    case Pending(g) => BacklogFrom(rows, g)
  }

  /** The non-empty replies among `replies`, in order. */
  function Delivered<P>(replies: seq<Reply<P>>): (d: seq<Reply<P>>)
    ensures |d| <= |replies|
    ensures forall i :: 0 <= i < |d| ==> d[i].group != []
  {
    if replies == [] then []
    else (if replies[0].group == [] then [] else [replies[0]]) + Delivered(replies[1..])
  }

  function Concat<T>(ss: seq<seq<T>>): seq<T>
  {
    if ss == [] then [] else ss[0] + Concat(ss[1..])
  }


  // ---------------------------------------------------------------------------------------
  // One query

  /** A query delivers the first group of the backlog or nothing, and the cursor stays reachable. */
  lemma StepConsumesBacklog<P>(rows: seq<Row<P>>, c: Cursor, t: real)
    requires WellFormed(rows, c)
    ensures WellFormed(rows, Step(rows, c, t).0)
    ensures var reply := Step(rows, c, t).1;
            Backlog(rows, c) == (if reply.group == [] then [] else [reply]) + Backlog(rows, Step(rows, c, t).0)
  {
  }

  // ---------------------------------------------------------------------------------------
  // A sequence of queries

  lemma RunUnfold<P>(rows: seq<Row<P>>, c: Cursor, qs: seq<real>)
    requires qs != []
    ensures Run(rows, c, qs).0 == Run(rows, Step(rows, c, qs[0]).0, qs[1..]).0
    ensures Run(rows, c, qs).1 == [Step(rows, c, qs[0]).1] + Run(rows, Step(rows, c, qs[0]).0, qs[1..]).1
  {
  }

  /** Every reply carries the query time when it is empty, and otherwise a group time that the
      query has reached: a group is never released while its time is ahead of the query. */
  lemma {:induction false} RepliesCarryQueryTime<P>(rows: seq<Row<P>>, c: Cursor, qs: seq<real>)
    ensures var replies := Run(rows, c, qs).1;
            forall i :: 0 <= i < |qs| ==>
              (replies[i].group == [] ==> replies[i].time == qs[i]) &&
              (replies[i].group != [] ==> replies[i].time <= qs[i])
    decreases |qs|
  {
    if qs != [] {
      var c1 := Step(rows, c, qs[0]).0;
      RunUnfold(rows, c, qs);
      RepliesCarryQueryTime(rows, c1, qs[1..]);
      var replies := Run(rows, c, qs).1;
      forall i | 1 <= i < |qs|
        ensures replies[i] == Run(rows, c1, qs[1..]).1[i - 1] && qs[i] == qs[1..][i - 1]
      {
      }
    }
  }

  /** In-order, at-most-once delivery: the groups delivered by a run of queries are the head of
      the backlog, and what is left of the backlog is exactly the rest. */
  lemma {:induction false} RunConsumesBacklog<P>(rows: seq<Row<P>>, c: Cursor, qs: seq<real>)
    requires WellFormed(rows, c)
    ensures WellFormed(rows, Run(rows, c, qs).0)
    ensures Backlog(rows, c) == Delivered(Run(rows, c, qs).1) + Backlog(rows, Run(rows, c, qs).0)
    decreases |qs|
  {
    if qs != [] {
      var c1 := Step(rows, c, qs[0]).0;
      var reply := Step(rows, c, qs[0]).1;
      var rest := Run(rows, c1, qs[1..]).1;
      var head := if reply.group == [] then [] else [reply];
      var tail := Backlog(rows, Run(rows, c, qs).0);
      assert WellFormed(rows, c1) && Backlog(rows, c) == head + Backlog(rows, c1) by {
        StepConsumesBacklog(rows, c, qs[0]);
      }
      assert Run(rows, c, qs).0 == Run(rows, c1, qs[1..]).0 && Run(rows, c, qs).1 == [reply] + rest by {
        RunUnfold(rows, c, qs);
      }
      assert WellFormed(rows, Run(rows, c, qs).0) && Backlog(rows, c1) == Delivered(rest) + tail by {
        RunConsumesBacklog(rows, c1, qs[1..]);
      }
      assert Delivered(Run(rows, c, qs).1) == head + Delivered(rest) by {
        assert ([reply] + rest)[1..] == rest;
      }
      ConcatChain(Backlog(rows, c), Backlog(rows, c1), head, Delivered(rest), tail, Delivered(Run(rows, c, qs).1));
    }
  }

  /** Splicing two splits of sequences together (kept apart so the solver reasons about `+` alone). */
  lemma ConcatChain<T>(b0: seq<T>, b1: seq<T>, head: seq<T>, drest: seq<T>, tail: seq<T>, d: seq<T>)
    requires b0 == head + b1 && b1 == drest + tail && d == head + drest
    ensures b0 == d + tail
  {
  }

  /** From the start of the rows, the delivered groups are a prefix of all deliverable groups:
      in input order, none skipped, none twice. */
  lemma DeliveredIsPrefixOfGroups<P>(rows: seq<Row<P>>, qs: seq<real>)
    ensures var d := Delivered(Run(rows, Pending(0), qs).1);
            |d| <= |Backlog(rows, Pending(0))| && d == Backlog(rows, Pending(0))[..|d|]
  {
    RunConsumesBacklog(rows, Pending(0), qs);
  }

  /** Once nothing is left to deliver, every query is answered `(t, [])`. */
  lemma {:induction false} SilentOnceBacklogEmpty<P>(rows: seq<Row<P>>, c: Cursor, qs: seq<real>)
    requires WellFormed(rows, c) && Backlog(rows, c) == []
    ensures Run(rows, c, qs).1 == Silent(qs)
    decreases |qs|
  {
    if qs != [] {
      var (c1, reply) := Step(rows, c, qs[0]);
      StepConsumesBacklog(rows, c, qs[0]);
      RunUnfold(rows, c, qs);
      SilentOnceBacklogEmpty(rows, c1, qs[1..]);
      assert Run(rows, c, qs).1 == [Reply(qs[0], [])] + Silent(qs[1..]);
    }
  }

  /** The exhausted state is terminal and answers every query `(t, [])`, however large `t`. */
  lemma {:induction false} ExhaustedForever<P>(rows: seq<Row<P>>, qs: seq<real>)
    ensures Run(rows, Exhausted, qs) == (Exhausted, Silent(qs))
    decreases |qs|
  {
    if qs != [] {
      RunUnfold(rows, Exhausted, qs);
      assert Step(rows, Exhausted, qs[0]) == (Exhausted, Reply(qs[0], []));
      ExhaustedForever(rows, qs[1..]);
      assert Silent<P>(qs) == [Reply(qs[0], [])] + Silent<P>(qs[1..]);
    }
  }

  /** An empty annotation file yields only `(t, [])` replies. */
  lemma EmptyFileIsSilent<P>(qs: seq<real>)
    ensures Run<P>([], Pending(0), qs).1 == Silent(qs)
  {
    SilentOnceBacklogEmpty<P>([], Pending(0), qs);
  }

  /** When every query is at or past every row's time, the backlog drains one group per query,
      in order, and the queries after that are answered `(t, [])`. */
  lemma {:induction false} BacklogDrainsOnePerQuery<P>(rows: seq<Row<P>>, c: Cursor, qs: seq<real>)
    requires WellFormed(rows, c)
    requires forall i, k :: 0 <= i < |qs| && 0 <= k < |rows| ==> rows[k].time <= qs[i]
    ensures var replies := Run(rows, c, qs).1;
            var b := Backlog(rows, c);
            forall i :: 0 <= i < |qs| ==> replies[i] == if i < |b| then b[i] else Reply(qs[i], [])
    decreases |qs|
  {
    if qs != [] {
      var (c1, reply) := Step(rows, c, qs[0]);
      StepConsumesBacklog(rows, c, qs[0]);
      RunUnfold(rows, c, qs);
      BacklogDrainsOnePerQuery(rows, c1, qs[1..]);
      var b := Backlog(rows, c);
      if b != [] {
        // a group is pending and its time has been reached, so this query delivers it
        assert c.Pending? && c.start < |rows| && RunEnd(rows, c.start) < |rows|;
        assert reply.group != [];
      }
      var replies := Run(rows, c, qs).1;
      forall i | 1 <= i < |qs|
        ensures replies[i] == Run(rows, c1, qs[1..]).1[i - 1] && qs[i] == qs[1..][i - 1]
      {
      }
    }
  }

  // ---------------------------------------------------------------------------------------
  // The shape of the groups

  /** Rows `g..e` of one time, ended by a time change or the end of the rows, are one whole run. */
  lemma RunEndIsUnique<P>(rows: seq<Row<P>>, g: nat, e: nat)
    requires g < e <= |rows|
    requires forall k :: g <= k < e ==> rows[k].time == rows[g].time
    requires e < |rows| ==> rows[e].time != rows[g].time
    ensures RunEnd(rows, g) == e
  {
  }

  /** What one query answers from a pending group whose run is known to end at `e`. */
  lemma StepAt<P>(rows: seq<Row<P>>, g: nat, e: nat, t: real)
    requires g < e <= |rows|
    requires forall k :: g <= k < e ==> rows[k].time == rows[g].time
    requires e < |rows| ==> rows[e].time != rows[g].time
    ensures e == |rows| ==> Step(rows, Pending(g), t) == (Exhausted, Reply(t, []))
    ensures e < |rows| && rows[g].time > t ==> Step(rows, Pending(g), t) == (Pending(g), Reply(t, []))
    ensures e < |rows| && rows[g].time <= t ==>
              Step(rows, Pending(g), t) == (Pending(e), Reply(rows[g].time, Items(rows[g..e])))
  {
  }

  /** The backlog delivers the deliverable runs one for one: reply i is run i, whole, with its time. */
  lemma {:induction false} BacklogDeliversRuns<P>(rows: seq<Row<P>>, g: nat)
    ensures |BacklogFrom(rows, g)| == |RunsFrom(rows, g)|
    ensures forall i :: 0 <= i < |RunsFrom(rows, g)| ==> BacklogFrom(rows, g)[i] == Deliver(RunsFrom(rows, g)[i])
    decreases |rows| - g
  {
    if g < |rows| {
      var e := RunEnd(rows, g);
      if e < |rows| {
        BacklogDeliversRuns(rows, e);
        var b := BacklogFrom(rows, g);
        var runs := RunsFrom(rows, g);
        assert b == [Reply(rows[g].time, Items(rows[g..e]))] + BacklogFrom(rows, e);
        assert runs == [rows[g..e]] + RunsFrom(rows, e);
        forall i | 1 <= i < |runs|
          ensures b[i] == Deliver(runs[i])
        {
          assert b[i] == BacklogFrom(rows, e)[i - 1] && runs[i] == RunsFrom(rows, e)[i - 1];
        }
      }
    }
  }

  /** The deliverable runs, laid end to end, are exactly the rows before the final run. */
  lemma {:induction false} RunsPartitionRows<P>(rows: seq<Row<P>>, g: nat)
    requires g <= |rows|
    ensures Concat(RunsFrom(rows, g)) == rows[g..FinalStart(rows, g)]
    decreases |rows| - g
  {
    if g < |rows| {
      var e := RunEnd(rows, g);
      if e < |rows| {
        var runs := RunsFrom(rows, g);
        assert runs == [rows[g..e]] + RunsFrom(rows, e);
        assert runs[1..] == RunsFrom(rows, e);
        RunsPartitionRows(rows, e);
        assert rows[g..FinalStart(rows, g)] == rows[g..e] + rows[e..FinalStart(rows, e)];
      }
    }
  }

  /** The final run is non-empty, all of one time, and starts at a time change: it is the rows
      after the last time change, which no query ever delivers. */
  lemma {:induction false} FinalRunIsLastTimeChange<P>(rows: seq<Row<P>>, g: nat)
    requires g < |rows|
    ensures var f := FinalStart(rows, g);
            f < |rows| &&
            (forall k :: f <= k < |rows| ==> rows[k].time == rows[f].time) &&
            (f > g ==> rows[f - 1].time != rows[f].time)
    decreases |rows| - g
  {
    var e := RunEnd(rows, g);
    if e < |rows| {
      FinalRunIsLastTimeChange(rows, e);
      assert rows[e - 1].time == rows[g].time;
    }
  }

  /** No run is split across two groups: consecutive deliverable runs have different times, and
      the last one differs from the final, undelivered run. */
  lemma {:induction false} RunsAreMaximal<P>(rows: seq<Row<P>>, g: nat)
    requires g <= |rows|
    ensures var runs := RunsFrom(rows, g);
            (forall i :: 0 <= i < |runs| - 1 ==> runs[i][0].time != runs[i + 1][0].time) &&
            (runs != [] ==> runs[|runs| - 1][0].time != rows[FinalStart(rows, g)].time)
    decreases |rows| - g
  {
    if g < |rows| {
      var e := RunEnd(rows, g);
      if e < |rows| {
        var runs := RunsFrom(rows, g);
        var tail := RunsFrom(rows, e);
        assert runs == [rows[g..e]] + tail;
        RunsAreMaximal(rows, e);
        if tail == [] {
          assert FinalStart(rows, e) == e;
        } else {
          assert tail[0][0] == rows[e] by {
            var e2 := RunEnd(rows, e);
            assert tail == [rows[e..e2]] + RunsFrom(rows, e2);
          }
        }
      }
    }
  }

  /** On time-sorted rows each run has a strictly larger time than the ones before it, so each
      distinct time forms exactly one group. */
  lemma {:induction false} SortedRunsHaveDistinctTimes<P>(rows: seq<Row<P>>, g: nat)
    requires TimeSorted(rows) && g < |rows|
    ensures forall i, j :: 0 <= i < j < |RunsFrom(rows, g)| ==>
              RunsFrom(rows, g)[i][0].time < RunsFrom(rows, g)[j][0].time
    ensures forall i :: 0 <= i < |RunsFrom(rows, g)| ==>
              rows[g].time <= RunsFrom(rows, g)[i][0].time < rows[FinalStart(rows, g)].time
    decreases |rows| - g
  {
    var e := RunEnd(rows, g);
    if e < |rows| {
      var runs := RunsFrom(rows, g);
      var tail := RunsFrom(rows, e);
      assert runs == [rows[g..e]] + tail;
      var f := FinalStart(rows, g);
      assert f == FinalStart(rows, e);
      assert runs[0][0] == rows[g];
      assert rows[g].time < rows[e].time;
      assert rows[e].time <= rows[f].time;
      SortedRunsHaveDistinctTimes(rows, e);
      forall i | 1 <= i < |runs|
        ensures rows[e].time <= runs[i][0].time < rows[f].time
      {
        assert runs[i] == tail[i - 1];
        assert rows[e].time <= tail[i - 1][0].time < rows[FinalStart(rows, e)].time;
      }
      forall i, j | 0 <= i < j < |runs|
        ensures runs[i][0].time < runs[j][0].time
      {
        assert runs[j] == tail[j - 1];
        assert rows[e].time <= tail[j - 1][0].time;
        if i > 0 {
          assert runs[i] == tail[i - 1];
          assert tail[i - 1][0].time < tail[j - 1][0].time;
        }
      }
    }
  }
}
