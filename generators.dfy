/** The two generators of the script built from the generic replay class: face boxes replayed
    from the time-sorted face file, landmark sets replayed from the landmark file in file order. */
module Generators {
  import opened Records
  import opened ReplaySpec
  import opened ReplayGenerator
  import opened Denormalise

  /** `getFaceGenerator` after `send(None)`.  `sorted` is the face file as `sort_values('t')`
      returns it: the same records, in non-decreasing time, in an order among equal times that
      the sort does not fix. */
  method NewFaceGenerator(ghost records: seq<FaceRecord>, sorted: seq<FaceRecord>,
                          width: nat, height: nat, double: bool) returns (g: Replay<Face>)
    requires multiset(sorted) == multiset(records) && RecordsSorted(sorted)
    ensures fresh(g) && g.Valid() && g.Cursor() == Pending(0)
    ensures g.rows == FaceRows(sorted, width, height, double)
  {
    g := new Replay(FaceRows(sorted, width, height, double));
  }

  /** `getLandmarkGenerator` after `send(None)`: the rows in file order, or the decoding error. */
  method NewLandmarkGenerator(table: seq<seq<real>>, width: nat, height: nat)
    returns (g: Result<Replay<Shape>, DecodeError>)
    ensures g.Ok? <==> LandmarkRows(table, width, height).Ok?
    ensures g.Err? ==> g.error == LandmarkRows(table, width, height).error
    ensures g.Ok? ==> fresh(g.value) && g.value.Valid() && g.value.Cursor() == Pending(0)
    ensures g.Ok? ==> g.value.rows == LandmarkRows(table, width, height).value
  {
    match LandmarkRows(table, width, height)
    case Err(e) =>
      g := Err(e);
    case Ok(rows) =>
      var replay := new Replay(rows);
      g := Ok(replay);
  }

  /** Face rows are replayed sorted, so each distinct time forms exactly one group: the
      delivered groups have strictly increasing times, all before the final group's time. */
  lemma FaceGroupsHaveDistinctTimes(sorted: seq<FaceRecord>, width: nat, height: nat, double: bool)
    requires RecordsSorted(sorted) && sorted != []
    ensures var rows := FaceRows(sorted, width, height, double);
            forall i, j :: 0 <= i < j < |RunsFrom(rows, 0)| ==>
              RunsFrom(rows, 0)[i][0].time < RunsFrom(rows, 0)[j][0].time
    ensures var rows := FaceRows(sorted, width, height, double);
            forall i :: 0 <= i < |RunsFrom(rows, 0)| ==>
              RunsFrom(rows, 0)[i][0].time < rows[FinalStart(rows, 0)].time
  {
    SortedRunsHaveDistinctTimes(FaceRows(sorted, width, height, double), 0);
  }

  /** Landmark rows are not sorted: a time that comes back later in the file forms a group of
      its own, so two replies can carry the same time. */
  lemma LandmarkTimeReappearing<P>(a: P, b: P, c: P, d: P)
    ensures var rows := [Row(1.0, a), Row(2.0, b), Row(1.0, c), Row(3.0, d)];
            RunsFrom(rows, 0) == [[rows[0]], [rows[1]], [rows[2]]] &&
            Backlog(rows, Pending(0)) == [Reply(1.0, [a]), Reply(2.0, [b]), Reply(1.0, [c])]
  {
    var rows := [Row(1.0, a), Row(2.0, b), Row(1.0, c), Row(3.0, d)];
    assert RunEnd(rows, 3) == 4 && RunEnd(rows, 2) == 3 && RunEnd(rows, 1) == 2 && RunEnd(rows, 0) == 1;
    assert rows[0..1] == [rows[0]] && rows[1..2] == [rows[1]] && rows[2..3] == [rows[2]];
    assert RunsFrom(rows, 3) == [];
    assert RunsFrom(rows, 2) == [[rows[2]]];
    assert RunsFrom(rows, 1) == [[rows[1]], [rows[2]]];
    assert Items([rows[1]]) == [b] && Items([rows[0]]) == [a] && Items([rows[2]]) == [c];
    assert BacklogFrom(rows, 3) == [];
    assert BacklogFrom(rows, 2) == [Reply(1.0, [c])];
    assert BacklogFrom(rows, 1) == [Reply(2.0, [b]), Reply(1.0, [c])];
  }

  /** Two faces at 1.000 and nothing after them, frame 100x100: they form the final group, so
      the queries 0.9, 1.0 and 1.2 are all answered with nothing. */
  lemma LoneGroupIsNeverDelivered()
    ensures var rows := FaceRows([FaceRecord(1.0, 0, 0.1, 0.1, 0.3, 0.3, "ok"),
                                  FaceRecord(1.0, 1, 0.5, 0.5, 0.7, 0.7, "ok")], 100, 100, false);
            Run(rows, Pending(0), [0.9, 1.0, 1.2]).1 == [Reply(0.9, []), Reply(1.0, []), Reply(1.2, [])]
  {
  }

  /** The same two faces followed by a later row: the query 0.9 gets nothing, the query 1.0
      gets both boxes in pixels, and the query 1.2 gets nothing again. */
  lemma PairDeliveredOnce()
    ensures var rows := FaceRows([FaceRecord(1.0, 0, 0.1, 0.1, 0.3, 0.3, "ok"),
                                  FaceRecord(1.0, 1, 0.5, 0.5, 0.7, 0.7, "ok"),
                                  FaceRecord(2.0, 0, 0.1, 0.1, 0.3, 0.3, "ok")], 100, 100, false);
            Run(rows, Pending(0), [0.9, 1.0, 1.2]).1 ==
              [Reply(0.9, []),
               Reply(1.0, [Face(0, Rect(Pixel, 10, 10, 30, 30), "ok"), Face(1, Rect(Pixel, 50, 50, 70, 70), "ok")]),
               Reply(1.2, [])]
  {
    var records := [FaceRecord(1.0, 0, 0.1, 0.1, 0.3, 0.3, "ok"),
                    FaceRecord(1.0, 1, 0.5, 0.5, 0.7, 0.7, "ok"),
                    FaceRecord(2.0, 0, 0.1, 0.1, 0.3, 0.3, "ok")];
    var rows := FaceRows(records, 100, 100, false);
    var f0 := Face(0, Rect(Pixel, 10, 10, 30, 30), "ok");
    var f1 := Face(1, Rect(Pixel, 50, 50, 70, 70), "ok");
    assert rows[0].item == f0 by {
      TruncIsUnique(10, 0.1 * 100.0);
      TruncIsUnique(30, 0.3 * 100.0);
    }
    assert rows[1].item == f1 by {
      TruncIsUnique(50, 0.5 * 100.0);
      TruncIsUnique(70, 0.7 * 100.0);
    }
    assert RunEnd(rows, 1) == 2 && RunEnd(rows, 0) == 2;
    assert RunEnd(rows, 2) == 3;
    assert Items(rows[0..2]) == [f0, f1];
    var c1 := Step(rows, Pending(0), 0.9).0;
    assert c1 == Pending(0);
    var c2 := Step(rows, c1, 1.0).0;
    assert c2 == Pending(2);
    assert Step(rows, c2, 1.2) == (Exhausted, Reply(1.2, []));
    RunUnfold(rows, Pending(0), [0.9, 1.0, 1.2]);
    RunUnfold(rows, c1, [1.0, 1.2]);
    RunUnfold(rows, c2, [1.2]);
  }

  /** Queries that run ahead drain the backlog one group per query: at the query 2.0 both the
      group at 1.0 and the group at 1.1 are due, but only the first is released, and the second
      follows with the next query. */
  lemma OneGroupPerQuery<P>(a: P, b: P, c: P)
    ensures var rows := [Row(1.0, a), Row(1.1, b), Row(2.0, c)];
            Run(rows, Pending(0), [0.5, 2.0, 2.0]).1 == [Reply(0.5, []), Reply(1.0, [a]), Reply(1.1, [b])]
  {
    var rows := [Row(1.0, a), Row(1.1, b), Row(2.0, c)];
    assert RunEnd(rows, 0) == 1 && RunEnd(rows, 1) == 2;
    assert Items(rows[0..1]) == [a] && Items(rows[1..2]) == [b];
    RunUnfold(rows, Pending(0), [0.5, 2.0, 2.0]);
    RunUnfold(rows, Pending(0), [2.0, 2.0]);
    RunUnfold(rows, Pending(1), [2.0]);
  }
}
