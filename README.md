# pyannote-face timestamp replay, in Dafny

`scripts/pyannote-face.py` renders annotated previews. It reads face boxes and facial
landmarks that were computed earlier and written to text files with their own timestamps. It
lines them up with the video frames through two replay generators:

- `getFaceGenerator` replays the face file, sorted by time;
- `getLandmarkGenerator` replays the landmark file in file order.

Each generator is primed with `send(None)` and then answers every `send(t)`. Consecutive rows
that share one time form a group. The generator answers `(currentT, group)` once the query has
reached the group's time, and `(t, [])` otherwise.

The model has these parts:

- **`ReplaySpec`**: the replay protocol as pure functions.
  - `Step` is what one query answers.
  - `Run` is what a sequence of queries answers.
  - `RunsFrom` lists the groups that can still be delivered. `Backlog` is the replies that deliver them.
  - Lemmas about these state the delivery guarantees: one reply per query, in-order and
    at-most-once delivery, one group per query, and groups that are maximal runs of one time.
    They also cover the final group and exhaustion.
- **`ReplayGenerator`**: the generator itself, as the class `Replay<P>`.
  - The generator's locals (`faces`/`shapes`, `currentT`, the position of the `for` loop)
    become fields. The point where it is suspended becomes `phase`.
  - The constructor is the priming `send(None)`, and `Query(t)` is one `send(t)`.
  - `Query` is proved to answer and move exactly as `Step`. The driver loop `QueryAll` is
    proved to answer exactly as `Run`.
  - One class, generic in what a row carries, serves both generators.
- **`Denormalise`**: the per-row decoding.
  - Face coordinates are scaled by the frame size and truncated by `int()`.
  - `double` picks `dlib.drectangle` over `dlib.rectangle`.
  - Landmark rows are split by `pairwise`, scaled, and rounded half-to-even by `np.round`.
- **`Generators`**: the two generators built from these parts, with worked scenarios.
- **`Overlay`**: the palette colour of a track identifier, and the label file with label lookup.

Times and coordinates are `real`.

Two behaviours of the code are modelled as written, although a reader of the generator's
comments might expect otherwise:

- **The final group is never delivered.** When the `for` loop runs out of rows, the buffered
  group is dropped and the generator falls into `while True: yield t, []`
  (scripts/pyannote-face.py:148-149, 209-210).
  - A file whose rows all share one time therefore yields only empty replies.
  - `LoneGroupIsNeverDelivered` shows this on two faces at time 1.000.
- **A query releases at most one group.** Queries that run ahead of several due groups get
  them one per query, not all at the first query past their time.
  - `OneGroupPerQuery` shows a group that is already due but is delivered one query late.

## Model

| member | source | states |
|---|---|---|
| ReplaySpec.RunEnd | scripts/pyannote-face.py:123-127 | The run loaded from row g is non-empty and has one time. It ends at a row with another time, or at the end of the rows. |
| ReplaySpec.Step | scripts/pyannote-face.py:133-149 | An empty reply carries the query time. A non-empty reply carries the pending group's time, which the query has reached. A group whose time is ahead of the query is answered `(t, [])`. Exhaustion is terminal. |
| ReplaySpec.Run | scripts/pyannote-face.py:107-149 | Exactly one reply per query. |
| ReplaySpec.RunsFrom | scripts/pyannote-face.py:114-146 | Every deliverable group is non-empty and of a single time, so no group mixes two times. |
| ReplaySpec.FinalStart | scripts/pyannote-face.py:114-149 | A non-empty tail of rows has a final run starting inside it. |
| ReplaySpec.Delivered | scripts/pyannote-face.py:141 | The non-empty replies, in order; there are never more of them than replies. |
| ReplaySpec.StepConsumesBacklog | scripts/pyannote-face.py:133-146 | One query delivers the first group still to be delivered, or nothing, and the rest of the backlog is unchanged. |
| ReplaySpec.RepliesCarryQueryTime | scripts/pyannote-face.py:136-141 | For every query, an empty reply is `(t, [])`, and a non-empty reply's time is at or before t. |
| ReplaySpec.RunConsumesBacklog | scripts/pyannote-face.py:141-146 | The groups delivered by any query sequence are the head of the backlog in order. What remains is exactly the rest, so each group is delivered at most once. |
| ReplaySpec.DeliveredIsPrefixOfGroups | scripts/pyannote-face.py:114-146 | From the start of the rows, the delivered groups are a prefix of all deliverable groups: none skipped, none repeated, none reordered. |
| ReplaySpec.SilentOnceBacklogEmpty | scripts/pyannote-face.py:148-149 | Once nothing is left to deliver, every query is answered `(t, [])`. |
| ReplaySpec.ExhaustedForever | scripts/pyannote-face.py:148-149 | The exhausted generator stays exhausted and answers `(t, [])` to every query, however large t is. |
| ReplaySpec.EmptyFileIsSilent | scripts/pyannote-face.py:114-149 | An empty annotation file yields only `(t, [])` replies. |
| ReplaySpec.BacklogDrainsOnePerQuery | scripts/pyannote-face.py:133-146 | When every query is at or past every row time, query i gets the i-th group still to be delivered, and later queries get `(t, [])`: one group per query. |
| ReplaySpec.RunEndIsUnique | scripts/pyannote-face.py:123-127 | Rows of one time that end at a time change, or at the end of the rows, are exactly the run. |
| ReplaySpec.StepAt | scripts/pyannote-face.py:133-149 | From a group whose run end is known, a query either exhausts (no later time), waits with `(t, [])` (time ahead of t), or delivers the whole run with its time and moves to the next run. |
| ReplaySpec.BacklogDeliversRuns | scripts/pyannote-face.py:141-146 | The replies still to come are the deliverable runs one for one, each delivered whole with its own time. |
| ReplaySpec.RunsPartitionRows | scripts/pyannote-face.py:114-149 | The deliverable groups, laid end to end, are exactly the rows before the final run. No row is lost or duplicated. |
| ReplaySpec.FinalRunIsLastTimeChange | scripts/pyannote-face.py:114-149 | The undelivered final run is non-empty and of one time. It starts right after the last time change. |
| ReplaySpec.RunsAreMaximal | scripts/pyannote-face.py:123-127 | Consecutive groups have different times, and the last delivered one differs from the final run. A run of one time is never split. |
| ReplaySpec.SortedRunsHaveDistinctTimes | scripts/pyannote-face.py:104 | On time-sorted rows, group times strictly increase and all lie before the final run's time. |
| ReplayGenerator.Replay.constructor | scripts/pyannote-face.py:107-112 | Priming: nothing buffered, no current time, at the first row; the abstract cursor is the start of the rows. |
| ReplayGenerator.Replay.Collect | scripts/pyannote-face.py:114-127 | The `for` loop appends rows while their time equals `currentT`. It stops at the end of the rows or at the first row of another time. |
| ReplayGenerator.Replay.Release | scripts/pyannote-face.py:133-146 | The wait loop: while the group's time is ahead of t it answers `(t, [])` and holds the group. Otherwise it returns the group whole and restarts the buffer with the row that changed the time, exactly as `Step`. |
| ReplayGenerator.Replay.Query | scripts/pyannote-face.py:114-149 | One `send(t)` returns exactly `Step`'s reply, and the new state is `Step`'s cursor. |
| ReplayGenerator.Replay.QueryAll | scripts/pyannote-face.py:333-336 | Sending one query per frame yields exactly `Run`'s replies and cursor. |
| Denormalise.Trunc | scripts/pyannote-face.py:116-119 | `int()` drops the fractional part toward zero, for negative values too. |
| Denormalise.TruncIsUnique | scripts/pyannote-face.py:116-119 | Truncation toward zero has exactly one result. |
| Denormalise.RoundHalfEven | scripts/pyannote-face.py:180-181 | `np.round` gives an integer within one half of x, and the even one on a tie. |
| Denormalise.RoundHalfEvenIsUnique | scripts/pyannote-face.py:180-181 | Rounding half to even has exactly one result. |
| Denormalise.DecodeFace | scripts/pyannote-face.py:109-121 | Time, identifier and status are copied. left/right are truncations of x times the frame width and top/bottom of y times the frame height. `double` picks the sub-pixel rectangle. |
| Denormalise.DoubleChangesOnlyKind | scripts/pyannote-face.py:109-121 | With and without `double`, the box has the same integer coordinates; only the rectangle type differs. |
| Denormalise.FaceRows | scripts/pyannote-face.py:104-121 | The sorted records are decoded one for one, keeping their times and order. The decoded rows are in time order exactly when the records are, so the sort on the file carries over to the replayed rows. |
| Denormalise.Pairwise | scripts/pyannote-face.py:152-155 | A sequence of length n gives floor(n/2) pairs, pair k being `(s[2k], s[2k+1])`. An odd last element is dropped. |
| Denormalise.ToPixel | scripts/pyannote-face.py:180-181 | One landmark point: x scaled by the frame width and y by the frame height, each rounded to the nearest integer with ties to even. |
| Denormalise.ToPixels | scripts/pyannote-face.py:178-181 | Every landmark pair is scaled and rounded, in order, one point per pair. |
| Denormalise.DecodeShape | scripts/pyannote-face.py:174-181 | Fewer than two fields fails on the identifier, and fewer than four on the empty landmarks array; otherwise the row decodes. The time is field 0 and the identifier is `int()` of field 1. There are floor((d-2)/2) points, point k being `(round(row[2+2k]*W), round(row[3+2k]*H))`. |
| Denormalise.LandmarkRows | scripts/pyannote-face.py:174-181 | The file decodes exactly when every row has at least four fields, and then it decodes row for row in file order. |
| Generators.NewFaceGenerator | scripts/pyannote-face.py:95-112 | A primed face generator over the sorted records, decoded with the frame size and `double`. |
| Generators.NewLandmarkGenerator | scripts/pyannote-face.py:158-172 | A primed landmark generator over the rows in file order, or the decoding error when a row cannot be decoded. |
| Generators.FaceGroupsHaveDistinctTimes | scripts/pyannote-face.py:104-127 | The face file is sorted, so each distinct time is one group, and group times strictly increase. |
| Generators.LandmarkTimeReappearing | scripts/pyannote-face.py:174-207 | Landmark rows are not sorted: a time that reappears later in the file forms a separate group. |
| Generators.LoneGroupIsNeverDelivered | scripts/pyannote-face.py:114-149 | Two faces at 1.000 with no later row are the final group: the queries 0.9, 1.0 and 1.2 all get `(t, [])`. |
| Generators.PairDeliveredOnce | scripts/pyannote-face.py:114-149 | Two faces at 1.000 followed by a later row give `(0.9, [])`, then both boxes in pixels at 1.0, then `(1.2, [])`. |
| Generators.OneGroupPerQuery | scripts/pyannote-face.py:133-146 | Two groups due at the same query are delivered on two successive queries. |
| Overlay.ColourIndex | scripts/pyannote-face.py:344 | Every identifier, negative ones included, picks a palette entry congruent to it modulo 26. |
| Overlay.SameColourIff | scripts/pyannote-face.py:344 | Two identifiers share a colour exactly when they differ by a multiple of 26. |
| Overlay.LoadLabels | scripts/pyannote-face.py:383-389 | After loading, the label of every identifier is the one on its last line, or `''` when no line names it. The keys are exactly the identifiers that appear. |
| Overlay.LabelOf | scripts/pyannote-face.py:357 | The label drawn for an identifier is the stored one, or the empty label when the dictionary does not hold the identifier. |
| Overlay.LastLineWins | scripts/pyannote-face.py:386-389 | A later line for an identifier overrides an earlier one. |

## Left out

- `track` (scripts/pyannote-face.py:213-242): detection and tracking are calls into the external
  face tracker, and the function only writes their results as formatted lines.
- `landmark` and `features` (scripts/pyannote-face.py:244-305): the landmark predictor and the
  embedding network are external models, and the lines they write are formatting. Both functions
  also drive a replay generator with one `send(timestamp)` per video frame (lines 261 and 292);
  `QueryAll` stands in for that per-frame loop.
- All cv2 drawing, the moviepy clip handling, the ffmpeg encoding, docopt argument parsing,
  `Video` frame iteration and file opening and flushing: rendering and I/O. `QueryAll` stands in
  for the per-frame calls.
- `timestamp - shift` in the overlay: a subtraction on the query before it is sent; queries are
  given directly.
- The overlay's pairing of the i-th face with the i-th landmark set (`landmarks[i]`) and its nose
  line: rendering only.
- `read_table` parsing: the face file is given as records and the landmark file as rows of
  numbers. NaN filling of short rows is not modelled; a row's field count stands for the number
  of columns.
- `sort_values('t')`: pandas' sort is a library call and is not stable. The face generator takes
  the sorted records as a parameter, required to be a time-sorted permutation of the file's
  records, with the order within one time left open.
- NewLandmarkGenerator: decoding errors are reported when the generator is created. The Python generator
  raises them lazily, at the query that reaches the bad row.
- `n_points` (scripts/pyannote-face.py:166) is computed and never used, so it has no counterpart.
  A landmark row with an odd number of coordinates silently loses its last one, as `Pairwise` shows.
- float32 storage of coordinates, float64 times, and the `%.3f`/`%.5f` output formatting:
  coordinates and times are exact reals. Because of float32 and the three-decimal output, a box
  written as fractions of the frame need not decode back to the same pixels, so the model claims
  no such round trip.
- Overlay.LoadLabels: takes each line already split into an integer identifier and a label.
  Splitting the text and `int()` parsing failures are not modelled.
