/** The small pieces of the demo overlay that are plain logic: which palette colour an
    identifier gets, and which label a track identifier shows. */
module Overlay {

  /** The 26 RGB colours of the demo, indexed by track identifier. */
  const Palette: seq<(int, int, int)> := [
    (240, 163, 255), (0, 117, 220), (153, 63, 0), (76, 0, 92),
    (25, 25, 25), (0, 92, 49), (43, 206, 72), (255, 204, 153),
    (128, 128, 128), (148, 255, 181), (143, 124, 0), (157, 204, 0),
    (194, 0, 136), (0, 51, 128), (255, 164, 5), (255, 168, 187),
    (66, 102, 0), (255, 0, 16), (94, 241, 242), (0, 153, 143),
    (224, 255, 102), (116, 10, 255), (153, 0, 0), (255, 255, 128),
    (255, 255, 0), (255, 80, 5)
  ]

  /** `identifier % len(COLORS)`: Python's `%` with a positive divisor is never negative, like
      Dafny's, so every identifier, negative ones included, picks a palette entry. */
  function ColourIndex(identifier: int): (k: nat)
    ensures k < |Palette| && (identifier - k) % |Palette| == 0
  {
    identifier % |Palette|
  }

  /** Two identifiers share a colour exactly when they differ by a multiple of 26. */
  lemma SameColourIff(a: int, b: int)
    ensures ColourIndex(a) == ColourIndex(b) <==> (a - b) % |Palette| == 0
  {
  }

  /** The label of `identifier` after reading the label lines in order: the label of its last
      line, or `''` when no line names it. */
  function LastLabel(lines: seq<(int, string)>, identifier: int): string
  {
    if lines == [] then ""
    else if lines[|lines| - 1].0 == identifier then lines[|lines| - 1].1
    else LastLabel(lines[..|lines| - 1], identifier)
  }

  /** `labels.get(identifier, '')`: the stored label, or the empty label for an identifier the
      dictionary does not hold. */
  function LabelOf(labels: map<int, string>, identifier: int): (shown: string)
    ensures identifier in labels ==> shown == labels[identifier]
    ensures identifier !in labels ==> shown == ""
  {
    if identifier in labels then labels[identifier] else ""
  }

  /** Reading the label file: each `identifier label` line sets the entry, so a later line for
      the same identifier overrides an earlier one, and an identifier with no line shows `''`. */
  method LoadLabels(lines: seq<(int, string)>) returns (labels: map<int, string>)
    ensures forall identifier :: LabelOf(labels, identifier) == LastLabel(lines, identifier)
    ensures forall identifier :: identifier in labels <==> exists i :: 0 <= i < |lines| && lines[i].0 == identifier
  {
    labels := map[];
    var i := 0;
    while i < |lines|
      invariant 0 <= i <= |lines|
      invariant forall identifier :: LabelOf(labels, identifier) == LastLabel(lines[..i], identifier)
      invariant forall identifier :: identifier in labels <==> exists j :: 0 <= j < i && lines[j].0 == identifier
    {
      var identifier, text := lines[i].0, lines[i].1;
      assert lines[..i + 1][..i] == lines[..i];
      labels := labels[identifier := text];
      i := i + 1;
    }
    assert lines[..i] == lines;
  }

  /** The label shown for an identifier is the one on its last line in the file. */
  lemma {:induction false} LastLineWins(lines: seq<(int, string)>, i: nat)
    requires i < |lines|
    requires forall j :: i < j < |lines| ==> lines[j].0 != lines[i].0
    ensures LastLabel(lines, lines[i].0) == lines[i].1
  {
    if i < |lines| - 1 {
      var front := lines[..|lines| - 1];
      assert front[i] == lines[i];
      LastLineWins(front, i);
    }
  }
}
