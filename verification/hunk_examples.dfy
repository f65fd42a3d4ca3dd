/**
  Six small files on which `_apply_hunk_to_lines` does something a reader of the patch would
  not expect, each worked out against the model. The start of the replaced region is always
  `anchor - |context before| + 1`, which treats the anchor as the LAST line of the context
  before, whereas the header names the first one and the context search returns the first.
 */
module HunkExamples {
  import opened Lines
  import opened PatchFormat
  import opened HunkApply

  /** A hunk whose first line is a change: the region starts just after the header line, so the
      old line is kept and the new one is inserted below it. (The text of each hunk line keeps
      the space that follows its '-' or '+'.) */
  lemma NoLeadingContextInsertsBelowHeader(lines: seq<string>, h: Hunk)
    requires lines == ["o"]
    requires h == Hunk("o", [HunkLine(Removed, " o"),
                                            HunkLine(Added, " n")], 0)
    ensures ApplyHunk(lines, h) == Some(["o", " n"])
  {
    assert HeaderLocation(lines, h.header) == Some(0);
    var hls := h.lines;
    assert FirstChange(hls, 0) == 0;
    assert Texts(hls, Removed, 0, 1) == [" o"];
    assert Texts(hls, Removed, 0, 2) == [" o"];
    assert Texts(hls, Added, 0, 1) == [];
    assert Texts(hls, Added, 0, 2) == [" n"];
    assert Texts(hls, Context, 0, 1) == [];
    assert Texts(hls, Context, 0, 2) == [];
    var p := Parts([], [" o"], [" n"], []);
    assert Partition(hls) == p;
    assert Anchor(lines, h) == Some(0);
    assert StartIndex(0, 0) == 1;
    assert ApplyHunk(lines, h) == Some(Splice(lines, 1, p));
    SpliceKeepsAnchor(lines, p);
  }

  /** The same start in a longer file: the region is the line below the header, so the removed
      line "o" survives and "p", which the hunk never names, is replaced by the added line. */
  lemma NoLeadingContextReplacesLineBelow(lines: seq<string>, h: Hunk)
    requires lines == ["o", "p", "q"]
    requires h == Hunk("o", [HunkLine(Removed, "o"), HunkLine(Added, "n")], 0)
    ensures ApplyHunk(lines, h) == Some(["o", "n", "q"])
  {
    OneCharLine(lines[0]);
    assert HeaderLocation(lines, h.header) == Some(0);
    var p := Parts([], ["o"], ["n"], []);
    PartitionOfReplacement(h.lines);
    assert Anchor(lines, h) == Some(0);
    assert StartIndex(0, 0) == 1;
    assert ApplyHunk(lines, h) == Some(Splice(lines, 1, p));
    SpliceBelowHeader(lines, p);
  }

  /** The header matches the first context line, but the start formula counts back from it as
      if it were the last: the line above the header is dropped and the removed line survives
      below the added one. */
  lemma HeaderTakenAsLastContextLine(lines: seq<string>, h: Hunk)
    requires lines == ["h", "a", "b", "c"]
    requires h == Hunk("a", [HunkLine(Context, "a"), HunkLine(Context, "b"),
                             HunkLine(Removed, "c"), HunkLine(Added, "d")], 0)
    ensures ApplyHunk(lines, h) == Some(["a", "b", "d", "c"])
  {
    OneCharLine(lines[0]);
    OneCharLine(lines[1]);
    assert Strip(lines[0]) != Strip(h.header);
    assert FirstStripEqual(lines, h.header, 1) == Some(1);
    assert HeaderLocation(lines, h.header) == Some(1);
    var p := Parts(["a", "b"], ["c"], ["d"], []);
    assert Anchor(lines, h) == Some(1);
    PartitionOfExample(h.lines);
    assert StartIndex(1, 2) == 0;
    assert ApplyHunk(lines, h) == Some(Splice(lines, 0, p));
    SpliceFromTop(lines, p);
  }

  /** The same start with context after the change: the region again starts one line above
      the header and so ends one line short of the context after. "h" is lost, the removed
      line "c" is replaced, and the context line "d" is written once by the hunk and kept once
      from the file. */
  lemma ContextAfterWrittenTwice(lines: seq<string>, h: Hunk)
    requires lines == ["h", "a", "b", "c", "d"]
    requires h == Hunk("a", [HunkLine(Context, "a"), HunkLine(Context, "b"), HunkLine(Removed, "c"),
                             HunkLine(Added, "n"), HunkLine(Context, "d")], 0)
    ensures ApplyHunk(lines, h) == Some(["a", "b", "n", "d", "d"])
  {
    OneCharLine(lines[0]);
    OneCharLine(lines[1]);
    assert Strip(lines[0]) != Strip(h.header);
    assert FirstStripEqual(lines, h.header, 1) == Some(1);
    assert HeaderLocation(lines, h.header) == Some(1);
    var p := Parts(["a", "b"], ["c"], ["n"], ["d"]);
    assert Anchor(lines, h) == Some(1);
    PartitionWithContextAfter(h.lines);
    assert StartIndex(1, 2) == 0;
    assert ApplyHunk(lines, h) == Some(Splice(lines, 0, p));
    SpliceKeepsLast(lines, p);
  }

  /** A pure insertion after two context lines: the region is the line above the header and
      the header itself, so "h" is lost and the context line "b", which the region leaves out,
      is written once by the hunk and kept once from the file. */
  lemma InsertionWritesContextTwice(lines: seq<string>, h: Hunk)
    requires lines == ["h", "a", "b", "z"]
    requires h == Hunk("a", [HunkLine(Context, "a"), HunkLine(Context, "b"),
                             HunkLine(Added, "n")], 0)
    ensures ApplyHunk(lines, h) == Some(["a", "b", "n", "b", "z"])
  {
    OneCharLine(lines[0]);
    OneCharLine(lines[1]);
    assert Strip(lines[0]) != Strip(h.header);
    assert FirstStripEqual(lines, h.header, 1) == Some(1);
    assert HeaderLocation(lines, h.header) == Some(1);
    var p := Parts(["a", "b"], [], ["n"], []);
    assert Anchor(lines, h) == Some(1);
    PartitionOfInsertion(h.lines);
    assert StartIndex(1, 2) == 0;
    assert ApplyHunk(lines, h) == Some(Splice(lines, 0, p));
    SpliceKeepsContext(lines, p);
  }

  /** No line equals the (empty) header, so the context run "a", "b", "c" is searched for and
      found at index 2; the same offset is then applied to that index, so the region starts one
      line too early: "y" is lost and the removed line "c" survives. */
  lemma FallbackAnchorStartsEarly(lines: seq<string>, h: Hunk)
    requires lines == ["x", "y", "a", "b", "c"]
    requires h == Hunk("", [HunkLine(Context, "a"), HunkLine(Context, "b"),
                            HunkLine(Removed, "c"), HunkLine(Added, "d")], 0)
    ensures ApplyHunk(lines, h) == Some(["x", "a", "b", "d", "c"])
  {
    AnchorAtContextRun(lines, h);
    var p := Parts(["a", "b"], ["c"], ["d"], []);
    PartitionOfExample(h.lines);
    assert StartIndex(2, 2) == 1;
    assert ApplyHunk(lines, h) == Some(Splice(lines, 1, p));
    SpliceDropsSecond(lines, p);
  }

  /** The anchor of the third example: the header matches no line, the context run matches at
      index 2. */
  lemma AnchorAtContextRun(lines: seq<string>, h: Hunk)
    requires lines == ["x", "y", "a", "b", "c"]
    requires h == Hunk("", [HunkLine(Context, "a"), HunkLine(Context, "b"),
                            HunkLine(Removed, "c"), HunkLine(Added, "d")], 0)
    ensures Anchor(lines, h) == Some(2)
  {
    NoLineIsBlank(lines, h.header);
    var ctx := ContextRunOfExample(h.lines);
    RunMatchesAtTwo(lines, ctx);
    assert ContextLocation(lines, h.lines) == Some(2);
    assert Anchor(lines, h) == Some(2);
  }

  /** No line of the third example strips to the empty header. */
  lemma NoLineIsBlank(lines: seq<string>, header: string)
    requires lines == ["x", "y", "a", "b", "c"] && header == ""
    ensures HeaderLocation(lines, header) == None
  {
    forall p | 0 <= p < |lines|
      ensures Strip(lines[p]) == lines[p]
    {
      OneCharLine(lines[p]);
    }
    assert Strip(header) == [];
    FirstStripEqualSpec(lines, header, 0);
  }

  /** The context run of the third example first matches at index 2. */
  lemma RunMatchesAtTwo(lines: seq<string>, ctx: seq<string>)
    requires lines == ["x", "y", "a", "b", "c"] && ctx == ["a", "b", "c"]
    ensures FirstMatch(lines, ctx, 0) == Some(2)
  {
    forall p | 0 <= p < |lines|
      ensures Strip(lines[p]) == lines[p]
    {
      OneCharLine(lines[p]);
    }
    OneCharLine(ctx[0]);
    assert Strip(lines[0 + 0]) != Strip(ctx[0]);
    assert Strip(lines[1 + 0]) != Strip(ctx[0]);
    assert forall j :: 0 <= j < |ctx| ==> lines[2 + j] == ctx[j];
    assert FirstMatch(lines, ctx, 2) == Some(2);
    assert FirstMatch(lines, ctx, 1) == Some(2);
  }

  /** The splice of the first example. */
  lemma SpliceKeepsAnchor(lines: seq<string>, p: Parts)
    requires lines == ["o"] && p == Parts([], [" o"], [" n"], [])
    ensures Splice(lines, 1, p) == ["o", " n"]
  {
    assert Tail(lines, 2) == [];
    assert lines[..1] == ["o"];
  }

  /** The splice of the second example. */
  lemma SpliceFromTop(lines: seq<string>, p: Parts)
    requires lines == ["h", "a", "b", "c"] && p == Parts(["a", "b"], ["c"], ["d"], [])
    ensures Splice(lines, 0, p) == ["a", "b", "d", "c"]
  {
    assert Tail(lines, 3) == ["c"];
    assert lines[..0] == [];
  }

  /** The splice of the third example. */
  lemma SpliceDropsSecond(lines: seq<string>, p: Parts)
    requires lines == ["x", "y", "a", "b", "c"] && p == Parts(["a", "b"], ["c"], ["d"], [])
    ensures Splice(lines, 1, p) == ["x", "a", "b", "d", "c"]
  {
    assert Tail(lines, 4) == ["c"];
    assert lines[..1] == ["x"];
  }

  /** The splice of the context-after example. */
  lemma SpliceKeepsLast(lines: seq<string>, p: Parts)
    requires lines == ["h", "a", "b", "c", "d"] && p == Parts(["a", "b"], ["c"], ["n"], ["d"])
    ensures Splice(lines, 0, p) == ["a", "b", "n", "d", "d"]
  {
    assert Tail(lines, 4) == ["d"];
    assert lines[..0] == [];
  }

  /** The splice of the insertion example. */
  lemma SpliceKeepsContext(lines: seq<string>, p: Parts)
    requires lines == ["h", "a", "b", "z"] && p == Parts(["a", "b"], [], ["n"], [])
    ensures Splice(lines, 0, p) == ["a", "b", "n", "b", "z"]
  {
    assert Tail(lines, 2) == ["b", "z"];
    assert lines[..0] == [];
  }

  /** The splice of the example with no context before and a longer file. */
  lemma SpliceBelowHeader(lines: seq<string>, p: Parts)
    requires lines == ["o", "p", "q"] && p == Parts([], ["o"], ["n"], [])
    ensures Splice(lines, 1, p) == ["o", "n", "q"]
  {
    assert Tail(lines, 2) == ["q"];
    assert lines[..1] == ["o"];
    assert ["o"] + [] + ["n"] + [] + ["q"] == ["o", "n", "q"];
  }

  /** A line of one lower-case letter is its own strip. */
  lemma OneCharLine(line: string)
    requires |line| == 1 && 'a' <= line[0] <= 'z'
    ensures Strip(line) == line && line != []
  {
    PrintableNotSpace(line[0]);
    StripUnpadded(line);
  }

  /** The context run of the hunk the last example uses. */
  lemma ContextRunOfExample(hls: seq<HunkLine>) returns (ctx: seq<string>)
    requires hls == [HunkLine(Context, "a"), HunkLine(Context, "b"),
                     HunkLine(Removed, "c"), HunkLine(Added, "d")]
    ensures ctx == ContextRun(hls) == ["a", "b", "c"]
  {
    assert RunEnd(hls, 3) == 3;
    assert RunEnd(hls, 2) == 3;
    assert RunEnd(hls, 1) == 3;
    assert RunEnd(hls, 0) == 3;
    ContextRunSpec(hls);
    ctx := ContextRun(hls);
    assert ctx == ["a", "b", "c"];
  }

  /** The partition of the hunk the last two examples use. */
  lemma PartitionOfExample(hls: seq<HunkLine>)
    requires hls == [HunkLine(Context, "a"), HunkLine(Context, "b"),
                     HunkLine(Removed, "c"), HunkLine(Added, "d")]
    ensures Partition(hls) == Parts(["a", "b"], ["c"], ["d"], [])
  {
    assert FirstChange(hls, 2) == 2;
    assert FirstChange(hls, 0) == 2;
    assert Texts(hls, Context, 0, 1) == ["a"];
    assert Texts(hls, Context, 0, 2) == ["a", "b"];
    assert Texts(hls, Removed, 0, 2) == [];
    assert Texts(hls, Removed, 0, 4) == ["c"];
    assert Texts(hls, Added, 0, 3) == [];
    assert Texts(hls, Added, 0, 4) == ["d"];
    assert Texts(hls, Context, 2, 3) == [];
    assert Texts(hls, Context, 2, 4) == [];
  }

  /** The partition of the hunk with context after. */
  lemma PartitionWithContextAfter(hls: seq<HunkLine>)
    requires hls == [HunkLine(Context, "a"), HunkLine(Context, "b"), HunkLine(Removed, "c"),
                     HunkLine(Added, "n"), HunkLine(Context, "d")]
    ensures Partition(hls) == Parts(["a", "b"], ["c"], ["n"], ["d"])
  {
    assert FirstChange(hls, 2) == 2;
    assert FirstChange(hls, 0) == 2;
    assert Texts(hls, Context, 0, 1) == ["a"];
    assert Texts(hls, Context, 0, 2) == ["a", "b"];
    assert Texts(hls, Removed, 0, 2) == [];
    assert Texts(hls, Removed, 0, 5) == ["c"];
    assert Texts(hls, Added, 0, 3) == [];
    assert Texts(hls, Added, 0, 5) == ["n"];
    assert Texts(hls, Context, 2, 4) == [];
    assert Texts(hls, Context, 2, 5) == ["d"];
  }

  /** The partition of the insertion hunk. */
  lemma PartitionOfInsertion(hls: seq<HunkLine>)
    requires hls == [HunkLine(Context, "a"), HunkLine(Context, "b"), HunkLine(Added, "n")]
    ensures Partition(hls) == Parts(["a", "b"], [], ["n"], [])
  {
    assert FirstChange(hls, 2) == 2;
    assert FirstChange(hls, 0) == 2;
    assert Texts(hls, Context, 0, 1) == ["a"];
    assert Texts(hls, Context, 0, 2) == ["a", "b"];
    assert Texts(hls, Removed, 0, 2) == [];
    assert Texts(hls, Removed, 0, 3) == [];
    assert Texts(hls, Added, 0, 2) == [];
    assert Texts(hls, Added, 0, 3) == ["n"];
    assert Texts(hls, Context, 2, 3) == [];
  }

  /** The partition of a hunk that removes one line and adds one. */
  lemma PartitionOfReplacement(hls: seq<HunkLine>)
    requires hls == [HunkLine(Removed, "o"), HunkLine(Added, "n")]
    ensures Partition(hls) == Parts([], ["o"], ["n"], [])
  {
    assert FirstChange(hls, 0) == 0;
    assert Texts(hls, Removed, 0, 1) == ["o"];
    assert Texts(hls, Removed, 0, 2) == ["o"];
    assert Texts(hls, Added, 0, 1) == [];
    assert Texts(hls, Added, 0, 2) == ["n"];
    assert Texts(hls, Context, 0, 1) == [];
    assert Texts(hls, Context, 0, 2) == [];
  }
}
