/**
  What the patch grammar of module PatchFormat promises: which texts have no blocks, what
  decides a block's action and path, what an Add block keeps, that hunks and blocks come out
  in document order, and exactly when the Update scan never terminates.
 */
module PatchFacts {
  import opened Lines
  import opened PatchFormat

  /** A text made of whitespace only strips to nothing. */
  lemma {:induction false} AllSpaceStripsEmpty(s: string)
    requires forall k :: 0 <= k < |s| ==> IsSpace(s[k])
    ensures TrimStart(s) == [] && Strip(s) == []
  {
    if s != [] {
      assert IsSpace(s[0]);
      AllSpaceStripsEmpty(s[1..]);
    }
  }

  /** Blank or whitespace-only patch text has no blocks. */
  lemma BlankPatchHasNoBlocks(text: string)
    requires forall k :: 0 <= k < |text| ==> IsSpace(text[k])
    ensures PatchOf(text) == Done([])
  {
    AllSpaceStripsEmpty(text);
  }

  /** Without a begin marker from line `i` on, the scan finds no blocks. */
  lemma {:induction false} NoBeginNoBlocks(lines: seq<string>, i: nat)
    requires i <= |lines| + 1
    requires forall k :: i <= k < |lines| ==> !IsBegin(lines[k])
    ensures BlocksFrom(lines, i) == Done([])
    decreases |lines| + 1 - i
  {
    if i < |lines| {
      NoBeginNoBlocks(lines, i + 1);
    }
  }

  /** A text none of whose lines strips to the begin marker has no blocks, whatever else it
      holds (an Update body without the wrapper, say). */
  lemma PatchWithoutBeginHasNoBlocks(text: string)
    requires forall k :: 0 <= k < |Split(text)| ==> !IsBegin(Split(text)[k])
    ensures PatchOf(text) == Done([])
  {
    NoBeginNoBlocks(Split(text), 0);
  }

  /** The marker that announces each action. */
  function MarkerOf(a: Action): (m: string)
    ensures |m| > 4 && m[..4] == "*** "
  {
    match a
    case Update => UPDATE_FILE
    case Add => ADD_FILE
    case Delete => DELETE_FILE
  }

  /** The three action markers differ in their fifth character, so a line starts with at most
      one of them and the order in which the parser tries them does not matter. */
  lemma MarkersExclusive(t: string, a: Action, b: Action)
    requires StartsWith(t, MarkerOf(a)) && StartsWith(t, MarkerOf(b))
    ensures a == b
  {
    assert t[4] == MarkerOf(a)[4] == MarkerOf(b)[4];
  }

  /** A line announces action `a` exactly when its stripped text starts with that action's
      marker, and the path is then the stripped text after the marker. */
  lemma ActionOfHeader(line: string, a: Action)
    ensures ActionOf(line).Some? && ActionOf(line).value.action == a
        <==> StartsWith(Strip(line), MarkerOf(a))
    ensures StartsWith(Strip(line), MarkerOf(a)) ==>
              ActionOf(line).value.path == Strip(Strip(line)[|MarkerOf(a)|..])
  {
    var t := Strip(line);
    if StartsWith(t, MarkerOf(a)) {
      if StartsWith(t, UPDATE_FILE) {
        MarkersExclusive(t, a, Update);
      } else if StartsWith(t, ADD_FILE) {
        MarkersExclusive(t, a, Add);
      } else {
        MarkersExclusive(t, a, Delete);
      }
    }
  }

  /** A segment after a begin marker yields no block exactly when an end marker or the end of
      input comes before any action header. Otherwise the block (unless its Update body never
      ends) carries the action and the path of the first header. */
  lemma BlockAtShape(lines: seq<string>, start: nat)
    requires start <= |lines|
    ensures var j := ActionScan(lines, start);
      && (forall k :: start <= k < j ==> ActionOf(lines[k]).None? && !IsEnd(lines[k]))
      && (BlockAt(lines, start) == Done(None) <==> j == |lines| || ActionOf(lines[j]).None?)
      && (BlockAt(lines, start).Done? && BlockAt(lines, start).value.Some? ==>
            var b := BlockAt(lines, start).value.value;
            j < |lines| && ActionOf(lines[j]) == Some(Header(b.action, b.filePath)))
  {
    ActionScanSpec(lines, start);
  }

  /** The content of an Add body splits where the body does. */
  lemma {:induction false} AddLinesConcat(lines: seq<string>, i: nat, m: nat, e: nat)
    requires i <= m <= e <= |lines|
    ensures AddLines(lines, i, e) == AddLines(lines, i, m) + AddLines(lines, m, e)
    decreases m - i
  {
    if i < m {
      AddLinesConcat(lines, i + 1, m, e);
    }
  }

  /** Add content holds exactly the '+' lines of the body, each without its first character:
      a string is in the content if and only if some body line is '+' followed by it. */
  lemma AddLinesMembers(lines: seq<string>, i: nat, e: nat, x: string)
    requires i <= e <= |lines|
    ensures x in AddLines(lines, i, e)
        <==> exists m :: i <= m < e && lines[m] != [] && lines[m][0] == '+' && x == lines[m][1..]
  {
    if x in AddLines(lines, i, e) {
      var m := AddLinesSource(lines, i, e, x);
    }
    if exists m :: i <= m < e && lines[m] != [] && lines[m][0] == '+' && x == lines[m][1..] {
      var m :| i <= m < e && lines[m] != [] && lines[m][0] == '+' && x == lines[m][1..];
      AddLinesKeeps(lines, i, e, m);
    }
  }

  /** Every string of the Add content comes from a '+' body line. */
  lemma {:induction false} AddLinesSource(lines: seq<string>, i: nat, e: nat, x: string)
    returns (m: nat)
    requires i <= e <= |lines| && x in AddLines(lines, i, e)
    ensures i <= m < e && lines[m] != [] && lines[m][0] == '+' && x == lines[m][1..]
    decreases e - i
  {
    var head := if lines[i] != [] && lines[i][0] == '+' then [lines[i][1..]] else [];
    assert AddLines(lines, i, e) == head + AddLines(lines, i + 1, e);
    if x in head {
      m := i;
    } else {
      m := AddLinesSource(lines, i + 1, e, x);
    }
  }

  /** Every '+' body line gives its text after the '+' to the Add content. */
  lemma {:induction false} AddLinesKeeps(lines: seq<string>, i: nat, e: nat, m: nat)
    requires i <= m < e <= |lines| && lines[m] != [] && lines[m][0] == '+'
    ensures lines[m][1..] in AddLines(lines, i, e)
    decreases e - i
  {
    var head := if lines[i] != [] && lines[i][0] == '+' then [lines[i][1..]] else [];
    assert AddLines(lines, i, e) == head + AddLines(lines, i + 1, e);
    if m > i {
      AddLinesKeeps(lines, i + 1, e, m);
    }
  }

  /** When every body line starts with '+', the content is the body with the first character
      of each line removed, line for line. */
  lemma {:induction false} AddLinesAllAdded(lines: seq<string>, i: nat, e: nat)
    requires i <= e <= |lines|
    requires forall m :: i <= m < e ==> lines[m] != [] && lines[m][0] == '+'
    ensures |AddLines(lines, i, e)| == e - i
    ensures forall m :: i <= m < e ==> AddLines(lines, i, e)[m - i] == lines[m][1..]
    decreases e - i
  {
    if i < e {
      AddLinesAllAdded(lines, i + 1, e);
      assert AddLines(lines, i, e) == [lines[i][1..]] + AddLines(lines, i + 1, e);
    }
  }

  /** Add content taken from newline-free lines is newline-free. */
  lemma {:induction false} AddLinesNoNewline(lines: seq<string>, i: nat, e: nat)
    requires i <= e <= |lines|
    requires forall m :: 0 <= m < |lines| ==> NoNewline(lines[m])
    ensures forall m :: 0 <= m < |AddLines(lines, i, e)| ==> NoNewline(AddLines(lines, i, e)[m])
    decreases e - i
  {
    if i < e {
      AddLinesNoNewline(lines, i + 1, e);
      assert NoNewline(lines[i]);
    }
  }

  /** End indices that strictly increase and lie in `[lo, hi)`. */
  predicate HunksInOrder(hs: seq<Hunk>, lo: int, hi: int) {
    && (forall a :: 0 <= a < |hs| ==> lo <= hs[a].endIndex < hi)
    && (forall a, b :: 0 <= a < b < |hs| ==> hs[a].endIndex < hs[b].endIndex)
  }

  lemma HunksInOrderCons(h: Hunk, rest: seq<Hunk>, lo: int, hi: int)
    requires lo <= h.endIndex < hi && HunksInOrder(rest, h.endIndex + 1, hi)
    ensures HunksInOrder([h] + rest, lo, hi)
  {
    var hs := [h] + rest;
    assert forall a :: 1 <= a < |hs| ==> hs[a] == rest[a - 1];
  }

  /** The hunks of an Update scan come out in document order: their end indices strictly
      increase and lie between the start of the scan and where it stopped. */
  lemma {:induction false} UpdateHunksInOrder(lines: seq<string>, i: nat)
    requires i <= |lines|
    ensures UpdateHunks(lines, i).Done? ==>
      HunksInOrder(UpdateHunks(lines, i).value.hunks, i, UpdateHunks(lines, i).value.stop)
    decreases |lines| - i
  {
    if i < |lines| && !IsEnd(lines[i]) {
      if IsHunkStart(lines[i]) {
        var h := HunkAt(lines, i).value;
        var next := h.endIndex + 1;
        if next != i && UpdateHunks(lines, next).Done? {
          UpdateHunksInOrder(lines, next);
          var rest := UpdateHunks(lines, next).value;
          HunksInOrderCons(h, rest.hunks, i, rest.stop);
          assert UpdateHunks(lines, i) == Done(HunkScan([h] + rest.hunks, rest.stop));
        }
      } else {
        UpdateHunksInOrder(lines, i + 1);
        assert UpdateHunks(lines, i) == UpdateHunks(lines, i + 1);
      }
    }
  }

  /** End indices that strictly increase and lie in `(lo, hi]`. */
  predicate BlocksInOrder(bs: seq<Block>, lo: int, hi: int) {
    && (forall a :: 0 <= a < |bs| ==> lo < bs[a].endIndex <= hi)
    && (forall a, b :: 0 <= a < b < |bs| ==> bs[a].endIndex < bs[b].endIndex)
  }

  lemma BlocksInOrderCons(b: Block, rest: seq<Block>, lo: int, hi: int)
    requires lo < b.endIndex <= hi && BlocksInOrder(rest, b.endIndex, hi)
    ensures BlocksInOrder([b] + rest, lo, hi)
  {
    var bs := [b] + rest;
    assert forall a :: 1 <= a < |bs| ==> bs[a] == rest[a - 1];
  }

  /** The blocks of a patch come out in document order: their end indices strictly increase
      and lie past the start of the scan. */
  lemma {:induction false} BlocksFromInOrder(lines: seq<string>, i: nat)
    requires i <= |lines| + 1
    ensures BlocksFrom(lines, i).Done? ==> BlocksInOrder(BlocksFrom(lines, i).value, i, |lines|)
    decreases |lines| + 1 - i
  {
    if i < |lines| {
      if IsBegin(lines[i]) {
        match BlockAt(lines, i + 1)
        case Hangs =>
        case Done(None) =>
          BlocksFromInOrder(lines, i + 2);
        case Done(Some(b)) =>
          BlocksFromInOrder(lines, b.endIndex + 1);
          var r := BlocksFrom(lines, b.endIndex + 1);
          if r.Done? {
            BlocksInOrderCons(b, r.value, i, |lines|);
            assert BlocksFrom(lines, i) == Done([b] + r.value);
          }
      } else {
        BlocksFromInOrder(lines, i + 1);
        assert BlocksFrom(lines, i) == BlocksFrom(lines, i + 1);
      }
    }
  }

  /** A "@@" line directly followed by another line starting with "@@" (that is not an end
      marker): the hunk parsed at `m` reports its end one line before `m`. */
  predicate AdjacentHunkStarts(lines: seq<string>, m: nat) {
    m + 1 < |lines| && IsHunkStart(lines[m]) && !IsEnd(lines[m + 1]) && IsHunkStart(lines[m + 1])
  }

  /** The Update scan from `i` never terminates exactly when, before the next end marker, a
      "@@" line is directly followed by another "@@" line. */
  lemma {:induction false} UpdateHangsIff(lines: seq<string>, i: nat)
    requires i <= |lines|
    ensures UpdateHunks(lines, i).Hangs?
        <==> exists m :: i <= m < EndScan(lines, i) && AdjacentHunkStarts(lines, m)
    decreases |lines| - i
  {
    if i == |lines| || IsEnd(lines[i]) {
      assert EndScan(lines, i) == i;
    } else if IsHunkStart(lines[i]) {
      var next := HunkAt(lines, i).value.endIndex + 1;
      if next == i {
        HunkAtShape(lines, i);
        assert AdjacentHunkStarts(lines, i);
        assert EndScan(lines, i) > i;
      } else {
        UpdateHangsIff(lines, next);
        HunkPassesNoAdjacency(lines, i);
        assert UpdateHunks(lines, i).Hangs? <==> UpdateHunks(lines, next).Hangs?;
      }
    } else {
      assert UpdateHunks(lines, i) == UpdateHunks(lines, i + 1);
      assert EndScan(lines, i) == EndScan(lines, i + 1);
      UpdateHangsIff(lines, i + 1);
      assert !AdjacentHunkStarts(lines, i);
    }
  }

  /** A hunk that moves the Update scan forward passes over no end marker and no adjacent
      "@@" lines. */
  lemma HunkPassesNoAdjacency(lines: seq<string>, i: nat)
    requires i < |lines| && !IsEnd(lines[i]) && IsHunkStart(lines[i])
    requires HunkAt(lines, i).value.endIndex + 1 != i
    ensures var next := HunkAt(lines, i).value.endIndex + 1;
      && i < next <= |lines|
      && EndScan(lines, i) == EndScan(lines, next)
      && (forall m :: i <= m < next ==> !AdjacentHunkStarts(lines, m))
  {
    var next := HunkAt(lines, i).value.endIndex + 1;
    var k := HunkStop(lines, i + 1);
    HunkStopSpec(lines, i + 1);
    HunkAtShape(lines, i);
    assert forall m :: i < m < k ==> !IsEnd(lines[m]) && !IsHunkStart(lines[m]);
    EndScanSkip(lines, i, next);
  }

  /** The end-marker scan passes over lines that are not end markers. */
  lemma {:induction false} EndScanSkip(lines: seq<string>, i: nat, j: nat)
    requires i <= j <= |lines|
    requires forall m :: i <= m < j ==> !IsEnd(lines[m])
    ensures EndScan(lines, i) == EndScan(lines, j)
    decreases j - i
  {
    if i < j {
      EndScanSkip(lines, i + 1, j);
    }
  }

  /** A finished Update scan stops at the first end marker after its start, or at the end of
      input when there is none: a hunk never carries the scan past an end marker. */
  lemma {:induction false} UpdateHunksStop(lines: seq<string>, i: nat)
    requires i <= |lines|
    ensures UpdateHunks(lines, i).Done? ==>
      && UpdateHunks(lines, i).value.stop == EndScan(lines, i)
      && (forall k :: i <= k < UpdateHunks(lines, i).value.stop ==> !IsEnd(lines[k]))
    decreases |lines| - i
  {
    EndScanSpec(lines, i);
    if i < |lines| && !IsEnd(lines[i]) {
      if IsHunkStart(lines[i]) {
        var next := HunkAt(lines, i).value.endIndex + 1;
        if next != i {
          HunkPassesNoAdjacency(lines, i);
          UpdateHunksStop(lines, next);
        }
      } else {
        UpdateHunksStop(lines, i + 1);
        assert UpdateHunks(lines, i) == UpdateHunks(lines, i + 1);
        assert EndScan(lines, i) == EndScan(lines, i + 1);
      }
    }
  }

  /** The hunks that start in `lines[i..j]`, in order: one for each "@@" line there, parsed
      from that line. */
  function HunksOfStarts(lines: seq<string>, i: nat, j: nat): (hs: seq<Hunk>)
    requires i <= j <= |lines|
    ensures |hs| <= j - i
    decreases j - i
  {
    if i == j then []
    else
      var here := if IsHunkStart(lines[i]) then [HunkAt(lines, i).value] else [];
      here + HunksOfStarts(lines, i + 1, j)
  }

  /** Lines that are not "@@" lines start no hunk. */
  lemma {:induction false} HunksOfStartsSkip(lines: seq<string>, i: nat, j: nat, e: nat)
    requires i <= j <= e <= |lines|
    requires forall m :: i <= m < j ==> !IsHunkStart(lines[m])
    ensures HunksOfStarts(lines, i, e) == HunksOfStarts(lines, j, e)
    decreases j - i
  {
    if i < j {
      HunksOfStartsSkip(lines, i + 1, j, e);
      assert HunksOfStarts(lines, i, e) == [] + HunksOfStarts(lines, i + 1, e);
    }
  }

  /** A finished Update scan yields exactly the hunks that start between its start and its
      stop, in order: one per "@@" line, none dropped, none repeated. */
  lemma {:induction false} UpdateHunksAreStarts(lines: seq<string>, i: nat)
    requires i <= |lines|
    ensures UpdateHunks(lines, i).Done? ==>
      UpdateHunks(lines, i).value.hunks == HunksOfStarts(lines, i, UpdateHunks(lines, i).value.stop)
    decreases |lines| - i
  {
    if i < |lines| && !IsEnd(lines[i]) && UpdateHunks(lines, i).Done? {
      var stop := UpdateHunks(lines, i).value.stop;
      if IsHunkStart(lines[i]) {
        var h := HunkAt(lines, i).value;
        var next := h.endIndex + 1;
        HunkStopSpec(lines, i + 1);
        assert next <= HunkStop(lines, i + 1);
        UpdateHunksAreStarts(lines, next);
        HunksOfStartsSkip(lines, i + 1, next, stop);
        assert HunksOfStarts(lines, i, stop) == [h] + HunksOfStarts(lines, i + 1, stop);
      } else {
        UpdateHunksAreStarts(lines, i + 1);
        assert UpdateHunks(lines, i) == UpdateHunks(lines, i + 1);
        assert HunksOfStarts(lines, i, stop) == [] + HunksOfStarts(lines, i + 1, stop);
      }
    }
  }

  /** Without adjacent "@@" lines, the segment after a begin marker is parsed to an end. */
  lemma BlockAtTerminates(lines: seq<string>, start: nat)
    requires start <= |lines|
    requires forall m :: 0 <= m < |lines| ==> !AdjacentHunkStarts(lines, m)
    ensures BlockAt(lines, start).Done?
  {
    var j := ActionScan(lines, start);
    if j < |lines| && ActionOf(lines[j]).Some? {
      UpdateHangsIff(lines, j + 1);
    }
  }

  /** Without adjacent "@@" lines anywhere, parsing terminates. */
  lemma {:induction false} BlocksTerminate(lines: seq<string>, i: nat)
    requires i <= |lines| + 1
    requires forall m :: 0 <= m < |lines| ==> !AdjacentHunkStarts(lines, m)
    ensures BlocksFrom(lines, i).Done?
    decreases |lines| + 1 - i
  {
    if i < |lines| {
      if IsBegin(lines[i]) {
        BlockAtTerminates(lines, i + 1);
        match BlockAt(lines, i + 1)
        case Hangs =>
        case Done(None) => BlocksTerminate(lines, i + 2);
        case Done(Some(b)) => BlocksTerminate(lines, b.endIndex + 1);
      } else {
        BlocksTerminate(lines, i + 1);
      }
    }
  }

  /** Two "@@" lines in a row inside an Update body: the scan parses the first hunk again and
      again and never terminates. */
  lemma AdjacentHunkStartsHang()
    ensures UpdateHunks(["@@ first", "@@ second"], 0).Hangs?
  {
    var lines := ["@@ first", "@@ second"];
    PrintableNotSpace('@');
    PrintableNotSpace('t');
    PrintableNotSpace('d');
    StripUnpadded(lines[0]);
    StripUnpadded(lines[1]);
    assert !IsEnd(lines[0]) && !IsEnd(lines[1]);
    assert AdjacentHunkStarts(lines, 0);
    EndScanSpec(lines, 0);
    UpdateHangsIff(lines, 0);
  }

  // ---------------------------------------------------------------------------------------
  // Well-formed patches: one block per segment

  /** A segment of a patch as a writer lays it out: a gap of lines none of which is a begin
      marker (blank lines between blocks, say), then the block's lines. */
  datatype Segment = Segment(gap: seq<string>, block: seq<string>)

  /** A segment's gap holds no begin marker, and its block is well formed. */
  predicate WellFormedSegment(s: Segment) {
    && (forall m :: 0 <= m < |s.gap| ==> !IsBegin(s.gap[m]))
    && WellFormedBlock(s.block)
  }

  /** A block's lines are a begin marker, an action header, body lines none of which is an end
      marker, and an end marker, with no "@@" line directly followed by another. */
  predicate WellFormedBlock(blk: seq<string>) {
    && |blk| >= 3
    && IsBegin(blk[0])
    && ActionOf(blk[1]).Some?
    && (forall m :: 1 <= m < |blk| - 1 ==> !IsEnd(blk[m]))
    && IsEnd(blk[|blk| - 1])
    && (forall m :: 0 <= m < |blk| ==> !AdjacentHunkStarts(blk, m))
  }

  /** The lines of segments written one after another. */
  function Flatten(segs: seq<Segment>): (lines: seq<string>)
    decreases |segs|
  {
    if segs == [] then [] else segs[0].gap + (segs[0].block + Flatten(segs[1..]))
  }

  /** The patch scan passes over lines that are not begin markers. */
  lemma {:induction false} BlocksFromSkipGap(lines: seq<string>, i: nat, j: nat)
    requires i <= j <= |lines|
    requires forall k :: i <= k < j ==> !IsBegin(lines[k])
    ensures BlocksFrom(lines, i) == BlocksFrom(lines, j)
    decreases j - i
  {
    if i < j {
      BlocksFromSkipGap(lines, i + 1, j);
      assert BlocksFrom(lines, i) == BlocksFrom(lines, i + 1);
    }
  }

  /** The block after a begin marker at line `o` whose action header is the next line and
      whose first end marker is at `e`: the header's action and path, ending at `e`. */
  lemma BlockBeforeEnd(lines: seq<string>, o: nat, e: nat) returns (b: Block)
    requires o + 1 < e < |lines|
    requires ActionOf(lines[o + 1]).Some? && IsEnd(lines[e])
    requires forall m :: o + 1 <= m < e ==> !IsEnd(lines[m])
    requires forall m :: o + 2 <= m < e ==> !AdjacentHunkStarts(lines, m)
    ensures BlockAt(lines, o + 1) == Done(Some(b))
    ensures ActionOf(lines[o + 1]) == Some(Header(b.action, b.filePath)) && b.endIndex == e
  {
    assert ActionScan(lines, o + 1) == o + 1;
    EndScanSkip(lines, o + 2, e);
    assert EndScan(lines, e) == e;
    UpdateHangsIff(lines, o + 2);
    UpdateHunksStop(lines, o + 2);
    b := BlockAt(lines, o + 1).value.value;
  }

  /** Adjacent "@@" lines inside a stretch of the lines are adjacent in that stretch. */
  lemma AdjacentWithin(lines: seq<string>, o: nat, blk: seq<string>, m: nat)
    requires o + |blk| <= |lines| && lines[o..o + |blk|] == blk
    requires o <= m && m + 1 < o + |blk|
    ensures AdjacentHunkStarts(lines, m) == AdjacentHunkStarts(blk, m - o)
  {
    assert lines[m] == blk[m - o] && lines[m + 1] == blk[m + 1 - o];
  }

  /** The block of a well-formed segment's lines at line `o`: its header decides the action and
      the path, the block ends at its end marker, and the scan goes on with the blocks after
      it. */
  lemma SegmentBlock(lines: seq<string>, o: nat, blk: seq<string>, next: nat,
                     rest: seq<Block>) returns (b: Block)
    requires WellFormedBlock(blk) && next == o + |blk|
    requires next <= |lines| && lines[o..next] == blk
    requires BlocksFrom(lines, next) == Done(rest)
    ensures ActionOf(blk[1]) == Some(Header(b.action, b.filePath))
    ensures b.endIndex == next - 1
    ensures BlocksFrom(lines, o) == Done([b] + rest)
  {
    assert forall m :: 0 <= m < |blk| ==> lines[o + m] == blk[m];
    assert IsBegin(lines[o]) && lines[o + 1] == blk[1];
    forall m | o + 2 <= m < next - 1
      ensures !AdjacentHunkStarts(lines, m)
    {
      AdjacentWithin(lines, o, blk, m);
    }
    b := BlockBeforeEnd(lines, o, next - 1);
    BlocksFromAtBlock(lines, o, b, rest);
  }

  /** One step of the patch scan over a block. */
  lemma BlocksFromAtBlock(lines: seq<string>, o: nat, b: Block, rest: seq<Block>)
    requires o < |lines| && IsBegin(lines[o]) && BlockAt(lines, o + 1) == Done(Some(b))
    requires BlocksFrom(lines, b.endIndex + 1) == Done(rest)
    ensures BlocksFrom(lines, o) == Done([b] + rest)
  {
  }

  /** Lines that from `o` on are `x` followed by `y` hold `x` from `o` to `e` and `y` after
      it. */
  lemma DropPrefix(lines: seq<string>, o: nat, x: seq<string>, y: seq<string>, e: nat)
    requires o <= |lines| && lines[o..] == x + y && e == o + |x|
    ensures e <= |lines| && lines[o..e] == x && lines[e..] == y
  {
    assert lines[o..][..|x|] == x && lines[o..][|x|..] == y;
    assert lines[o..e] == lines[o..][..|x|];
  }

  /** The lines of segments and a tail: the first segment's gap, its block, then the rest. */
  lemma FlattenCons(segs: seq<Segment>, tail: seq<string>)
    requires segs != []
    ensures Flatten(segs) + tail == segs[0].gap + (segs[0].block + (Flatten(segs[1..]) + tail))
  {
    var gap, blk, f := segs[0].gap, segs[0].block, Flatten(segs[1..]);
    assert Flatten(segs) + tail == gap + (blk + f) + tail;
    ConcatAssoc(gap, blk + f, tail);
    ConcatAssoc(blk, f, tail);
  }

  lemma ConcatAssoc<T>(a: seq<T>, b: seq<T>, c: seq<T>)
    ensures (a + b) + c == a + (b + c)
  {
  }

  /** Block `k` has the action and the path of the header of segment `k`, for every `k`. */
  predicate BlocksFollowSegments(bs: seq<Block>, segs: seq<Segment>) {
    && |bs| == |segs|
    && forall k :: 0 <= k < |segs| ==>
         && |segs[k].block| > 1
         && ActionOf(segs[k].block[1]) == Some(Header(bs[k].action, bs[k].filePath))
  }

  lemma BlocksFollowSegmentsCons(b: Block, bs: seq<Block>, segs: seq<Segment>)
    requires segs != [] && |segs[0].block| > 1
    requires ActionOf(segs[0].block[1]) == Some(Header(b.action, b.filePath))
    requires BlocksFollowSegments(bs, segs[1..])
    ensures BlocksFollowSegments([b] + bs, segs)
  {
    assert forall k :: 1 <= k < |segs| ==> ([b] + bs)[k] == bs[k - 1] && segs[k] == segs[1..][k - 1];
  }

  /** Well-formed segments from line `o` on, then a tail without begin markers, parse to one
      block per segment, in order, each with its segment's action and path. */
  lemma {:induction false} SegmentsFrom(lines: seq<string>, o: nat, segs: seq<Segment>,
                                        tail: seq<string>) returns (bs: seq<Block>)
    requires forall k :: 0 <= k < |segs| ==> WellFormedSegment(segs[k])
    requires forall m :: 0 <= m < |tail| ==> !IsBegin(tail[m])
    requires o <= |lines| && lines[o..] == Flatten(segs) + tail
    ensures BlocksFrom(lines, o) == Done(bs) && BlocksFollowSegments(bs, segs)
    decreases |segs|
  {
    if segs == [] {
      assert forall k :: o <= k < |lines| ==> lines[k] == tail[k - o];
      BlocksFromSkipGap(lines, o, |lines|);
      bs := [];
    } else {
      var seg := segs[0];
      var start: nat := o + |seg.gap|;
      var next: nat := start + |seg.block|;
      var more := Flatten(segs[1..]) + tail;
      FlattenCons(segs, tail);
      DropPrefix(lines, o, seg.gap, seg.block + more, start);
      DropPrefix(lines, start, seg.block, more, next);
      assert WellFormedSegment(seg);
      assert forall k :: o <= k < start ==> lines[k] == seg.gap[k - o];
      BlocksFromSkipGap(lines, o, start);
      assert forall k :: 0 <= k < |segs[1..]| ==> WellFormedSegment(segs[1..][k]) by {
        assert forall k :: 0 <= k < |segs[1..]| ==> segs[1..][k] == segs[k + 1];
      }
      var rest := SegmentsFrom(lines, next, segs[1..], tail);
      var b := SegmentBlock(lines, start, seg.block, next, rest);
      BlocksFollowSegmentsCons(b, rest, segs);
      bs := [b] + rest;
    }
  }

  /** A patch text whose lines are well-formed segments followed by a tail without begin
      markers parses to exactly one block per segment, in order, each with the action and the
      path of its segment's header. */
  lemma WellFormedSegmentsParse(segs: seq<Segment>, tail: seq<string>, text: string)
    requires forall k :: 0 <= k < |segs| ==> WellFormedSegment(segs[k])
    requires forall m :: 0 <= m < |tail| ==> !IsBegin(tail[m])
    requires forall m :: 0 <= m < |Flatten(segs) + tail| ==> NoNewline((Flatten(segs) + tail)[m])
    requires text == Join(Flatten(segs) + tail)
    ensures PatchOf(text).Done? && BlocksFollowSegments(PatchOf(text).value, segs)
  {
    var lines := Flatten(segs) + tail;
    if lines == [] {
      assert segs == [];
      assert Strip(text) == [];
    } else {
      SplitJoin(lines);
      if segs != [] {
        var k := |segs[0].gap|;
        assert lines[k] == segs[0].block[0];
        NotBlankWithBegin(lines, k);
      } else {
        assert lines == tail;
      }
      if Strip(text) != [] {
        assert lines[0..] == lines;
        var bs := SegmentsFrom(lines, 0, segs, tail);
      }
    }
  }

  /** Text one of whose lines is a begin marker is not blank. */
  lemma NotBlankWithBegin(lines: seq<string>, k: nat)
    requires k < |lines| && IsBegin(lines[k])
    ensures Strip(Join(lines)) != []
  {
    var l := lines[k];
    var a := StripFirstChar(l);
    assert l[a] == BEGIN_PATCH[0] == '*';
    PrintableNotSpace('*');
    var p := JoinKeepsChar(lines, k, a);
    StripKeepsNonSpace(Join(lines), p);
  }
}
