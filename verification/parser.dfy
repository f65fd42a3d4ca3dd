/**
  The patch parser of `PatchApplier`: `parse_patch`, `_parse_block` and `_parse_hunk`, as
  index loops over the lines of the patch text. Each method is proved to compute the
  corresponding function of module PatchFormat. Where the source would loop for ever (a
  "@@" line directly followed by another "@@" line inside an Update block), the method
  stops and returns `Hangs` instead.
 */
module PatchParser {
  import opened Lines
  import opened PatchFormat

  /** The hunks found so far, put in front of what the rest of the scan finds. */
  function PrefixHunks(hunks: seq<Hunk>, r: Parse<HunkScan>): (r': Parse<HunkScan>)
    ensures hunks == [] ==> r' == r
    ensures r'.Hangs? <==> r.Hangs?
  {
    match r
    case Hangs => Hangs
    case Done(s) => assert [] + s.hunks == s.hunks; Done(HunkScan(hunks + s.hunks, s.stop))
  }

  /** The blocks found so far, put in front of what the rest of the scan finds. */
  function PrefixBlocks(blocks: seq<Block>, r: Parse<seq<Block>>): (r': Parse<seq<Block>>)
    ensures blocks == [] ==> r' == r
    ensures r'.Hangs? <==> r.Hangs?
  {
    match r
    case Hangs => Hangs
    case Done(bs) => assert [] + bs == bs; Done(blocks + bs)
  }

  /** `_parse_hunk(lines, start)`. */
  method ParseHunk(lines: seq<string>, start: nat) returns (r: Option<Hunk>)
    requires start < |lines|
    ensures r == HunkAt(lines, start)
  {
    if !IsHunkStart(lines[start]) {
      return None;
    }
    var header := Strip(lines[start][2..]);
    var body, i := HunkBody(lines, start + 1);
    if i < |lines| && !IsEnd(lines[i]) && IsHunkStart(lines[i]) {
      // the next hunk starts here: step back so that it is not consumed
      i := i - 1;
    }
    r := Some(Hunk(header, body, i - 1));
  }

  /** The body loop of `_parse_hunk`: the tagged lines from `from` on. */
  method HunkBody(lines: seq<string>, from: nat) returns (body: seq<HunkLine>, i: nat)
    requires from <= |lines|
    ensures i == HunkStop(lines, from)
    ensures body == HunkLines(lines, from, i)
  {
    ghost var k := HunkStop(lines, from);
    i := from;
    body := [];
    while i < |lines| && !IsEnd(lines[i]) && !IsHunkStart(lines[i]) && TagOf(lines[i]).Some?
      invariant from <= i <= k
      invariant HunkStop(lines, i) == k
      invariant HunkLines(lines, from, k) == body + HunkLines(lines, i, k)
    {
      body := body + [HunkLine(TagOf(lines[i]).value, lines[i][1..])];
      i := i + 1;
    }
    assert body + [] == body;
  }

  /** The scan of a Delete block's body in `_parse_block`: up to the next end marker. */
  method SkipToEnd(lines: seq<string>, from: nat) returns (e: nat)
    requires from <= |lines|
    ensures e == EndScan(lines, from)
  {
    e := from;
    while e < |lines| && !IsEnd(lines[e])
      invariant from <= e <= EndScan(lines, from)
      invariant EndScan(lines, e) == EndScan(lines, from)
    {
      e := e + 1;
    }
  }

  /** The scan of an Add block's body in `_parse_block`: keep the '+' lines up to the next
      end marker. */
  method ParseAddBody(lines: seq<string>, from: nat) returns (content: seq<string>, e: nat)
    requires from <= |lines|
    ensures e == EndScan(lines, from)
    ensures content == AddLines(lines, from, e)
  {
    ghost var stop := EndScan(lines, from);
    content, e := [], from;
    while e < |lines| && !IsEnd(lines[e])
      invariant from <= e <= stop
      invariant EndScan(lines, e) == stop
      invariant AddLines(lines, from, stop) == content + AddLines(lines, e, stop)
    {
      if lines[e] != [] && lines[e][0] == '+' {
        content := content + [lines[e][1..]];
      }
      e := e + 1;
    }
    assert content + [] == content;
  }

  /** The scan of an Update block's body in `_parse_block`: a hunk at each "@@" line, other
      lines skipped, up to the next end marker. */
  method ParseUpdateBody(lines: seq<string>, from: nat) returns (r: Parse<HunkScan>)
    requires from <= |lines|
    ensures r == UpdateHunks(lines, from)
  {
    var hunks: seq<Hunk> := [];
    var i := from;
    while i < |lines| && !IsEnd(lines[i])
      invariant from <= i <= |lines|
      invariant UpdateHunks(lines, from) == PrefixHunks(hunks, UpdateHunks(lines, i))
      decreases |lines| - i
    {
      if IsHunkStart(lines[i]) {
        var h := ParseHunk(lines, i);
        if h.Some? && h.value.endIndex + 1 == i {
          // the source resumes at this same "@@" line and parses it again, for ever
          return Hangs;
        }
        // at a "@@" line `_parse_hunk` always returns a hunk, so the source's branch for a
        // missing hunk (`i += 1`) never runs
        var next := h.value.endIndex + 1;
        UpdateHunksAtHunk(lines, i, hunks);
        hunks := hunks + [h.value];
        i := next;
      } else {
        UpdateHunksSkip(lines, i);
        i := i + 1;
      }
    }
    assert hunks + [] == hunks;
    return Done(HunkScan(hunks, i));
  }

  /** One step of the Update scan at a "@@" line that moves the scan forward. */
  lemma UpdateHunksAtHunk(lines: seq<string>, i: nat, hunks: seq<Hunk>)
    requires i < |lines| && !IsEnd(lines[i]) && IsHunkStart(lines[i])
    requires HunkAt(lines, i).value.endIndex + 1 != i
    ensures var h := HunkAt(lines, i).value;
      PrefixHunks(hunks, UpdateHunks(lines, i))
        == PrefixHunks(hunks + [h], UpdateHunks(lines, h.endIndex + 1))
  {
    var h := HunkAt(lines, i).value;
    assert UpdateHunks(lines, i) == PrefixHunks([h], UpdateHunks(lines, h.endIndex + 1));
    PrefixHunksAppend(hunks, h, UpdateHunks(lines, h.endIndex + 1));
  }

  /** One step of the Update scan at a line that is neither an end marker nor a "@@" line. */
  lemma UpdateHunksSkip(lines: seq<string>, i: nat)
    requires i < |lines| && !IsEnd(lines[i]) && !IsHunkStart(lines[i])
    ensures UpdateHunks(lines, i) == UpdateHunks(lines, i + 1)
  {
  }

  lemma PrefixHunksAppend(hunks: seq<Hunk>, h: Hunk, r: Parse<HunkScan>)
    ensures PrefixHunks(hunks, PrefixHunks([h], r)) == PrefixHunks(hunks + [h], r)
  {
    if r.Done? {
      assert hunks + ([h] + r.value.hunks) == (hunks + [h]) + r.value.hunks;
    }
  }

  /** One step of the patch scan at a line that is not a begin marker. */
  lemma BlocksFromSkip(lines: seq<string>, i: nat)
    requires i < |lines| && !IsBegin(lines[i])
    ensures BlocksFrom(lines, i) == BlocksFrom(lines, i + 1)
  {
  }

  /** One step of the patch scan at a begin marker. */
  lemma BlocksFromAtBegin(lines: seq<string>, i: nat)
    requires i < |lines| && IsBegin(lines[i])
    ensures BlockAt(lines, i + 1).Hangs? ==> BlocksFrom(lines, i).Hangs?
    ensures BlockAt(lines, i + 1) == Done(None) ==> BlocksFrom(lines, i) == BlocksFrom(lines, i + 2)
    ensures BlockAt(lines, i + 1).Done? && BlockAt(lines, i + 1).value.Some? ==>
      var b := BlockAt(lines, i + 1).value.value;
      BlocksFrom(lines, i) == PrefixBlocks([b], BlocksFrom(lines, b.endIndex + 1))
  {
  }

  lemma PrefixBlocksAppend(blocks: seq<Block>, b: Block, r: Parse<seq<Block>>)
    ensures PrefixBlocks(blocks, PrefixBlocks([b], r)) == PrefixBlocks(blocks + [b], r)
  {
    if r.Done? {
      assert blocks + ([b] + r.value) == (blocks + [b]) + r.value;
    }
  }

  /** `_parse_block(lines, start)`: find the action header, then parse the body it announces. */
  method ParseBlock(lines: seq<string>, start: nat) returns (r: Parse<Option<Block>>)
    requires start <= |lines|
    ensures r == BlockAt(lines, start)
  {
    var i := FindAction(lines, start);
    if i == |lines| {
      return Done(None);
    }
    var header := ActionOf(lines[i]);
    if header.None? {
      // an end marker came first
      return Done(None);
    }
    var action, path := header.value.action, header.value.path;
    match action
    case Delete =>
      var e := SkipToEnd(lines, i + 1);
      return Done(Some(Block(Delete, path, [], [], e)));
    case Add =>
      var content, e := ParseAddBody(lines, i + 1);
      return Done(Some(Block(Add, path, [], content, e)));
    case Update =>
      var scan := ParseUpdateBody(lines, i + 1);
      if scan.Hangs? {
        return Hangs;
      }
      return Done(Some(Block(Update, path, scan.value.hunks, [], scan.value.stop)));
  }

  /** The first loop of `_parse_block`: the index of the first action header or end marker. */
  method FindAction(lines: seq<string>, start: nat) returns (i: nat)
    requires start <= |lines|
    ensures i == ActionScan(lines, start)
  {
    i := start;
    while i < |lines| && ActionOf(lines[i]).None? && !IsEnd(lines[i])
      invariant start <= i <= ActionScan(lines, start)
      invariant ActionScan(lines, i) == ActionScan(lines, start)
    {
      i := i + 1;
    }
  }

  /** The main loop of `parse_patch`: look for begin markers and parse the block after each. */
  method ParseLines(lines: seq<string>) returns (r: Parse<seq<Block>>)
    ensures r == BlocksFrom(lines, 0)
  {
    var blocks: seq<Block> := [];
    var i: nat := 0;
    while i < |lines|
      invariant i <= |lines| + 1
      invariant BlocksFrom(lines, 0) == PrefixBlocks(blocks, BlocksFrom(lines, i))
      decreases |lines| + 1 - i
    {
      if IsBegin(lines[i]) {
        BlocksFromAtBegin(lines, i);
        i := i + 1;
        var b := ParseBlock(lines, i);
        if b.Hangs? {
          return Hangs;
        }
        if b.value.Some? {
          PrefixBlocksAppend(blocks, b.value.value, BlocksFrom(lines, b.value.value.endIndex + 1));
          blocks := blocks + [b.value.value];
          i := b.value.value.endIndex + 1;
        } else {
          i := i + 1;
        }
      } else {
        BlocksFromSkip(lines, i);
        i := i + 1;
      }
    }
    assert blocks + [] == blocks;
    return Done(blocks);
  }

  /** `parse_patch(text)`: blank text has no blocks; otherwise the blocks of its lines. */
  method ParsePatch(text: string) returns (r: Parse<seq<Block>>)
    ensures r == PatchOf(text)
  {
    if Strip(text) == [] {
      return Done([]);
    }
    r := ParseLines(Split(text));
  }
}
