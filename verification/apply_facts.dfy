/**
  What applying a patch promises: one outcome per block, in order and under the block's own
  path; a file no block names is left alone; an Update without hunks rewrites a file with its
  own text; a second Delete of the same file fails; and the text written for an Add or a
  successful Update splits back into exactly the lines that were computed, because every line
  the parser produces is free of newlines.
 */
module ApplyFacts {
  import opened Lines
  import opened PatchFormat
  import opened HunkApply
  import opened PatchFacts
  import opened PatchApplier

  // ---------------------------------------------------------------------------------------
  // Outcomes and frames

  /** `apply_patch` reports one outcome per block, in block order, under the block's own path,
      with the message that matches the block's action and success; an Add always succeeds. */
  lemma {:induction false} OutcomesFollowBlocks(files: Files, bs: seq<Block>)
    ensures var run := ApplyBlocks(files, bs);
      && |run.outcomes| == |bs|
      && forall k :: 0 <= k < |bs| ==>
           && run.outcomes[k].path == bs[k].filePath
           && run.outcomes[k].message == MessageOf(bs[k].action, run.outcomes[k].success)
           && (bs[k].action == Add ==> run.outcomes[k].success)
    decreases |bs|
  {
    if bs != [] {
      var first := ApplyBlock(files, bs[0]);
      var rest := ApplyBlocks(first.files, bs[1..]);
      OutcomesFollowBlocks(first.files, bs[1..]);
      var run := ApplyBlocks(files, bs);
      assert run.outcomes == first.outcomes + rest.outcomes;
      forall k | 1 <= k < |bs|
        ensures run.outcomes[k] == rest.outcomes[k - 1] && bs[k] == bs[1..][k - 1]
      {
      }
    }
  }

  /** One block changes at most the file it names. An Add leaves that file holding the joined
      content; a Delete succeeds exactly when the file exists and leaves it absent; an Update
      never creates or removes the file, fails on a missing one, and leaves every file as it
      was when it fails. */
  lemma ApplyBlockFrame(files: Files, b: Block)
    ensures var run := ApplyBlock(files, b);
      && |run.outcomes| == 1
      && (forall p :: p != b.filePath ==>
            (p in run.files <==> p in files) && (p in files ==> run.files[p] == files[p]))
      && (b.action == Add ==>
            b.filePath in run.files && run.files[b.filePath] == Join(b.content))
      && (b.action == Delete ==>
            b.filePath !in run.files && (run.outcomes[0].success <==> b.filePath in files))
      && (b.action == Update ==>
            && (b.filePath in run.files <==> b.filePath in files)
            && (run.outcomes[0].success ==> b.filePath in files)
            && (!run.outcomes[0].success ==> run.files == files))
  {
  }

  /** A file that no block of the patch names is neither created, removed nor changed. */
  lemma {:induction false} UnnamedFileKept(files: Files, bs: seq<Block>, p: string)
    requires forall k :: 0 <= k < |bs| ==> bs[k].filePath != p
    ensures var run := ApplyBlocks(files, bs);
      && (p in run.files <==> p in files)
      && (p in files ==> run.files[p] == files[p])
    decreases |bs|
  {
    if bs != [] {
      var first := ApplyBlock(files, bs[0]);
      ApplyBlockFrame(files, bs[0]);
      UnnamedFileKept(first.files, bs[1..], p);
    }
  }

  /** Block `k` of the run reports the outcome of the blocks after the first as block `k - 1`. */
  lemma ApplyBlocksLater(files: Files, bs: seq<Block>, k: nat)
    requires 0 < k < |bs|
    ensures ApplyBlocks(files, bs).outcomes[k]
         == ApplyBlocks(ApplyBlock(files, bs[0]).files, bs[1..]).outcomes[k - 1]
    ensures bs[1..][k - 1] == bs[k]
  {
  }

  /** A file that is absent stays absent until an Add names it: a Delete of it before any
      such Add fails. */
  lemma {:induction false} DeleteOfAbsentFails(files: Files, bs: seq<Block>, p: string, j: nat)
    requires p !in files
    requires j < |bs| && bs[j].action == Delete && bs[j].filePath == p
    requires forall k :: 0 <= k < j ==> !(bs[k].action == Add && bs[k].filePath == p)
    ensures ApplyBlocks(files, bs).outcomes[j] == Outcome(p, false, DeleteFailed)
    decreases j
  {
    var first := ApplyBlock(files, bs[0]);
    ApplyBlockFrame(files, bs[0]);
    if j > 0 {
      assert p !in first.files;
      DeleteOfAbsentFails(first.files, bs[1..], p, j - 1);
      ApplyBlocksLater(files, bs, j);
    }
  }

  /** Deleting the same file twice in one patch, with no Add of it in between: the later
      Delete fails, whatever the blocks around them do. */
  lemma {:induction false} DeleteTwiceFailsSecond(files: Files, bs: seq<Block>, a: nat, b: nat)
    requires a < b < |bs|
    requires bs[a].action == Delete && bs[b].action == Delete
    requires bs[a].filePath == bs[b].filePath
    requires forall k :: a < k < b ==> !(bs[k].action == Add && bs[k].filePath == bs[b].filePath)
    ensures ApplyBlocks(files, bs).outcomes[b] == Outcome(bs[b].filePath, false, DeleteFailed)
    decreases a
  {
    var first := ApplyBlock(files, bs[0]);
    ApplyBlocksLater(files, bs, b);
    if a > 0 {
      DeleteTwiceFailsSecond(first.files, bs[1..], a - 1, b - 1);
    } else {
      ApplyBlockFrame(files, bs[0]);
      DeleteOfAbsentFails(first.files, bs[1..], bs[b].filePath, b - 1);
    }
  }

  /** An Update without hunks succeeds on an existing file and leaves every file as it was:
      the file's text splits and joins back to itself. */
  lemma UpdateWithoutHunksKeepsFile(files: Files, path: string)
    requires path in files
    ensures UpdateFiles(files, path, []) == Applied(files, true)
  {
    FoldNoHunks(Split(files[path]));
    JoinSplit(files[path]);
    assert files[path := files[path]] == files;
  }

  /** A patch whose text is blank, or none of whose lines is a begin marker, changes no file
      and reports nothing. */
  lemma PatchWithoutBlocksChangesNothing(files: Files, text: string)
    requires Strip(text) == [] || forall k :: 0 <= k < |Split(text)| ==> !IsBegin(Split(text)[k])
    ensures ApplyPatchSpec(files, text) == (files, Done([]))
  {
    if Strip(text) != [] {
      PatchWithoutBeginHasNoBlocks(text);
    }
  }

  // ---------------------------------------------------------------------------------------
  // Newline-free lines, and the text written back

  /** No line holds a newline. */
  predicate NewlineFree(ls: seq<string>) {
    forall k :: 0 <= k < |ls| ==> NoNewline(ls[k])
  }

  /** No hunk line's text holds a newline. */
  predicate HunkNewlineFree(h: Hunk) {
    forall k :: 0 <= k < |h.lines| ==> NoNewline(h.lines[k].text)
  }

  predicate HunksNewlineFree(hs: seq<Hunk>) {
    forall k :: 0 <= k < |hs| ==> HunkNewlineFree(hs[k])
  }

  lemma HunksNewlineFreeCons(h: Hunk, rest: seq<Hunk>)
    requires HunkNewlineFree(h) && HunksNewlineFree(rest)
    ensures HunksNewlineFree([h] + rest)
  {
    var hs := [h] + rest;
    assert forall k :: 1 <= k < |hs| ==> hs[k] == rest[k - 1];
  }

  /** Neither the content nor any hunk line of the block holds a newline. */
  predicate BlockNewlineFree(b: Block) {
    NewlineFree(b.content) && HunksNewlineFree(b.hunks)
  }

  predicate BlocksNewlineFree(bs: seq<Block>) {
    forall k :: 0 <= k < |bs| ==> BlockNewlineFree(bs[k])
  }

  lemma BlocksNewlineFreeCons(b: Block, rest: seq<Block>)
    requires BlockNewlineFree(b) && BlocksNewlineFree(rest)
    ensures BlocksNewlineFree([b] + rest)
  {
    var bs := [b] + rest;
    assert forall k :: 1 <= k < |bs| ==> bs[k] == rest[k - 1];
  }

  lemma {:induction false} TextsNewlineFree(hls: seq<HunkLine>, t: Tag, i: nat, j: nat)
    requires i <= j <= |hls|
    requires forall k :: 0 <= k < |hls| ==> NoNewline(hls[k].text)
    ensures NewlineFree(Texts(hls, t, i, j))
    decreases j - i
  {
    if i < j {
      TextsNewlineFree(hls, t, i, j - 1);
      assert NoNewline(hls[j - 1].text);
    }
  }

  /** Applying a hunk to newline-free lines with newline-free texts gives newline-free lines,
      and never the empty list: either the context before is kept or the anchor line is. */
  lemma ApplyHunkNewlineFree(lines: seq<string>, h: Hunk)
    requires NewlineFree(lines) && HunkNewlineFree(h) && ApplyHunk(lines, h).Some?
    ensures NewlineFree(ApplyHunk(lines, h).value) && ApplyHunk(lines, h).value != []
  {
    var hls := h.lines;
    var f := FirstChange(hls, 0);
    TextsNewlineFree(hls, Context, 0, f);
    TextsNewlineFree(hls, Added, 0, |hls|);
    TextsNewlineFree(hls, Context, f, |hls|);
    var m := Anchor(lines, h).value;
    var p := Partition(hls);
    var start := StartIndex(m, |p.before|);
    var tail := Tail(lines, start + |p.before| + |p.removed| + |p.after|);
    var out := lines[..start] + p.before + p.added + p.after + tail;
    assert ApplyHunk(lines, h).value == out;
    assert NewlineFree(lines[..start]) && NewlineFree(tail);
    assert p.before == [] ==> start == m + 1 && lines[..start] != [];
  }

  /** The fold of newline-free hunks over newline-free, non-empty lines gives newline-free,
      non-empty lines. */
  lemma {:induction false} FoldHunksNewlineFree(lines: seq<string>, hunks: seq<Hunk>)
    requires NewlineFree(lines) && lines != []
    requires HunksNewlineFree(hunks)
    ensures FoldHunks(lines, hunks).Some? ==>
      NewlineFree(FoldHunks(lines, hunks).value) && FoldHunks(lines, hunks).value != []
    decreases |hunks|
  {
    if hunks != [] {
      FoldHunksStep(lines, hunks);
      var h := hunks[|hunks| - 1];
      if ApplyHunk(lines, h).Some? {
        ApplyHunkNewlineFree(lines, h);
        FoldHunksNewlineFree(ApplyHunk(lines, h).value, hunks[..|hunks| - 1]);
      }
    }
  }

  /** A successful Update of newline-free hunks writes text that splits back into exactly the
      lines the hunks produced. */
  lemma UpdatedFileReadsBack(files: Files, path: string, hunks: seq<Hunk>)
    requires HunksNewlineFree(hunks)
    requires UpdateFiles(files, path, hunks).ok
    ensures path in files && path in UpdateFiles(files, path, hunks).files
    ensures Split(UpdateFiles(files, path, hunks).files[path])
         == FoldHunks(Split(files[path]), hunks).value
  {
    var ls := FoldHunks(Split(files[path]), hunks).value;
    FoldHunksNewlineFree(Split(files[path]), hunks);
    SplitJoin(ls);
  }

  /** An Add of non-empty, newline-free content writes text that splits back into that
      content; empty content writes the empty text, which splits into one empty line. */
  lemma AddedFileReadsBack(files: Files, path: string, content: seq<string>)
    requires NewlineFree(content)
    ensures content != [] ==> Split(AddFiles(files, path, content)[path]) == content
    ensures content == [] ==> Split(AddFiles(files, path, content)[path]) == [""]
  {
    if content != [] {
      SplitJoin(content);
    }
  }

  // ---------------------------------------------------------------------------------------
  // Every line the parser produces is newline-free

  lemma HunkAtNewlineFree(lines: seq<string>, start: nat)
    requires start < |lines| && NewlineFree(lines) && IsHunkStart(lines[start])
    ensures HunkNewlineFree(HunkAt(lines, start).value)
  {
    HunkAtShape(lines, start);
    var h := HunkAt(lines, start).value;
    forall k | 0 <= k < |h.lines|
      ensures NoNewline(h.lines[k].text)
    {
      var line := lines[start + 1 + k];
      assert NoNewline(line);
      assert h.lines[k].text == line[1..];
    }
  }

  lemma {:induction false} UpdateHunksNewlineFree(lines: seq<string>, i: nat)
    requires i <= |lines| && NewlineFree(lines)
    ensures UpdateHunks(lines, i).Done? ==> HunksNewlineFree(UpdateHunks(lines, i).value.hunks)
    decreases |lines| - i
  {
    if i < |lines| && !IsEnd(lines[i]) {
      if IsHunkStart(lines[i]) {
        var h := HunkAt(lines, i).value;
        if h.endIndex + 1 != i {
          HunkAtNewlineFree(lines, i);
          UpdateHunksNewlineFree(lines, h.endIndex + 1);
          var r := UpdateHunks(lines, h.endIndex + 1);
          if r.Done? {
            assert UpdateHunks(lines, i).value.hunks == [h] + r.value.hunks;
            HunksNewlineFreeCons(h, r.value.hunks);
          } else {
            assert UpdateHunks(lines, i).Hangs?;
          }
        } else {
          assert UpdateHunks(lines, i).Hangs?;
        }
      } else {
        UpdateHunksNewlineFree(lines, i + 1);
        assert UpdateHunks(lines, i) == UpdateHunks(lines, i + 1);
      }
    }
  }

  lemma BlockAtNewlineFree(lines: seq<string>, start: nat)
    requires start <= |lines| && NewlineFree(lines)
    ensures BlockAt(lines, start).Done? && BlockAt(lines, start).value.Some? ==>
      BlockNewlineFree(BlockAt(lines, start).value.value)
  {
    var j := ActionScan(lines, start);
    if j < |lines| && ActionOf(lines[j]).Some? {
      match ActionOf(lines[j]).value.action
      case Delete =>
      case Add =>
        AddLinesNoNewline(lines, j + 1, EndScan(lines, j + 1));
      case Update =>
        UpdateHunksNewlineFree(lines, j + 1);
        var r := UpdateHunks(lines, j + 1);
        if r.Done? {
          var b := BlockAt(lines, start).value.value;
          assert b.hunks == r.value.hunks && b.content == [];
        }
    }
  }

  lemma {:induction false} BlocksFromNewlineFree(lines: seq<string>, i: nat)
    requires i <= |lines| + 1 && NewlineFree(lines)
    ensures BlocksFrom(lines, i).Done? ==> BlocksNewlineFree(BlocksFrom(lines, i).value)
    decreases |lines| + 1 - i
  {
    if i < |lines| {
      if IsBegin(lines[i]) {
        match BlockAt(lines, i + 1)
        case Hangs =>
        case Done(None) =>
          BlocksFromNewlineFree(lines, i + 2);
        case Done(Some(b)) =>
          BlockAtNewlineFree(lines, i + 1);
          BlocksFromNewlineFree(lines, b.endIndex + 1);
          var r := BlocksFrom(lines, b.endIndex + 1);
          if r.Done? {
            BlocksNewlineFreeCons(b, r.value);
            assert BlocksFrom(lines, i) == Done([b] + r.value);
          }
      } else {
        BlocksFromNewlineFree(lines, i + 1);
        assert BlocksFrom(lines, i) == BlocksFrom(lines, i + 1);
      }
    }
  }

  /** No Add content line and no hunk line text of a parsed patch holds a newline. */
  lemma ParsedPatchNewlineFree(text: string)
    ensures PatchOf(text).Done? ==> BlocksNewlineFree(PatchOf(text).value)
  {
    if Strip(text) != [] {
      BlocksFromNewlineFree(Split(text), 0);
    }
  }

  /** For every block of a parsed patch, the file an Add writes splits back into the block's
      content (when it has any), and the file a successful Update writes splits back into the
      lines its hunks produced. */
  lemma ParsedBlockReadsBack(files: Files, text: string, k: nat)
    requires PatchOf(text).Done? && k < |PatchOf(text).value|
    ensures var b := PatchOf(text).value[k];
      && (b.action == Add && b.content != [] ==>
            Split(ApplyBlock(files, b).files[b.filePath]) == b.content)
      && (b.action == Update && UpdateFiles(files, b.filePath, b.hunks).ok ==>
            Split(ApplyBlock(files, b).files[b.filePath])
              == FoldHunks(Split(files[b.filePath]), b.hunks).value)
  {
    ParsedPatchNewlineFree(text);
    var b := PatchOf(text).value[k];
    assert BlockNewlineFree(b);
    if b.action == Add {
      AddedFileReadsBack(files, b.filePath, b.content);
    } else if b.action == Update && UpdateFiles(files, b.filePath, b.hunks).ok {
      UpdatedFileReadsBack(files, b.filePath, b.hunks);
    }
  }
}
