/**
  Applying a parsed patch to the files under the base directory: `apply_patch`,
  `_apply_update`, `_apply_add` and `_apply_delete`. The directory is a map from path to file
  text that the methods of `Applier` update in place; each method is proved to leave the map
  the corresponding function of this module computes from the old one.
 */
module PatchApplier {
  import opened Lines
  import opened PatchFormat
  import opened HunkApply
  import opened PatchParser

  /** The files under the base directory: path to text. */
  type Files = map<string, string>

  /** The messages `apply_patch` reports, one pair per action. */
  datatype Message = UpdatedOk | UpdateFailed | AddedOk | AddFailed | DeletedOk | DeleteFailed

  /** One entry of `apply_patch`'s result: the block's path, whether it applied, the message. */
  datatype Outcome = Outcome(path: string, success: bool, message: Message)

  /** The files after one operation, and whether the operation reports success. */
  datatype Applied = Applied(files: Files, ok: bool)

  /** The files after a run of blocks, and the outcomes reported so far. */
  datatype Run = Run(files: Files, outcomes: seq<Outcome>)

  /** The message reported for an action that succeeded or failed. */
  function MessageOf(action: Action, ok: bool): (m: Message)
    ensures m in {UpdatedOk, AddedOk, DeletedOk} <==> ok
  {
    match action
    case Update => if ok then UpdatedOk else UpdateFailed
    case Add => if ok then AddedOk else AddFailed
    case Delete => if ok then DeletedOk else DeleteFailed
  }

  /** `_apply_update`: a missing file fails; otherwise the hunks are applied, last first, to
      the file's lines, and only when all of them apply is the file rewritten. */
  function UpdateFiles(files: Files, path: string, hunks: seq<Hunk>): Applied {
    if path !in files then Applied(files, false)
    else match FoldHunks(Split(files[path]), hunks)
      case None => Applied(files, false)
      case Some(ls) => Applied(files[path := Join(ls)], true)
  }

  /** `_apply_add`: the file is written (created or overwritten) with the content lines. */
  function AddFiles(files: Files, path: string, content: seq<string>): Files {
    files[path := Join(content)]
  }

  /** `_apply_delete`: an existing file is removed; a missing one fails. */
  function DeleteFiles(files: Files, path: string): Applied {
    if path in files then Applied(files - {path}, true) else Applied(files, false)
  }

  /** One block of `apply_patch`: the files after it and the outcome it reports. */
  function ApplyBlock(files: Files, b: Block): Run {
    match b.action
    case Update =>
      var a := UpdateFiles(files, b.filePath, b.hunks);
      Run(a.files, [Outcome(b.filePath, a.ok, MessageOf(Update, a.ok))])
    case Add =>
      Run(AddFiles(files, b.filePath, b.content), [Outcome(b.filePath, true, MessageOf(Add, true))])
    case Delete =>
      var a := DeleteFiles(files, b.filePath);
      Run(a.files, [Outcome(b.filePath, a.ok, MessageOf(Delete, a.ok))])
  }

  /** The blocks applied in order, each to the files the previous ones left. */
  function ApplyBlocks(files: Files, bs: seq<Block>): (r: Run)
    ensures |r.outcomes| == |bs|
    decreases |bs|
  {
    if bs == [] then Run(files, [])
    else
      var first := ApplyBlock(files, bs[0]);
      var rest := ApplyBlocks(first.files, bs[1..]);
      Run(rest.files, first.outcomes + rest.outcomes)
  }

  /** `apply_patch`: parse, then apply every block. A patch whose parse never ends never gets
      to touch a file. */
  function ApplyPatchSpec(files: Files, text: string): (Files, Parse<seq<Outcome>>) {
    match PatchOf(text)
    case Hangs => (files, Hangs)
    case Done(bs) =>
      var run := ApplyBlocks(files, bs);
      (run.files, Done(run.outcomes))
  }

  /** The outcomes reported so far, put in front of those of the remaining blocks. */
  function PrefixRun(outcomes: seq<Outcome>, r: Run): Run {
    Run(r.files, outcomes + r.outcomes)
  }

  /** One step of the block loop. */
  lemma ApplyBlocksStep(files: Files, bs: seq<Block>, i: nat)
    requires i < |bs|
    ensures var first := ApplyBlock(files, bs[i]);
      ApplyBlocks(files, bs[i..]) == PrefixRun(first.outcomes, ApplyBlocks(first.files, bs[i + 1..]))
  {
    assert bs[i..][0] == bs[i];
    assert bs[i..][1..] == bs[i + 1..];
  }

  /** `PatchApplier` working on the files under its base directory. */
  class Applier {
    var files: Files

    constructor (initial: Files)
      ensures files == initial
    {
      files := initial;
    }

    /** `_apply_update(file_path, hunks)`. */
    method ApplyUpdate(path: string, hunks: seq<Hunk>) returns (ok: bool)
      modifies this
      ensures Applied(files, ok) == UpdateFiles(old(files), path, hunks)
    {
      if path !in files {
        return false;
      }
      var lines := Split(files[path]);
      var r := ApplyHunks(lines, hunks);
      if r.None? {
        return false;
      }
      files := files[path := Join(r.value)];
      ok := true;
    }

    /** `_apply_add(file_path, content)`. */
    method ApplyAdd(path: string, content: seq<string>) returns (ok: bool)
      modifies this
      ensures ok && files == AddFiles(old(files), path, content)
    {
      files := files[path := Join(content)];
      ok := true;
    }

    /** `_apply_delete(file_path)`. */
    method ApplyDelete(path: string) returns (ok: bool)
      modifies this
      ensures Applied(files, ok) == DeleteFiles(old(files), path)
    {
      if path in files {
        files := files - {path};
        return true;
      }
      return false;
    }

    /** The body of `apply_patch`'s loop for one block. */
    method ApplyOne(b: Block) returns (o: Outcome)
      modifies this
      ensures Run(files, [o]) == ApplyBlock(old(files), b)
    {
      var ok: bool;
      match b.action {
        case Update => ok := ApplyUpdate(b.filePath, b.hunks);
        case Add => ok := ApplyAdd(b.filePath, b.content);
        case Delete => ok := ApplyDelete(b.filePath);
      }
      o := Outcome(b.filePath, ok, MessageOf(b.action, ok));
    }

    /** `apply_patch`'s loop over the parsed blocks. */
    method ApplyAll(blocks: seq<Block>) returns (outcomes: seq<Outcome>)
      modifies this
      ensures Run(files, outcomes) == ApplyBlocks(old(files), blocks)
    {
      outcomes := [];
      var i := 0;
      while i < |blocks|
        invariant 0 <= i <= |blocks|
        invariant ApplyBlocks(old(files), blocks) == PrefixRun(outcomes, ApplyBlocks(files, blocks[i..]))
      {
        ApplyBlocksStep(files, blocks, i);
        var o := ApplyOne(blocks[i]);
        assert outcomes + ([o] + ApplyBlocks(files, blocks[i + 1..]).outcomes)
            == (outcomes + [o]) + ApplyBlocks(files, blocks[i + 1..]).outcomes;
        outcomes := outcomes + [o];
        i := i + 1;
      }
      assert blocks[i..] == [];
      assert outcomes + [] == outcomes;
    }

    /** `apply_patch(patch_text)`: parse the whole patch, then apply its blocks in order. */
    method ApplyPatch(text: string) returns (r: Parse<seq<Outcome>>)
      modifies this
      ensures (files, r) == ApplyPatchSpec(old(files), text)
    {
      var parsed := ParsePatch(text);
      if parsed.Hangs? {
        // the source never returns from parsing; no file has been touched
        return Hangs;
      }
      var outcomes := ApplyAll(parsed.value);
      r := Done(outcomes);
    }
  }
}
