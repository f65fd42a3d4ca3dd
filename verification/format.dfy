/**
  The V4A-style patch format: what a parsed patch is, and what parsing a list of lines
  yields, stated as functions. The loop-based parser in module PatchParser is proved to
  compute exactly these functions; the lemmas at the end state what they promise.
 */
module PatchFormat {
  import opened Lines

  datatype Action = Update | Add | Delete

  /** The one-character prefix of a hunk line: ' ' context, '-' removed, '+' added. */
  datatype Tag = Context | Removed | Added

  datatype HunkLine = HunkLine(tag: Tag, text: string)

  /** A hunk of an Update block; `endIndex` is the index of the hunk's last line as the
      parser reports it (it can be `start - 1`, see `HunkAt`). */
  datatype Hunk = Hunk(header: string, lines: seq<HunkLine>, endIndex: int)

  /** A parsed block; `hunks` is filled only for Update, `content` only for Add, and
      `endIndex` is where the block's scan stopped (an end marker or the end of input). */
  datatype Block = Block(action: Action, filePath: string, hunks: seq<Hunk>,
                         content: seq<string>, endIndex: nat)

  /** The outcome of a parsing loop: a value, or the loop never terminates. */
  datatype Parse<T> = Done(value: T) | Hangs

  /** An action header: the action and the path written after the colon. */
  datatype Header = Header(action: Action, path: string)

  /** The hunks of an Update block and the index at which its scan stopped. */
  datatype HunkScan = HunkScan(hunks: seq<Hunk>, stop: nat)

  const BEGIN_PATCH: string := "*** Begin Patch"
  const END_PATCH: string := "*** End Patch"
  const UPDATE_FILE: string := "*** Update File:"
  const ADD_FILE: string := "*** Add File:"
  const DELETE_FILE: string := "*** Delete File:"

  predicate IsBegin(line: string) { Strip(line) == BEGIN_PATCH }

  predicate IsEnd(line: string) { Strip(line) == END_PATCH }

  /** `line.startswith('@@')`. */
  predicate IsHunkStart(line: string) { |line| >= 2 && line[0] == '@' && line[1] == '@' }

  /** The action header a line carries, if any; the three markers are tried in the order
      Update, Add, Delete on the stripped line, and the path is the stripped rest. */
  function ActionOf(line: string): Option<Header> {
    var t := Strip(line);
    if StartsWith(t, UPDATE_FILE) then Some(Header(Update, Strip(t[|UPDATE_FILE|..])))
    else if StartsWith(t, ADD_FILE) then Some(Header(Add, Strip(t[|ADD_FILE|..])))
    else if StartsWith(t, DELETE_FILE) then Some(Header(Delete, Strip(t[|DELETE_FILE|..])))
    else None
  }

  /** The tag of a hunk line, from its first character; `None` for any other line. */
  function TagOf(line: string): Option<Tag> {
    if line == [] then None
    else if line[0] == ' ' then Some(Context)
    else if line[0] == '-' then Some(Removed)
    else if line[0] == '+' then Some(Added)
    else None
  }

  /** The first index at or after `i` holding an action header or an end marker
      (`|lines|` if there is none). */
  function ActionScan(lines: seq<string>, i: nat): (j: nat)
    requires i <= |lines|
    ensures i <= j <= |lines|
    decreases |lines| - i
  {
    if i == |lines| || ActionOf(lines[i]).Some? || IsEnd(lines[i]) then i
    else ActionScan(lines, i + 1)
  }

  /** ActionScan finds the first action header or end marker. */
  lemma {:induction false} ActionScanSpec(lines: seq<string>, i: nat)
    requires i <= |lines|
    ensures var j := ActionScan(lines, i);
      && (forall k :: i <= k < j ==> ActionOf(lines[k]).None? && !IsEnd(lines[k]))
      && (j < |lines| ==> ActionOf(lines[j]).Some? || IsEnd(lines[j]))
    decreases |lines| - i
  {
    if i < |lines| && ActionOf(lines[i]).None? && !IsEnd(lines[i]) {
      ActionScanSpec(lines, i + 1);
    }
  }

  /** The first index at or after `i` holding an end marker (`|lines|` if there is none). */
  function EndScan(lines: seq<string>, i: nat): (j: nat)
    requires i <= |lines|
    ensures i <= j <= |lines|
    decreases |lines| - i
  {
    if i == |lines| || IsEnd(lines[i]) then i else EndScan(lines, i + 1)
  }

  /** EndScan finds the first end marker. */
  lemma {:induction false} EndScanSpec(lines: seq<string>, i: nat)
    requires i <= |lines|
    ensures var j := EndScan(lines, i);
      && (forall k :: i <= k < j ==> !IsEnd(lines[k]))
      && (j < |lines| ==> IsEnd(lines[j]))
    decreases |lines| - i
  {
    if i < |lines| && !IsEnd(lines[i]) {
      EndScanSpec(lines, i + 1);
    }
  }

  /** The content of an Add block whose body is `lines[i..e]`: each line that starts with '+',
      without that first character, in order; every other line is dropped. */
  function AddLines(lines: seq<string>, i: nat, e: nat): seq<string>
    requires i <= e <= |lines|
    decreases e - i
  {
    if i == e then []
    else (if lines[i] != [] && lines[i][0] == '+' then [lines[i][1..]] else []) + AddLines(lines, i + 1, e)
  }

  /** The first index at or after `i` that ends a hunk's body: an end marker, a line starting
      with "@@", or a line that is not a hunk line (`|lines|` if there is none). */
  function HunkStop(lines: seq<string>, i: nat): (k: nat)
    requires i <= |lines|
    ensures i <= k <= |lines|
    ensures forall m :: i <= m < k ==> TagOf(lines[m]).Some?
    decreases |lines| - i
  {
    if i == |lines| || IsEnd(lines[i]) || IsHunkStart(lines[i]) || TagOf(lines[i]).None? then i
    else HunkStop(lines, i + 1)
  }

  /** HunkStop finds the first line that ends a hunk's body. */
  lemma {:induction false} HunkStopSpec(lines: seq<string>, i: nat)
    requires i <= |lines|
    ensures var k := HunkStop(lines, i);
      && (forall m :: i <= m < k ==> !IsEnd(lines[m]) && !IsHunkStart(lines[m]))
      && (k < |lines| ==> IsEnd(lines[k]) || IsHunkStart(lines[k]) || TagOf(lines[k]).None?)
    decreases |lines| - i
  {
    if i < |lines| && !IsEnd(lines[i]) && !IsHunkStart(lines[i]) && TagOf(lines[i]).Some? {
      HunkStopSpec(lines, i + 1);
    }
  }

  /** A tagged line as the parser records it: its tag and the text after the first character. */
  function ToHunkLine(line: string): HunkLine
    requires TagOf(line).Some?
  {
    HunkLine(TagOf(line).value, line[1..])
  }

  /** The tagged lines `lines[i..k]` as hunk lines, in order. */
  function HunkLines(lines: seq<string>, i: nat, k: nat): (body: seq<HunkLine>)
    requires i <= k <= |lines|
    requires forall m :: i <= m < k ==> TagOf(lines[m]).Some?
    ensures |body| == k - i
    decreases k - i
  {
    if i == k then [] else [ToHunkLine(lines[i])] + HunkLines(lines, i + 1, k)
  }

  lemma {:induction false} HunkLinesAt(lines: seq<string>, i: nat, k: nat, m: nat)
    requires i <= k <= |lines|
    requires forall m :: i <= m < k ==> TagOf(lines[m]).Some?
    requires i <= m < k
    ensures HunkLines(lines, i, k)[m - i] == ToHunkLine(lines[m])
    decreases k - i
  {
    if m > i {
      HunkLinesAt(lines, i + 1, k, m);
    }
  }

  /** The hunk that starts at `lines[start]`: none unless that line starts with "@@". Its end
      index never lies past the input, and never more than one line before `start`; the
      lemma HunkAtShape states the rest. */
  function HunkAt(lines: seq<string>, start: nat): (r: Option<Hunk>)
    requires start < |lines|
    ensures r.Some? <==> IsHunkStart(lines[start])
    ensures r.Some? ==> start - 1 <= r.value.endIndex < |lines|
  {
    if !IsHunkStart(lines[start]) then None
    else
      var k := HunkStop(lines, start + 1);
      var endIndex := if k < |lines| && !IsEnd(lines[k]) && IsHunkStart(lines[k]) then k - 2 else k - 1;
      Some(Hunk(Strip(lines[start][2..]), HunkLines(lines, start + 1, k), endIndex))
  }

  /** A hunk's header is the stripped text after "@@"; its lines are, in order, the tagged
      lines that follow, each as its tag and the text after its first character; the line
      after them ends the hunk (an end marker, a "@@" line, any other untagged line, or the
      end of input). When that line is a "@@" line the reported end index is one less than
      that of the last hunk line, so it is `start - 1` exactly when a "@@" line directly
      follows the hunk's own. */
  lemma HunkAtShape(lines: seq<string>, start: nat)
    requires start < |lines| && IsHunkStart(lines[start])
    ensures var h := HunkAt(lines, start).value;
      && h.header == Strip(lines[start][2..])
      && start + 1 + |h.lines| <= |lines|
      && (forall m :: 0 <= m < |h.lines| ==>
            TagOf(lines[start + 1 + m]).Some? && h.lines[m] == ToHunkLine(lines[start + 1 + m]))
      && (var k := start + 1 + |h.lines|;
          k < |lines| ==> IsEnd(lines[k]) || IsHunkStart(lines[k]) || TagOf(lines[k]).None?)
      && (h.endIndex == start - 1 <==>
            start + 1 < |lines| && !IsEnd(lines[start + 1]) && IsHunkStart(lines[start + 1]))
  {
    var k := HunkStop(lines, start + 1);
    HunkStopSpec(lines, start + 1);
    forall m | start + 1 <= m < k
      ensures HunkLines(lines, start + 1, k)[m - (start + 1)] == ToHunkLine(lines[m])
    {
      HunkLinesAt(lines, start + 1, k, m);
    }
  }

  /** The hunks of an Update block whose body starts at `i`: lines other than "@@" lines are
      skipped, each "@@" line starts a hunk and the scan resumes after the hunk's end index,
      and the scan stops at an end marker or at the end of input. If a hunk's end index does
      not move the scan forward, the same hunk is parsed again for ever: `Hangs`. */
  function UpdateHunks(lines: seq<string>, i: nat): (r: Parse<HunkScan>)
    requires i <= |lines|
    ensures r.Done? ==> i <= r.value.stop <= |lines|
    ensures r.Done? ==> r.value.stop == |lines| || IsEnd(lines[r.value.stop])
    decreases |lines| - i
  {
    if i == |lines| || IsEnd(lines[i]) then Done(HunkScan([], i))
    else if IsHunkStart(lines[i]) then
      var h := HunkAt(lines, i).value;
      if h.endIndex + 1 == i then Hangs
      else
        match UpdateHunks(lines, h.endIndex + 1)
        case Hangs => Hangs
        case Done(rest) => Done(HunkScan([h] + rest.hunks, rest.stop))
    else UpdateHunks(lines, i + 1)
  }

  /** The block whose body starts at `lines[start]` (just after a begin marker): none if an end
      marker or the end of input comes before any action header; otherwise the block the first
      action header announces, with its body parsed up to the next end marker. */
  function BlockAt(lines: seq<string>, start: nat): (r: Parse<Option<Block>>)
    requires start <= |lines|
    ensures r.Done? && r.value.Some? ==> start < r.value.value.endIndex <= |lines|
  {
    var j := ActionScan(lines, start);
    if j == |lines| || ActionOf(lines[j]).None? then Done(None)
    else
      var hd := ActionOf(lines[j]).value;
      match hd.action
      case Delete => Done(Some(Block(Delete, hd.path, [], [], EndScan(lines, j + 1))))
      case Add =>
        var e := EndScan(lines, j + 1);
        Done(Some(Block(Add, hd.path, [], AddLines(lines, j + 1, e), e)))
      case Update =>
        match UpdateHunks(lines, j + 1)
        case Hangs => Hangs
        case Done(s) => Done(Some(Block(Update, hd.path, s.hunks, [], s.stop)))
  }

  /** The blocks found from line `i` on: each begin marker starts a block; after a block the
      scan resumes past its end index, after a dropped segment two lines past the marker. */
  function BlocksFrom(lines: seq<string>, i: nat): (r: Parse<seq<Block>>)
    requires i <= |lines| + 1
    decreases |lines| + 1 - i
  {
    if i >= |lines| then Done([])
    else if IsBegin(lines[i]) then
      match BlockAt(lines, i + 1)
      case Hangs => Hangs
      case Done(None) => BlocksFrom(lines, i + 2)
      case Done(Some(b)) =>
        match BlocksFrom(lines, b.endIndex + 1)
        case Hangs => Hangs
        case Done(bs) => Done([b] + bs)
    else BlocksFrom(lines, i + 1)
  }

  /** The blocks of a patch text: none for blank text, else those of its lines. */
  function PatchOf(text: string): Parse<seq<Block>> {
    if Strip(text) == [] then Done([]) else BlocksFrom(Split(text), 0)
  }
}
