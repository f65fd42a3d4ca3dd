/**
  Applying one hunk to the lines of a file (`_apply_hunk_to_lines` and `_find_hunk_location`)
  and folding the hunks of an Update block over them (the loop of `_apply_update`). The
  functions state what applying computes; the methods are the index loops of the source,
  each proved to compute its function; the lemmas state what the functions promise.
 */
module HunkApply {
  import opened Lines
  import opened PatchFormat

  // ---------------------------------------------------------------------------------------
  // The anchor: a line equal to the header, else the first match of the leading context run

  /** The first index at or after `i` whose line strips to the same text as `target`. */
  function FirstStripEqual(lines: seq<string>, target: string, i: nat): (r: Option<nat>)
    requires i <= |lines|
    ensures r.Some? ==> i <= r.value < |lines|
    decreases |lines| - i
  {
    if i == |lines| then None
    else if Strip(lines[i]) == Strip(target) then Some(i)
    else FirstStripEqual(lines, target, i + 1)
  }

  /** FirstStripEqual finds the first line equal to the target under strip, or reports that
      there is none. */
  lemma {:induction false} FirstStripEqualSpec(lines: seq<string>, target: string, i: nat)
    requires i <= |lines|
    ensures match FirstStripEqual(lines, target, i)
      case Some(m) =>
        && Strip(lines[m]) == Strip(target)
        && (forall p :: i <= p < m ==> Strip(lines[p]) != Strip(target))
      case None => forall p :: i <= p < |lines| ==> Strip(lines[p]) != Strip(target)
    decreases |lines| - i
  {
    if i < |lines| && Strip(lines[i]) != Strip(target) {
      FirstStripEqualSpec(lines, target, i + 1);
    }
  }

  /** The first file line that strips to the stripped header. */
  function HeaderLocation(lines: seq<string>, header: string): (r: Option<nat>)
    ensures r.Some? ==> r.value < |lines|
  {
    FirstStripEqual(lines, header, 0)
  }

  /** The first index at or after `i` of a line tagged `Added` (`|hls|` if there is none). */
  function RunEnd(hls: seq<HunkLine>, i: nat): (e: nat)
    requires i <= |hls|
    ensures i <= e <= |hls|
    decreases |hls| - i
  {
    if i == |hls| || hls[i].tag == Added then i else RunEnd(hls, i + 1)
  }

  /** The texts of the first `j` hunk lines, in order. */
  function LineTexts(hls: seq<HunkLine>, j: nat): (ts: seq<string>)
    requires j <= |hls|
    ensures |ts| == j
  {
    if j == 0 then [] else LineTexts(hls, j - 1) + [hls[j - 1].text]
  }

  lemma {:induction false} LineTextsAt(hls: seq<HunkLine>, j: nat, k: nat)
    requires k < j <= |hls|
    ensures LineTexts(hls, j)[k] == hls[k].text
  {
    if k < j - 1 {
      LineTextsAt(hls, j - 1, k);
    }
  }

  /** The texts of the leading run of context and removed lines, cut at the first added line:
      what `_find_hunk_location` searches the file for. */
  function ContextRun(hls: seq<HunkLine>): seq<string> {
    LineTexts(hls, RunEnd(hls, 0))
  }

  /** The context run holds, in order, the texts of the hunk lines before the first added
      line, and none of those lines is an added line. */
  lemma ContextRunSpec(hls: seq<HunkLine>)
    ensures var e := RunEnd(hls, 0);
      && |ContextRun(hls)| == e
      && (forall k :: 0 <= k < e ==> hls[k].tag != Added && ContextRun(hls)[k] == hls[k].text)
      && (e < |hls| ==> hls[e].tag == Added)
  {
    var e := RunEnd(hls, 0);
    RunEndSpec(hls, 0);
    forall k | 0 <= k < e
      ensures ContextRun(hls)[k] == hls[k].text
    {
      LineTextsAt(hls, e, k);
    }
  }

  lemma {:induction false} RunEndSpec(hls: seq<HunkLine>, i: nat)
    requires i <= |hls|
    ensures forall k :: i <= k < RunEnd(hls, i) ==> hls[k].tag != Added
    ensures RunEnd(hls, i) < |hls| ==> hls[RunEnd(hls, i)].tag == Added
    decreases |hls| - i
  {
    if i < |hls| && hls[i].tag != Added {
      RunEndSpec(hls, i + 1);
    }
  }

  /** The lines of the file from `i` on equal `ctx` line by line, under strip. */
  predicate MatchesAt(lines: seq<string>, ctx: seq<string>, i: nat) {
    && i + |ctx| <= |lines|
    && forall j :: 0 <= j < |ctx| ==> Strip(lines[i + j]) == Strip(ctx[j])
  }

  /** The first index at or after `i` at which `ctx` matches. */
  function FirstMatch(lines: seq<string>, ctx: seq<string>, i: nat): (r: Option<nat>)
    ensures r.Some? ==> i <= r.value && r.value + |ctx| <= |lines|
    decreases |lines| - i
  {
    if i + |ctx| > |lines| then None
    else if MatchesAt(lines, ctx, i) then Some(i)
    else FirstMatch(lines, ctx, i + 1)
  }

  /** FirstMatch finds the lowest index at which `ctx` matches, or reports that it matches
      nowhere. */
  lemma {:induction false} FirstMatchSpec(lines: seq<string>, ctx: seq<string>, i: nat)
    ensures match FirstMatch(lines, ctx, i)
      case Some(m) => MatchesAt(lines, ctx, m) && forall p :: i <= p < m ==> !MatchesAt(lines, ctx, p)
      case None => forall p :: i <= p ==> !MatchesAt(lines, ctx, p)
    decreases |lines| - i
  {
    if i + |ctx| <= |lines| && !MatchesAt(lines, ctx, i) {
      FirstMatchSpec(lines, ctx, i + 1);
    }
  }

  /** `_find_hunk_location`: where the context run first matches; none if the run is empty. */
  function ContextLocation(lines: seq<string>, hls: seq<HunkLine>): (r: Option<nat>)
    ensures r.Some? ==> r.value < |lines|
  {
    var ctx := ContextRun(hls);
    if ctx == [] then None else FirstMatch(lines, ctx, 0)
  }

  /** The line a hunk is anchored at: the first line equal to its header, failing that the
      first match of its context run. */
  function Anchor(lines: seq<string>, h: Hunk): (r: Option<nat>)
    ensures r.Some? ==> r.value < |lines|
  {
    match HeaderLocation(lines, h.header)
    case Some(m) => Some(m)
    case None => ContextLocation(lines, h.lines)
  }

  /** The anchor is the first line equal to the header under strip. Only when no line is, it
      is the lowest index at which the non-empty context run matches; with an empty run or no
      match there is no anchor. */
  lemma AnchorSpec(lines: seq<string>, h: Hunk)
    ensures HeaderLocation(lines, h.header).Some? ==>
      var m := Anchor(lines, h).value;
      && Strip(lines[m]) == Strip(h.header)
      && (forall p :: 0 <= p < m ==> Strip(lines[p]) != Strip(h.header))
    ensures HeaderLocation(lines, h.header).None? ==>
      && (forall p :: 0 <= p < |lines| ==> Strip(lines[p]) != Strip(h.header))
      && match Anchor(lines, h)
         case Some(m) =>
           && ContextRun(h.lines) != []
           && MatchesAt(lines, ContextRun(h.lines), m)
           && (forall p :: 0 <= p < m ==> !MatchesAt(lines, ContextRun(h.lines), p))
         case None =>
           ContextRun(h.lines) == [] || forall p :: !MatchesAt(lines, ContextRun(h.lines), p)
  {
    FirstStripEqualSpec(lines, h.header, 0);
    FirstMatchSpec(lines, ContextRun(h.lines), 0);
  }

  // ---------------------------------------------------------------------------------------
  // The partition of the hunk lines and the splice

  /** The four lists `_apply_hunk_to_lines` builds from a hunk. */
  datatype Parts = Parts(before: seq<string>, removed: seq<string>, added: seq<string>,
                         after: seq<string>)

  /** The first index at or after `i` of a line that is not a context line. */
  function FirstChange(hls: seq<HunkLine>, i: nat): (f: nat)
    requires i <= |hls|
    ensures i <= f <= |hls|
    decreases |hls| - i
  {
    if i == |hls| || hls[i].tag != Context then i else FirstChange(hls, i + 1)
  }

  lemma {:induction false} FirstChangeSpec(hls: seq<HunkLine>, i: nat)
    requires i <= |hls|
    ensures forall k :: i <= k < FirstChange(hls, i) ==> hls[k].tag == Context
    ensures FirstChange(hls, i) < |hls| ==> hls[FirstChange(hls, i)].tag != Context
    decreases |hls| - i
  {
    if i < |hls| && hls[i].tag == Context {
      FirstChangeSpec(hls, i + 1);
    }
  }

  /** The texts of the lines tagged `t` among `hls[i..j]`, in order. */
  function Texts(hls: seq<HunkLine>, t: Tag, i: nat, j: nat): seq<string>
    requires i <= j <= |hls|
    decreases j - i
  {
    if i == j then []
    else Texts(hls, t, i, j - 1) + (if hls[j - 1].tag == t then [hls[j - 1].text] else [])
  }

  /** Context lines before the first removed or added line form the context before the change,
      the later ones the context after it; removed and added lines keep their order. */
  function Partition(hls: seq<HunkLine>): Parts {
    var f := FirstChange(hls, 0);
    Parts(Texts(hls, Context, 0, f), Texts(hls, Removed, 0, |hls|),
          Texts(hls, Added, 0, |hls|), Texts(hls, Context, f, |hls|))
  }

  lemma {:induction false} TextsConcat(hls: seq<HunkLine>, t: Tag, i: nat, j: nat, k: nat)
    requires i <= j <= k <= |hls|
    ensures Texts(hls, t, i, k) == Texts(hls, t, i, j) + Texts(hls, t, j, k)
    decreases k - j
  {
    if j < k {
      TextsConcat(hls, t, i, j, k - 1);
    }
  }

  lemma {:induction false} TextsCount(hls: seq<HunkLine>, i: nat, j: nat)
    requires i <= j <= |hls|
    ensures |Texts(hls, Context, i, j)| + |Texts(hls, Removed, i, j)| + |Texts(hls, Added, i, j)|
         == j - i
    decreases j - i
  {
    if i < j {
      TextsCount(hls, i, j - 1);
    }
  }

  /** The partition loses no line and moves no line across another of its kind: the context
      before followed by the context after is every context text in order, and the four parts
      together are as long as the hunk. Every context line before the first change is context
      before; a hunk without changes has no context after. */
  lemma PartitionSpec(hls: seq<HunkLine>)
    ensures var p := Partition(hls);
      && p.before + p.after == Texts(hls, Context, 0, |hls|)
      && |p.before| + |p.removed| + |p.added| + |p.after| == |hls|
      && |p.before| == FirstChange(hls, 0)
      && (FirstChange(hls, 0) == |hls| ==> p.after == [] && p.removed == [] && p.added == [])
  {
    var f := FirstChange(hls, 0);
    TextsConcat(hls, Context, 0, f, |hls|);
    TextsConcat(hls, Removed, 0, f, |hls|);
    TextsConcat(hls, Added, 0, f, |hls|);
    TextsCount(hls, 0, |hls|);
    TextsCount(hls, f, |hls|);
    FirstChangeSpec(hls, 0);
    AllContextTexts(hls, 0, f);
  }

  /** Among context lines only, the removed and added texts are empty and every line counts. */
  lemma {:induction false} AllContextTexts(hls: seq<HunkLine>, i: nat, j: nat)
    requires i <= j <= |hls|
    requires forall k :: i <= k < j ==> hls[k].tag == Context
    ensures |Texts(hls, Context, i, j)| == j - i
    ensures Texts(hls, Removed, i, j) == [] && Texts(hls, Added, i, j) == []
    decreases j - i
  {
    if i < j {
      AllContextTexts(hls, i, j - 1);
    }
  }

  /** Where the replaced region starts: the anchor is taken as the last line of the context
      before, clamped at the top of the file. */
  function StartIndex(m: nat, nBefore: nat): (s: nat)
    ensures s <= m + 1
    ensures nBefore <= m + 1 ==> s + nBefore == m + 1
  {
    if m - nBefore + 1 < 0 then 0 else m - nBefore + 1
  }

  /** Python's `lines[k:]`, empty once `k` is past the end. */
  function Tail(lines: seq<string>, k: nat): seq<string> {
    if k >= |lines| then [] else lines[k..]
  }

  /** `lines[:start]`, then the context before, the added lines and the context after, then
      the file from just past the region the context and removed lines span. */
  function Splice(lines: seq<string>, start: nat, p: Parts): seq<string>
    requires start <= |lines|
  {
    lines[..start] + p.before + p.added + p.after
      + Tail(lines, start + |p.before| + |p.removed| + |p.after|)
  }

  /** `_apply_hunk_to_lines`: none without an anchor, otherwise the splice at the start the
      anchor gives. */
  function ApplyHunk(lines: seq<string>, h: Hunk): Option<seq<string>> {
    match Anchor(lines, h)
    case None => None
    case Some(m) =>
      var p := Partition(h.lines);
      Some(Splice(lines, StartIndex(m, |p.before|), p))
  }

  /** A splice keeps the file above the region and below it: the first `start` lines are
      untouched, the region holds the context before, the added lines and the context after,
      and what follows is the file from past the context and removed lines. When that region
      lies inside the file, the file grows by the added lines and shrinks by the removed
      ones; otherwise the result ends with the region. */
  lemma SpliceFrame(lines: seq<string>, start: nat, p: Parts)
    requires start <= |lines|
    ensures var out := Splice(lines, start, p);
      var mid := |p.before| + |p.added| + |p.after|;
      var region := |p.before| + |p.removed| + |p.after|;
      && start + mid <= |out|
      && out[..start] == lines[..start]
      && out[start..start + mid] == p.before + p.added + p.after
      && (start + region <= |lines| ==>
            && out[start + mid..] == lines[start + region..]
            && |out| == |lines| - |p.removed| + |p.added|)
      && (start + region > |lines| ==> |out| == start + mid)
  {
    var mid := p.before + p.added + p.after;
    var tail := Tail(lines, start + |p.before| + |p.removed| + |p.after|);
    var out := lines[..start] + mid + tail;
    assert Splice(lines, start, p) == out;
    assert out[..start] == lines[..start];
    assert out[start..start + |mid|] == mid;
    assert out[start + |mid|..] == tail;
  }

  /** Applying a hunk keeps the file above the replaced region and below it, and the region
      holds the context before, the added lines and the context after. When the region the
      context and removed lines span lies inside the file, the file grows by the added lines
      and shrinks by the removed ones. */
  lemma ApplyHunkFrame(lines: seq<string>, h: Hunk)
    requires Anchor(lines, h).Some?
    ensures var p := Partition(h.lines);
      var start := StartIndex(Anchor(lines, h).value, |p.before|);
      var out := ApplyHunk(lines, h).value;
      var mid := |p.before| + |p.added| + |p.after|;
      var region := |p.before| + |p.removed| + |p.after|;
      && start <= |lines| && start + mid <= |out|
      && out[..start] == lines[..start]
      && out[start..start + mid] == p.before + p.added + p.after
      && (start + region <= |lines| ==>
            && out[start + mid..] == lines[start + region..]
            && |out| == |lines| - |p.removed| + |p.added|)
  {
    var p := Partition(h.lines);
    SpliceFrame(lines, StartIndex(Anchor(lines, h).value, |p.before|), p);
  }

  /** Two hunks with the same header that differ only in the text of their removed lines apply
      alike whenever a line equals the header: the removed text is never compared with the
      file. */
  lemma RemovedTextIgnored(lines: seq<string>, h1: Hunk, h2: Hunk)
    requires h1.header == h2.header && |h1.lines| == |h2.lines|
    requires forall k :: 0 <= k < |h1.lines| ==>
      && h1.lines[k].tag == h2.lines[k].tag
      && (h1.lines[k].tag != Removed ==> h1.lines[k].text == h2.lines[k].text)
    requires HeaderLocation(lines, h1.header).Some?
    ensures ApplyHunk(lines, h1) == ApplyHunk(lines, h2)
  {
    var a, b := h1.lines, h2.lines;
    SameTagsSameChange(a, b, 0);
    var f := FirstChange(a, 0);
    SameTexts(a, b, Context, 0, f);
    SameTexts(a, b, Context, f, |a|);
    SameTexts(a, b, Added, 0, |a|);
    SameCount(a, b, 0, |a|);
  }

  lemma {:induction false} SameTagsSameChange(a: seq<HunkLine>, b: seq<HunkLine>, i: nat)
    requires |a| == |b| && i <= |a|
    requires forall k :: 0 <= k < |a| ==> a[k].tag == b[k].tag
    ensures FirstChange(a, i) == FirstChange(b, i)
    decreases |a| - i
  {
    if i < |a| && a[i].tag == Context {
      SameTagsSameChange(a, b, i + 1);
    }
  }

  lemma {:induction false} SameTexts(a: seq<HunkLine>, b: seq<HunkLine>, t: Tag, i: nat, j: nat)
    requires |a| == |b| && i <= j <= |a| && t != Removed
    requires forall k :: 0 <= k < |a| ==>
      a[k].tag == b[k].tag && (a[k].tag != Removed ==> a[k].text == b[k].text)
    ensures Texts(a, t, i, j) == Texts(b, t, i, j)
    decreases j - i
  {
    if i < j {
      SameTexts(a, b, t, i, j - 1);
    }
  }

  lemma {:induction false} SameCount(a: seq<HunkLine>, b: seq<HunkLine>, i: nat, j: nat)
    requires |a| == |b| && i <= j <= |a|
    requires forall k :: 0 <= k < |a| ==> a[k].tag == b[k].tag
    ensures |Texts(a, Removed, i, j)| == |Texts(b, Removed, i, j)|
    decreases j - i
  {
    if i < j {
      SameCount(a, b, i, j - 1);
    }
  }

  // ---------------------------------------------------------------------------------------
  // The hunks of an Update block, applied last to first

  /** The loop of `_apply_update`: the hunks are applied in reverse document order, each to
      the result of the previous one; the first failure fails the whole fold. */
  function FoldHunks(lines: seq<string>, hunks: seq<Hunk>): Option<seq<string>>
    decreases |hunks|
  {
    if hunks == [] then Some(lines)
    else
      match ApplyHunk(lines, hunks[|hunks| - 1])
      case None => None
      case Some(next) => FoldHunks(next, hunks[..|hunks| - 1])
  }

  /** Folding `first + last` applies the hunks of `last` before those of `first`. */
  lemma {:induction false} FoldHunksAppend(lines: seq<string>, first: seq<Hunk>, last: seq<Hunk>)
    ensures FoldHunks(lines, first + last) ==
      match FoldHunks(lines, last)
      case None => None
      case Some(mid) => FoldHunks(mid, first)
    decreases |last|
  {
    var all := first + last;
    if last == [] {
      assert all == first;
    } else {
      assert all[..|all| - 1] == first + last[..|last| - 1];
      assert all[|all| - 1] == last[|last| - 1];
      FoldHunksStep(lines, all);
      FoldHunksStep(lines, last);
      var next := ApplyHunk(lines, last[|last| - 1]);
      if next.Some? {
        FoldHunksAppend(next.value, first, last[..|last| - 1]);
      }
    }
  }

  /** One step of the fold: the last hunk first. */
  lemma FoldHunksStep(lines: seq<string>, hunks: seq<Hunk>)
    requires hunks != []
    ensures ApplyHunk(lines, hunks[|hunks| - 1]).None? ==> FoldHunks(lines, hunks).None?
    ensures ApplyHunk(lines, hunks[|hunks| - 1]).Some? ==>
      FoldHunks(lines, hunks)
        == FoldHunks(ApplyHunk(lines, hunks[|hunks| - 1]).value, hunks[..|hunks| - 1])
  {
  }

  /** With no hunks the lines are returned as they are. */
  lemma FoldNoHunks(lines: seq<string>)
    ensures FoldHunks(lines, []) == Some(lines)
  {
  }

  // ---------------------------------------------------------------------------------------
  // The loops of the source

  /** The header search of `_apply_hunk_to_lines`. */
  method FindHeader(lines: seq<string>, header: string) returns (r: Option<nat>)
    ensures r == HeaderLocation(lines, header)
  {
    var i := 0;
    while i < |lines|
      invariant i <= |lines|
      invariant FirstStripEqual(lines, header, i) == FirstStripEqual(lines, header, 0)
    {
      if Strip(lines[i]) == Strip(header) {
        return Some(i);
      }
      i := i + 1;
    }
    return None;
  }

  /** The inner loop of `_find_hunk_location`: does `ctx` match at `i`? */
  method MatchAt(lines: seq<string>, ctx: seq<string>, i: nat) returns (b: bool)
    requires i + |ctx| <= |lines|
    ensures b == MatchesAt(lines, ctx, i)
  {
    var j := 0;
    while j < |ctx|
      invariant j <= |ctx|
      invariant forall q :: 0 <= q < j ==> Strip(lines[i + q]) == Strip(ctx[q])
    {
      if Strip(lines[i + j]) != Strip(ctx[j]) {
        return false;
      }
      j := j + 1;
    }
    return true;
  }

  /** `_find_hunk_location`: collect the context run, then try each index in turn. */
  method FindHunkLocation(lines: seq<string>, hls: seq<HunkLine>) returns (r: Option<nat>)
    ensures r == ContextLocation(lines, hls)
  {
    var ctx: seq<string> := [];
    var k := 0;
    while k < |hls| && hls[k].tag != Added
      invariant k <= RunEnd(hls, 0)
      invariant RunEnd(hls, k) == RunEnd(hls, 0)
      invariant ctx == LineTexts(hls, k)
    {
      ctx := ctx + [hls[k].text];
      k := k + 1;
    }
    if ctx == [] {
      return None;
    }
    var i := 0;
    while i + |ctx| <= |lines|
      invariant FirstMatch(lines, ctx, i) == FirstMatch(lines, ctx, 0)
      decreases |lines| - i
    {
      var matched := MatchAt(lines, ctx, i);
      if matched {
        return Some(i);
      }
      i := i + 1;
    }
    return None;
  }

  /** The `in_changes` loop of `_apply_hunk_to_lines`. */
  method SplitHunk(hls: seq<HunkLine>) returns (p: Parts)
    ensures p == Partition(hls)
  {
    var before, removed, added, after := [], [], [], [];
    var inChanges := false;
    ghost var f := FirstChange(hls, 0);
    FirstChangeSpec(hls, 0);
    var i := 0;
    while i < |hls|
      invariant i <= |hls|
      invariant inChanges <==> f < i
      invariant before == Texts(hls, Context, 0, if inChanges then f else i)
      invariant after == Texts(hls, Context, f, if inChanges then i else f)
      invariant removed == Texts(hls, Removed, 0, i)
      invariant added == Texts(hls, Added, 0, i)
    {
      var hl := hls[i];
      match hl.tag {
        case Context =>
          if inChanges {
            after := after + [hl.text];
          } else {
            before := before + [hl.text];
          }
        case Removed =>
          inChanges := true;
          removed := removed + [hl.text];
        case Added =>
          inChanges := true;
          added := added + [hl.text];
      }
      i := i + 1;
    }
    p := Parts(before, removed, added, after);
  }

  /** The anchor search of `_apply_hunk_to_lines`: the header first, then the context. */
  method FindAnchor(lines: seq<string>, h: Hunk) returns (m: Option<nat>)
    ensures m == Anchor(lines, h)
  {
    m := FindHeader(lines, h.header);
    if m.None? {
      m := FindHunkLocation(lines, h.lines);
    }
  }

  /** The new lines `_apply_hunk_to_lines` builds once the start is known. */
  method SpliceLines(lines: seq<string>, start: nat, p: Parts) returns (newLines: seq<string>)
    requires start <= |lines|
    ensures newLines == Splice(lines, start, p)
  {
    newLines := lines[..start] + p.before + p.added + p.after;
    var rest := start + |p.before| + |p.removed| + |p.after|;
    if rest < |lines| {
      newLines := newLines + lines[rest..];
    }
  }

  /** `_apply_hunk_to_lines`. */
  method ApplyHunkToLines(lines: seq<string>, h: Hunk) returns (r: Option<seq<string>>)
    ensures r == ApplyHunk(lines, h)
  {
    var m := FindAnchor(lines, h);
    if m.None? {
      return None;
    }
    var p := SplitHunk(h.lines);
    var start := m.value - |p.before| + 1;
    if start < 0 {
      start := 0;
    }
    assert start == StartIndex(m.value, |p.before|);
    var newLines := SpliceLines(lines, start, p);
    return Some(newLines);
  }

  /** The hunk loop of `_apply_update`: last hunk first, stopping at the first failure. */
  method ApplyHunks(lines: seq<string>, hunks: seq<Hunk>) returns (r: Option<seq<string>>)
    ensures r == FoldHunks(lines, hunks)
  {
    var cur := lines;
    var i := |hunks|;
    assert hunks[..i] == hunks;
    while i > 0
      invariant 0 <= i <= |hunks|
      invariant FoldHunks(lines, hunks) == FoldHunks(cur, hunks[..i])
    {
      var next := ApplyHunkToLines(cur, hunks[i - 1]);
      FoldHunksStep(cur, hunks[..i]);
      assert hunks[..i][..i - 1] == hunks[..i - 1];
      if next.None? {
        return None;
      }
      cur := next.value;
      i := i - 1;
    }
    assert hunks[..0] == [];
    return Some(cur);
  }
}
