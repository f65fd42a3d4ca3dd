/**
  The string primitives the patch code leans on, as Python defines them:
  `str.strip()`, `str.startswith`, `str.split('\n')` and `'\n'.join`.
 */
module Lines {

  datatype Option<T> = None | Some(value: T)

  /** The code-point ranges of the characters Python's `str.isspace` accepts, which
      `str.strip()` removes. */
  const SPACE_RANGES: seq<(int, int)> := [
    (0x09, 0x0D), (0x1C, 0x20), (0x85, 0x85), (0xA0, 0xA0), (0x1680, 0x1680),
    (0x2000, 0x200A), (0x2028, 0x2029), (0x202F, 0x202F), (0x205F, 0x205F), (0x3000, 0x3000)
  ]

  /** `n` lies in one of the closed ranges. */
  predicate InRanges(n: int, ranges: seq<(int, int)>) {
    ranges != [] && (ranges[0].0 <= n <= ranges[0].1 || InRanges(n, ranges[1..]))
  }

  predicate IsSpace(c: char) { InRanges(c as int, SPACE_RANGES) }

  /** `InRanges` holds exactly when one of the ranges holds `n`. */
  lemma {:induction false} InRangesSpec(n: int, ranges: seq<(int, int)>)
    ensures InRanges(n, ranges) <==> exists r :: r in ranges && r.0 <= n <= r.1
  {
    if ranges != [] {
      InRangesSpec(n, ranges[1..]);
      assert forall r :: r in ranges <==> r == ranges[0] || r in ranges[1..];
    }
  }

  /** No printable ASCII character other than the space is whitespace. */
  lemma PrintableNotSpace(c: char)
    requires 0x21 <= c as int <= 0x7E
    ensures !IsSpace(c)
  {
    InRangesSpec(c as int, SPACE_RANGES);
  }

  /** `s` with its leading whitespace removed. */
  function TrimStart(s: string): string {
    if s != [] && IsSpace(s[0]) then TrimStart(s[1..]) else s
  }

  /** `s` with its trailing whitespace removed. */
  function TrimEnd(s: string): string {
    if s != [] && IsSpace(s[|s| - 1]) then TrimEnd(s[..|s| - 1]) else s
  }

  /** Python's `s.strip()`. What the trimming functions keep and remove is stated by the
      lemmas below rather than by contracts, which would follow every stripped line around. */
  function Strip(s: string): string {
    TrimEnd(TrimStart(s))
  }

  /** TrimStart removes exactly the leading run of whitespace. */
  lemma {:induction false} TrimStartSpec(s: string)
    ensures |TrimStart(s)| <= |s| && TrimStart(s) == s[|s| - |TrimStart(s)|..]
    ensures forall k :: 0 <= k < |s| - |TrimStart(s)| ==> IsSpace(s[k])
    ensures TrimStart(s) == [] || !IsSpace(TrimStart(s)[0])
  {
    if s != [] && IsSpace(s[0]) {
      TrimStartSpec(s[1..]);
    }
  }

  /** TrimEnd removes exactly the trailing run of whitespace. */
  lemma {:induction false} TrimEndSpec(s: string)
    ensures |TrimEnd(s)| <= |s| && TrimEnd(s) == s[..|TrimEnd(s)|]
    ensures forall k :: |TrimEnd(s)| <= k < |s| ==> IsSpace(s[k])
    ensures TrimEnd(s) == [] || !IsSpace(TrimEnd(s)[|TrimEnd(s)| - 1])
  {
    if s != [] && IsSpace(s[|s| - 1]) {
      TrimEndSpec(s[..|s| - 1]);
    }
  }

  /** Strip keeps an infix `s[a..b]` of `s`: everything outside it is whitespace, and it
      neither starts nor ends with whitespace. */
  lemma StripSpec(s: string)
    ensures exists a: nat, b: nat ::
              && a <= b <= |s| && Strip(s) == s[a..b]
              && (forall k :: 0 <= k < a ==> IsSpace(s[k]))
              && (forall k :: b <= k < |s| ==> IsSpace(s[k]))
    ensures Strip(s) == [] || (!IsSpace(Strip(s)[0]) && !IsSpace(Strip(s)[|Strip(s)| - 1]))
  {
    var a, b := StripBounds(s);
    StripEnds(s);
  }

  /** The bounds of the infix Strip keeps. */
  lemma StripBounds(s: string) returns (a: nat, b: nat)
    ensures a <= b <= |s| && Strip(s) == s[a..b]
    ensures forall k :: 0 <= k < a ==> IsSpace(s[k])
    ensures forall k :: b <= k < |s| ==> IsSpace(s[k])
  {
    var t := TrimStart(s);
    TrimStartSpec(s);
    TrimEndSpec(t);
    a := |s| - |t|;
    b := a + |TrimEnd(t)|;
    assert forall k :: b <= k < |s| ==> s[k] == t[k - a];
  }

  /** What Strip keeps neither starts nor ends with whitespace. */
  lemma StripEnds(s: string)
    ensures Strip(s) == [] || (!IsSpace(Strip(s)[0]) && !IsSpace(Strip(s)[|Strip(s)| - 1]))
  {
    var t := TrimStart(s);
    TrimStartSpec(s);
    TrimEndSpec(t);
    if Strip(s) != [] {
      assert Strip(s)[0] == t[0];
    }
  }

  /** The first character Strip keeps is a character of `s`. */
  lemma StripFirstChar(s: string) returns (p: nat)
    requires Strip(s) != []
    ensures p < |s| && s[p] == Strip(s)[0]
  {
    StripSpec(s);
    var a: nat, b: nat :| a <= b <= |s| && Strip(s) == s[a..b];
    p := a;
  }

  /** A string holding a character that is not whitespace does not strip to nothing. */
  lemma StripKeepsNonSpace(s: string, p: nat)
    requires p < |s| && !IsSpace(s[p])
    ensures Strip(s) != []
  {
    StripSpec(s);
    var a: nat, b: nat :|
      && a <= b <= |s| && Strip(s) == s[a..b]
      && (forall k :: 0 <= k < a ==> IsSpace(s[k]))
      && (forall k :: b <= k < |s| ==> IsSpace(s[k]));
    assert a <= p < b;
  }

  /** A string that has no whitespace at either end is its own strip. */
  lemma StripUnpadded(s: string)
    requires s == [] || (!IsSpace(s[0]) && !IsSpace(s[|s| - 1]))
    ensures Strip(s) == s
  {
  }

  /** Python's `s.startswith(p)`. */
  predicate StartsWith(s: string, p: string) {
    |p| <= |s| && s[..|p|] == p
  }

  predicate NoNewline(s: string) {
    forall k :: 0 <= k < |s| ==> s[k] != '\n'
  }

  /** Python's `s.split('\n')`: never empty, and no piece holds a newline. */
  function Split(s: string): (r: seq<string>)
    ensures |r| >= 1
    ensures forall k :: 0 <= k < |r| ==> NoNewline(r[k])
  {
    if s == [] then [""]
    else
      var rest := Split(s[1..]);
      if s[0] == '\n' then [""] + rest
      else [[s[0]] + rest[0]] + rest[1..]
  }

  /** Python's `'\n'.join(ls)`: the empty list joins to the empty string. */
  function Join(ls: seq<string>): string {
    if ls == [] then ""
    else if |ls| == 1 then ls[0]
    else ls[0] + "\n" + Join(ls[1..])
  }

  /** Every character of a line appears in the joined text. */
  lemma {:induction false} JoinKeepsChar(ls: seq<string>, k: nat, a: nat) returns (p: nat)
    requires k < |ls| && a < |ls[k]|
    ensures p < |Join(ls)| && Join(ls)[p] == ls[k][a]
    decreases |ls|
  {
    if |ls| == 1 {
      p := a;
    } else if k == 0 {
      assert Join(ls) == ls[0] + ("\n" + Join(ls[1..]));
      p := a;
    } else {
      var q := JoinKeepsChar(ls[1..], k - 1, a);
      assert Join(ls) == (ls[0] + "\n") + Join(ls[1..]);
      p := |ls[0]| + 1 + q;
    }
  }

  /** Joining the pieces of a split gives back the original text. */
  lemma {:induction false} JoinSplit(s: string)
    ensures Join(Split(s)) == s
  {
    if s != [] {
      var rest := Split(s[1..]);
      JoinSplit(s[1..]);
      if s[0] == '\n' {
        assert Split(s) == [""] + rest;
        assert Join(Split(s)) == "" + "\n" + Join(rest);
      } else {
        var first := [s[0]] + rest[0];
        assert Split(s) == [first] + rest[1..];
        if |rest| == 1 {
          assert Join(Split(s)) == first;
        } else {
          assert ([first] + rest[1..])[1..] == rest[1..];
          assert Join(Split(s)) == first + "\n" + Join(rest[1..]);
          assert Join(rest) == rest[0] + "\n" + Join(rest[1..]);
        }
        assert s == [s[0]] + s[1..];
      }
    }
  }

  /** Splitting a newline-free string gives it back alone. */
  lemma {:induction false} SplitNoNewline(s: string)
    requires NoNewline(s)
    ensures Split(s) == [s]
  {
    if s != [] {
      SplitNoNewline(s[1..]);
      assert [s[0]] + s[1..] == s;
    }
  }

  /** Splitting `a + "\n" + b` for a newline-free `a` puts `a` in front of the pieces of `b`. */
  lemma {:induction false} SplitAfterLine(a: string, b: string)
    requires NoNewline(a)
    ensures Split(a + "\n" + b) == [a] + Split(b)
  {
    if a == [] {
      assert a + "\n" + b == "\n" + b;
      assert ("\n" + b)[1..] == b;
    } else {
      SplitAfterLine(a[1..], b);
      var s := a + "\n" + b;
      assert s[1..] == a[1..] + "\n" + b;
      assert [a[0]] + a[1..] == a;
    }
  }

  /** Splitting a join of newline-free lines gives back the lines (the empty list joins to the
      empty string, which splits into one empty line, hence `ls != []`). */
  lemma {:induction false} SplitJoin(ls: seq<string>)
    requires ls != []
    requires forall k :: 0 <= k < |ls| ==> NoNewline(ls[k])
    ensures Split(Join(ls)) == ls
  {
    if |ls| == 1 {
      SplitNoNewline(ls[0]);
    } else {
      SplitJoin(ls[1..]);
      SplitAfterLine(ls[0], Join(ls[1..]));
      assert [ls[0]] + ls[1..] == ls;
    }
  }
}
