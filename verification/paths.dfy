/** The request-path cursor used for routing: the URL path split on '/'
    and an index of the segment the current handler is looking at. */
module Paths {

  const Slash := '/'

  /** Split `s` at every occurrence of `sep`: one more piece than there are
      separators, none of the pieces containing the separator, and an empty
      string giving a single empty piece. */
  function Split(s: string, sep: char): (r: seq<string>)
    ensures |r| == Count(s, sep) + 1
    ensures forall i :: 0 <= i < |r| ==> sep !in r[i]
    decreases |s|
  {
    if |s| == 0 then [""]
    else
      var rest := Split(s[1..], sep);
      if s[0] == sep then [""] + rest
      else [[s[0]] + rest[0]] + rest[1..]
  }

  /** Number of occurrences of `c` in `s`. */
  function Count(s: string, c: char): nat
    decreases |s|
  {
    if |s| == 0 then 0 else (if s[0] == c then 1 else 0) + Count(s[1..], c)
  }

  /** The pieces put back together with `sep` between neighbours. */
  function Join(segs: seq<string>, sep: char): string
    requires |segs| >= 1
    decreases |segs|
  {
    if |segs| == 1 then segs[0] else segs[0] + [sep] + Join(segs[1..], sep)
  }

  /** Joining the pieces of a split gives back the original string. */
  lemma {:induction false} SplitJoin(s: string, sep: char)
    ensures Join(Split(s, sep), sep) == s
    decreases |s|
  {
    if |s| > 0 {
      var rest := Split(s[1..], sep);
      SplitJoin(s[1..], sep);
      if s[0] == sep {
        assert ([""] + rest)[1..] == rest;
      } else {
        var r := Split(s, sep);
        assert r[0] == [s[0]] + rest[0] && r[1..] == rest[1..];
        if |rest| > 1 {
          assert Join(rest, sep) == rest[0] + [sep] + Join(rest[1..], sep);
        }
        assert s == [s[0]] + s[1..];
      }
    }
  }

  /** A string without the separator splits into itself alone. */
  lemma {:induction false} SplitWithoutSep(a: string, sep: char)
    requires sep !in a
    ensures Split(a, sep) == [a]
    decreases |a|
  {
    if |a| > 0 {
      SplitWithoutSep(a[1..], sep);
      assert a == [a[0]] + a[1..];
    }
  }

  /** Splitting stops at the first separator. */
  lemma {:induction false} SplitAtFirst(a: string, b: string, sep: char)
    requires sep !in a
    ensures Split(a + [sep] + b, sep) == [a] + Split(b, sep)
    decreases |a|
  {
    var s := a + [sep] + b;
    if |a| == 0 {
      assert s[1..] == b;
    } else {
      assert s[1..] == a[1..] + [sep] + b;
      SplitAtFirst(a[1..], b, sep);
      assert a == [a[0]] + a[1..];
    }
  }

  /** Splitting a join of separator-free pieces gives back the pieces. */
  lemma {:induction false} JoinSplit(segs: seq<string>, sep: char)
    requires |segs| >= 1
    requires forall i :: 0 <= i < |segs| ==> sep !in segs[i]
    ensures Split(Join(segs, sep), sep) == segs
    decreases |segs|
  {
    if |segs| == 1 {
      SplitWithoutSep(segs[0], sep);
    } else {
      JoinSplit(segs[1..], sep);
      SplitAtFirst(segs[0], Join(segs[1..], sep), sep);
      assert segs == [segs[0]] + segs[1..];
    }
  }

  /** Appending a piece to a join adds a separator and the piece. */
  lemma {:induction false} JoinAppend(segs: seq<string>, x: string, sep: char)
    requires |segs| >= 1
    ensures Join(segs + [x], sep) == Join(segs, sep) + [sep] + x
    decreases |segs|
  {
    assert (segs + [x])[1..] == segs[1..] + [x];
    if |segs| > 1 {
      JoinAppend(segs[1..], x, sep);
    }
  }

  /** Splitting stops after the separator-free pieces of a join, and
      whatever follows the next separator is split on its own. */
  lemma {:induction false} SplitJoinThen(segs: seq<string>, tail: string, sep: char)
    requires |segs| >= 1
    requires forall i :: 0 <= i < |segs| ==> sep !in segs[i]
    ensures Split(Join(segs, sep) + [sep] + tail, sep) == segs + Split(tail, sep)
    decreases |segs|
  {
    if |segs| == 1 {
      SplitAtFirst(segs[0], tail, sep);
    } else {
      var rest := Join(segs[1..], sep) + [sep] + tail;
      assert Join(segs, sep) + [sep] + tail == segs[0] + [sep] + rest;
      SplitAtFirst(segs[0], rest, sep);
      SplitJoinThen(segs[1..], tail, sep);
      assert segs == [segs[0]] + segs[1..];
    }
  }

  /** The segment at position `k`, or the empty string past the end. */
  function At(segs: seq<string>, k: nat): string
  {
    if k < |segs| then segs[k] else ""
  }

  /** A cursor over the segments of a URL path. */
  datatype Path = Path(url: string, segments: seq<string>, index: nat)

  /** A cursor at the first segment of the URL path `url`. */
  function NewPath(url: string): (p: Path)
    ensures p.url == url && p.index == 0
    ensures p.segments == Split(url, Slash)
    ensures Join(p.segments, Slash) == url
  {
    SplitJoin(url, Slash);
    Path(url, Split(url, Slash), 0)
  }

  /** The segment after the current one, or "" when there is none. */
  function Next(p: Path): (r: string)
    ensures r == At(p.segments, p.index + 1)
  {
    if |p.segments| < p.index + 2 then "" else p.segments[p.index + 1]
  }

  /** The current segment, or "" when the cursor is past the end. */
  function Current(p: Path): (r: string)
    ensures r == At(p.segments, p.index)
  {
    if |p.segments| < p.index + 1 then "" else p.segments[p.index]
  }

  /** Advance the cursor by one segment. */
  function Increment(p: Path): (r: Path)
    ensures r.index == p.index + 1
    ensures r.url == p.url && r.segments == p.segments
  {
    p.(index := p.index + 1)
  }

  /** After advancing, the current segment is the one `Next` announced. */
  lemma IncrementThenCurrentIsNext(p: Path)
    ensures Current(Increment(p)) == Next(p)
    ensures Next(p) == "" <==> p.index + 1 >= |p.segments| || p.segments[p.index + 1] == ""
  {
  }

  /** The cursor over the join of separator-free segments walks exactly
      those segments. */
  lemma NewPathOfJoin(segs: seq<string>)
    requires |segs| >= 1
    requires forall i :: 0 <= i < |segs| ==> Slash !in segs[i]
    ensures NewPath(Join(segs, Slash)).segments == segs
  {
    JoinSplit(segs, Slash);
  }
}
