/** Pattern matching of paths in the security agent
    (pkg/security/utils/path_linux.go): a pattern matches a path when both
    have the same separator-delimited segments except for a limited number
    of wildcard segments, each subject to limits on how early it may occur
    and how short it may be, optionally followed by enough exact segments. */
module PathMatch {
  import opened Wrappers
  import opened GoStrings

  /** `PathPatternMatchOpts`. */
  datatype Opts = Opts(
    wildcardLimit: int,
    prefixNodeRequired: int,
    suffixNodeRequired: int,
    nodeSizeLimit: int)

  // ---------------------------------------------------------------------
  // The segment-level reference
  // ---------------------------------------------------------------------

  /** The number of positions where the segments differ. */
  function DiffCount(ps: seq<string>, qs: seq<string>): nat
    requires |ps| == |qs|
    decreases |ps|
  {
    if |ps| == 0 then 0
    else DiffCount(ps[..|ps| - 1], qs[..|qs| - 1]) + (if ps[|ps| - 1] != qs[|qs| - 1] then 1 else 0)
  }

  /** The number of equal segments after the last differing one. */
  function Trailing(ps: seq<string>, qs: seq<string>): nat
    requires |ps| == |qs|
    decreases |ps|
  {
    if |ps| == 0 then 0
    else if ps[|ps| - 1] != qs[|qs| - 1] then 0
    else Trailing(ps[..|ps| - 1], qs[..|qs| - 1]) + 1
  }

  /** How many segments precede segment `k` other than the empty one before
      the leading separator. */
  function NodeCountAt(k: nat): nat { if k == 0 then 0 else k - 1 }

  /** The path-side span of segment `k`: its length plus the separator before it. */
  function Span(k: nat, segment: string): nat { if k == 0 then |segment| else |segment| + 1 }

  /** Segment `k` either agrees, or is an acceptable wildcard: within the
      wildcard budget, after enough prefix segments, and long enough. */
  predicate NodeOk(ps: seq<string>, qs: seq<string>, k: nat, opts: Opts)
    requires |ps| == |qs| && k < |ps|
  {
    || ps[k] == qs[k]
    || (&& DiffCount(ps[..k + 1], qs[..k + 1]) <= opts.wildcardLimit
        && NodeCountAt(k) >= opts.prefixNodeRequired
        && (opts.nodeSizeLimit == 0 || Span(k, qs[k]) >= opts.nodeSizeLimit))
  }

  predicate NodesOk(ps: seq<string>, qs: seq<string>, opts: Opts)
    requires |ps| == |qs|
  {
    forall k :: 0 <= k < |ps| ==> NodeOk(ps, qs, k, opts)
  }

  predicate Rooted(s: string, sep: char) { |s| == 0 || s[0] == sep }

  /** When `pattern` matches `path`, in terms of their segments. */
  predicate Matches(pattern: string, path: string, opts: Opts, sep: char) {
    && Rooted(pattern, sep)
    && Rooted(path, sep)
    && var ps, qs := Split(pattern, sep), Split(path, sep);
       && |ps| == |qs|
       && NodesOk(ps, qs, opts)
       && (opts.suffixNodeRequired == 0 || Trailing(ps, qs) >= opts.suffixNodeRequired)
  }

  // ---------------------------------------------------------------------
  // The matcher as written
  // ---------------------------------------------------------------------

  /** The counters the `computeNode` closure updates. */
  datatype NodeState = NodeState(wildcardCount: int, nodeCount: int, suffixNode: int, offsetPath: int)

  /** The `computeNode` closure: None where it returns false. */
  function ComputeNode(s: NodeState, wildcard: bool, i: int, j: int, opts: Opts): Option<NodeState> {
    var nodeCount := s.nodeCount + (if i > 0 then 1 else 0);
    if wildcard then
      var wildcardCount := s.wildcardCount + 1;
      if wildcardCount > opts.wildcardLimit then None
      else if s.nodeCount < opts.prefixNodeRequired then None
      else if opts.nodeSizeLimit != 0 && j - s.offsetPath < opts.nodeSizeLimit then None
      else Some(NodeState(wildcardCount, nodeCount, 0, j))
    else Some(NodeState(s.wildcardCount, nodeCount, s.suffixNode + 1, j))
  }

  /** The segments completed before position `start` (just after a separator). */
  function Done(s: string, start: nat, sep: char): seq<string>
    requires start <= |s|
  {
    if start == 0 then [] else Split(s[..start - 1], sep)
  }

  /** The completed segments: `k` of them on each side, ending just before
      `ps` and `qs`, with the counters describing them. */
  ghost predicate DoneInv(pattern: string, path: string, opts: Opts, sep: char,
                          st: NodeState, k: nat, ps: nat, qs: nat)
  {
    && ps <= |pattern| && qs <= |path|
    && (k > 0 ==> ps > 0 && qs > 0 && pattern[ps - 1] == sep && path[qs - 1] == sep)
    && |Done(pattern, ps, sep)| == k && |Done(path, qs, sep)| == k
    && NodesOk(Done(pattern, ps, sep), Done(path, qs, sep), opts)
    && st.wildcardCount == DiffCount(Done(pattern, ps, sep), Done(path, qs, sep))
    && st.suffixNode == Trailing(Done(pattern, ps, sep), Done(path, qs, sep))
    && st.nodeCount == NodeCountAt(k)
    && st.offsetPath == (if k == 0 then 0 else qs - 1)
  }

  /** The current segment read so far: `wildcard` records whether the two
      sides differ, and the side that is behind waits at a separator. */
  ghost predicate CurrentInv(pattern: string, path: string, sep: char,
                             i: int, j: int, wildcard: bool, ps: nat, qs: nat)
  {
    && ps <= i <= |pattern| && qs <= j <= |path|
    && sep !in pattern[ps..i] && sep !in path[qs..j]
    && (wildcard <==> pattern[ps..i] != path[qs..j])
    && (i - ps < j - qs ==> i < |pattern| && pattern[i] == sep)
    && (j - qs < i - ps ==> j < |path| && path[j] == sep)
  }

  /** What holds at each step of the scan. */
  ghost predicate ScanInv(pattern: string, path: string, opts: Opts, sep: char,
                          i: int, j: int, st: NodeState, wildcard: bool, k: nat, ps: nat, qs: nat)
  {
    && (k == 0 ==> i == 0 && j == 0 && ps == 0 && qs == 0 && st == NodeState(0, 0, 0, 0) && !wildcard)
    && DoneInv(pattern, path, opts, sep, st, k, ps, qs)
    && CurrentInv(pattern, path, sep, i, j, wildcard, ps, qs)
  }

  /** The main loop of `PatternMatch`, up to the end of either string. */
  method Scan(pattern: string, path: string, opts: Opts, sep: char)
    returns (ok: bool, i: int, j: int, st: NodeState, wildcard: bool, ghost k: nat, ghost ps: nat, ghost qs: nat)
    requires Rooted(pattern, sep) && Rooted(path, sep)
    ensures !ok ==> !Matches(pattern, path, opts, sep)
    ensures ok ==> ScanInv(pattern, path, opts, sep, i, j, st, wildcard, k, ps, qs)
    ensures ok ==> i == |pattern| || j == |path|
  {
    i, j := 0, 0;
    st := NodeState(0, 0, 0, 0);
    wildcard := false;
    k, ps, qs := 0, 0, 0;
    while i < |pattern| && j < |path|
      invariant ScanInv(pattern, path, opts, sep, i, j, st, wildcard, k, ps, qs)
      decreases |pattern| - i + |path| - j
    {
      var pn, ph := pattern[i], path[j];
      if pn == sep && ph == sep {
        var next := ComputeNode(st, wildcard, i, j, opts);
        SeparatorPair(pattern, path, opts, sep, i, j, st, wildcard, k, ps, qs);
        if next.None? {
          return false, i, j, st, wildcard, k, ps, qs;
        }
        st := next.value;
        wildcard := false;
        i, j := i + 1, j + 1;
        k, ps, qs := k + 1, i, j;
        continue;
      }
      var i', j' := if pn != sep then i + 1 else i, if ph != sep then j + 1 else j;
      var wildcard' := wildcard || pn != ph;
      ScanAdvance(pattern, path, opts, sep, i, j, st, wildcard, k, ps, qs);
      assert ScanInv(pattern, path, opts, sep, i', j', st, wildcard', k, ps, qs);
      i, j, wildcard := i', j', wildcard';
    }
    ok := true;
  }

  /** `PatternMatch`: a single scan of both strings that compares them
      segment by segment. */
  method PatternMatch(pattern: string, path: string, opts: Opts, sep: char) returns (r: bool)
    ensures r == Matches(pattern, path, opts, sep)
  {
    if |pattern| > 0 && pattern[0] != sep {
      return false;
    }
    if |path| > 0 && path[0] != sep {
      return false;
    }
    var ok, i, j, st, wildcard, k, ps, qs := Scan(pattern, path, opts, sep);
    if !ok {
      return false;
    }

    ghost var i0, j0, w0 := i, j, wildcard;
    if |pattern| != i || |path| != j {
      wildcard := true;
    }
    var patternRest := NoSeparatorFrom(pattern, i, sep);
    if !patternRest {
      ghost var m :| i <= m < |pattern| && pattern[m] == sep;
      PatternRestRejects(pattern, path, opts, sep, i, j, st, w0, k, ps, qs, m);
      return false;
    }
    NoSeparatorAfter(pattern, ps, i, sep);
    var pathRest := NoSeparatorFrom(path, j, sep);
    if !pathRest {
      ghost var m :| j <= m < |path| && path[m] == sep;
      PathRestRejects(pattern, path, opts, sep, i, j, st, w0, k, ps, qs, m);
      return false;
    }
    NoSeparatorAfter(path, qs, j, sep);
    i, j := |pattern|, |path|;

    LastSegment(pattern, path, opts, sep, i0, j0, st, w0, k, ps, qs);
    var last := ComputeNode(st, wildcard, i, j, opts);
    if last.None? {
      return false;
    }
    st := last.value;
    if opts.suffixNodeRequired == 0 || st.suffixNode >= opts.suffixNodeRequired {
      return true;
    }
    return false;
  }

  /** The loops after the scan: whatever remains of a string must hold no
      separator. */
  method NoSeparatorFrom(s: string, from: int, sep: char) returns (none: bool)
    requires 0 <= from <= |s|
    ensures none <==> forall m :: from <= m < |s| ==> s[m] != sep
  {
    var i := from;
    while i < |s|
      invariant from <= i <= |s|
      invariant forall m :: from <= m < i ==> s[m] != sep
    {
      if s[i] == sep {
        return false;
      }
      i := i + 1;
    }
    return true;
  }

  /** A separator left in the pattern once the path is exhausted rejects the
      match. */
  lemma PatternRestRejects(pattern: string, path: string, opts: Opts, sep: char,
                           i: int, j: int, st: NodeState, w: bool, k: nat, ps: nat, qs: nat, m: nat)
    requires ScanInv(pattern, path, opts, sep, i, j, st, w, k, ps, qs)
    requires i == |pattern| || j == |path|
    requires i <= m < |pattern| && pattern[m] == sep
    ensures !Matches(pattern, path, opts, sep)
  {
    assert path[qs..] == path[qs..j];
    TrailingSeparatorRejects(pattern, path, opts, sep, ps, qs, m);
  }

  /** A separator left in the path once the pattern's last segment is known
      to be separator-free rejects the match. */
  lemma PathRestRejects(pattern: string, path: string, opts: Opts, sep: char,
                        i: int, j: int, st: NodeState, w: bool, k: nat, ps: nat, qs: nat, m: nat)
    requires ScanInv(pattern, path, opts, sep, i, j, st, w, k, ps, qs)
    requires sep !in pattern[ps..]
    requires j <= m < |path| && path[m] == sep
    ensures !Matches(pattern, path, opts, sep)
  {
    TrailingSeparatorRejects(path, pattern, opts, sep, qs, ps, m);
  }

  /** A separator-free stretch followed by a separator-free rest is
      separator-free. */
  lemma NoSeparatorAfter(s: string, start: nat, i: int, sep: char)
    requires start <= i <= |s| && sep !in s[start..i]
    requires forall m :: i <= m < |s| ==> s[m] != sep
    ensures sep !in s[start..]
  {
    assert s[start..] == s[start..i] + s[i..];
    assert forall x :: x in s[i..] ==> x != sep;
  }

  /** `PathPatternMatch`: `PatternMatch` with '/' as the separator. */
  method PathPatternMatch(pattern: string, path: string, opts: Opts) returns (r: bool)
    ensures r == Matches(pattern, path, opts, '/')
  {
    r := PatternMatch(pattern, path, opts, '/');
  }

  // ---------------------------------------------------------------------
  // Proof steps of the scan
  // ---------------------------------------------------------------------

  /** A separator pair closes the current segment: the `computeNode` call
      fails exactly when the match is rejected there, and otherwise the scan
      state describes one more segment. */
  lemma SeparatorPair(pattern: string, path: string, opts: Opts, sep: char,
                      i: int, j: int, st: NodeState, wildcard: bool, k: nat, ps: nat, qs: nat)
    requires ScanInv(pattern, path, opts, sep, i, j, st, wildcard, k, ps, qs)
    requires i < |pattern| && j < |path| && pattern[i] == sep && path[j] == sep
    ensures ComputeNode(st, wildcard, i, j, opts).None? ==> !Matches(pattern, path, opts, sep)
    ensures ComputeNode(st, wildcard, i, j, opts).Some? ==>
      ScanInv(pattern, path, opts, sep, i + 1, j + 1, ComputeNode(st, wildcard, i, j, opts).value, false, k + 1, i + 1, j + 1)
  {
    PairStep(pattern, path, opts, sep, i, j, st, wildcard, k, ps, qs);
    var next := ComputeNode(st, wildcard, i, j, opts);
    if next.None? {
      FailedNodeRejects(pattern, path, opts, sep, i, j);
    } else {
      assert pattern[i + 1..i + 1] == [] && path[j + 1..j + 1] == [];
      assert CurrentInv(pattern, path, sep, i + 1, j + 1, false, i + 1, j + 1);
    }
  }

  /** The reference's view of the segment a separator pair closes. */
  lemma PairStep(pattern: string, path: string, opts: Opts, sep: char,
                 i: int, j: int, st: NodeState, wildcard: bool, k: nat, ps: nat, qs: nat)
    requires ScanInv(pattern, path, opts, sep, i, j, st, wildcard, k, ps, qs)
    requires i < |pattern| && j < |path| && pattern[i] == sep && path[j] == sep
    ensures |Done(pattern, i + 1, sep)| == |Done(path, j + 1, sep)| == k + 1
    ensures var next := ComputeNode(st, wildcard, i, j, opts);
      && (next.Some? <==> NodesOk(Done(pattern, i + 1, sep), Done(path, j + 1, sep), opts))
      && (next.Some? ==> DoneInv(pattern, path, opts, sep, next.value, k + 1, i + 1, j + 1))
  {
    var a, b := pattern[ps..i], path[qs..j];
    NodeStep(Done(pattern, ps, sep), Done(path, qs, sep), a, b, st, i, j, opts);
    DoneExtend(pattern, ps, i, sep);
    DoneExtend(path, qs, j, sep);
  }

  /** A step that is not a separator pair reads one more character of the
      current segment on one side or both. */
  lemma ScanAdvance(pattern: string, path: string, opts: Opts, sep: char,
                    i: int, j: int, st: NodeState, wildcard: bool, k: nat, ps: nat, qs: nat)
    requires Rooted(pattern, sep) && Rooted(path, sep)
    requires ScanInv(pattern, path, opts, sep, i, j, st, wildcard, k, ps, qs)
    requires i < |pattern| && j < |path| && !(pattern[i] == sep && path[j] == sep)
    ensures k > 0
    ensures ScanInv(pattern, path, opts, sep,
      if pattern[i] != sep then i + 1 else i,
      if path[j] != sep then j + 1 else j,
      st, wildcard || pattern[i] != path[j], k, ps, qs)
  {
    CurrentAdvance(pattern, path, sep, i, j, wildcard, ps, qs);
  }

  lemma CurrentAdvance(pattern: string, path: string, sep: char, i: int, j: int, wildcard: bool, ps: nat, qs: nat)
    requires CurrentInv(pattern, path, sep, i, j, wildcard, ps, qs)
    requires i < |pattern| && j < |path| && !(pattern[i] == sep && path[j] == sep)
    ensures CurrentInv(pattern, path, sep,
      if pattern[i] != sep then i + 1 else i,
      if path[j] != sep then j + 1 else j,
      wildcard || pattern[i] != path[j], ps, qs)
  {
    var pn, ph := pattern[i], path[j];
    var a, b := pattern[ps..i], path[qs..j];
    assert pattern[ps..i + 1] == a + [pn];
    assert path[qs..j + 1] == b + [ph];
    if pn != sep && ph != sep {
      assert |a| == |b|;
      assert (a + [pn] == b + [ph]) <==> (a == b && pn == ph) by {
        if a + [pn] == b + [ph] {
          assert (a + [pn])[|a|] == pn && (b + [ph])[|b|] == ph;
          assert a == (a + [pn])[..|a|] && b == (b + [ph])[..|b|];
        }
      }
    } else if pn == sep {
      assert |a| <= |b|;
      assert |a| < |b + [ph]|;
    } else {
      assert |b| <= |a|;
      assert |b| < |a + [pn]|;
    }
  }

  /** After both strings are read to the end with no further separator,
      the final `computeNode` closes the last segment of each. */
  lemma LastSegment(pattern: string, path: string, opts: Opts, sep: char,
                    i: int, j: int, st: NodeState, w: bool, k: nat, ps: nat, qs: nat)
    requires Rooted(pattern, sep) && Rooted(path, sep)
    requires ScanInv(pattern, path, opts, sep, i, j, st, w, k, ps, qs)
    requires i == |pattern| || j == |path|
    requires sep !in pattern[ps..] && sep !in path[qs..]
    ensures var r := ComputeNode(st, w || |pattern| != i || |path| != j, |pattern|, |path|, opts);
      && (r.None? ==> !Matches(pattern, path, opts, sep))
      && (r.Some? ==> (Matches(pattern, path, opts, sep) <==>
            opts.suffixNodeRequired == 0 || r.value.suffixNode >= opts.suffixNodeRequired))
  {
    LastDiffers(pattern, path, sep, i, j, w, ps, qs);
    assert k == 0 ==> |pattern| == 0;
    NodeStep(Done(pattern, ps, sep), Done(path, qs, sep), pattern[ps..], path[qs..], st, |pattern|, |path|, opts);
    DoneLast(pattern, ps, sep);
    DoneLast(path, qs, sep);
  }

  /** The final `computeNode` sees a difference exactly when the last
      segments differ: a side the scan stopped short on is longer. */
  lemma LastDiffers(pattern: string, path: string, sep: char, i: int, j: int, w: bool, ps: nat, qs: nat)
    requires CurrentInv(pattern, path, sep, i, j, w, ps, qs)
    requires i == |pattern| || j == |path|
    requires sep !in pattern[ps..] && sep !in path[qs..]
    ensures (w || |pattern| != i || |path| != j) <==> pattern[ps..] != path[qs..]
  {
    var a, b := pattern[ps..i], path[qs..j];
    if i == |pattern| && j == |path| {
      assert a == pattern[ps..] && b == path[qs..];
    } else if i < |pattern| {
      assert pattern[ps..][i - ps] == pattern[i];
      assert |b| <= |a| < |pattern[ps..]|;
      assert b == path[qs..];
    } else {
      assert path[qs..][j - qs] == path[j];
      assert |a| <= |b| < |path[qs..]|;
      assert a == pattern[ps..];
    }
  }

  /** Appending one segment to each side adds its difference to the counts. */
  lemma Snoc(ps: seq<string>, qs: seq<string>, a: string, b: string, opts: Opts)
    requires |ps| == |qs|
    ensures DiffCount(ps + [a], qs + [b]) == DiffCount(ps, qs) + (if a != b then 1 else 0)
    ensures Trailing(ps + [a], qs + [b]) == if a != b then 0 else Trailing(ps, qs) + 1
    ensures NodesOk(ps + [a], qs + [b], opts) <==> NodesOk(ps, qs, opts) && NodeOk(ps + [a], qs + [b], |ps|, opts)
  {
    var ps', qs' := ps + [a], qs + [b];
    assert ps'[..|ps|] == ps && qs'[..|qs|] == qs;
    forall k | 0 <= k < |ps| ensures NodeOk(ps', qs', k, opts) == NodeOk(ps, qs, k, opts) {
      assert ps'[..k + 1] == ps[..k + 1] && qs'[..k + 1] == qs[..k + 1];
    }
  }

  /** One `computeNode` call agrees with the reference for the segment it closes. */
  lemma NodeStep(ps: seq<string>, qs: seq<string>, a: string, b: string, st: NodeState, i: int, j: int, opts: Opts)
    requires |ps| == |qs|
    requires NodesOk(ps, qs, opts)
    requires st.wildcardCount == DiffCount(ps, qs) && st.suffixNode == Trailing(ps, qs)
    requires st.nodeCount == NodeCountAt(|ps|)
    requires j - st.offsetPath == Span(|ps|, b)
    requires (i > 0) == (|ps| > 0)
    ensures var r := ComputeNode(st, a != b, i, j, opts);
      && (r.Some? <==> NodesOk(ps + [a], qs + [b], opts))
      && (r.Some? ==>
            && r.value.wildcardCount == DiffCount(ps + [a], qs + [b])
            && r.value.suffixNode == Trailing(ps + [a], qs + [b])
            && r.value.nodeCount == NodeCountAt(|ps| + 1)
            && r.value.offsetPath == j)
  {
    Snoc(ps, qs, a, b, opts);
    assert (ps + [a])[..|ps| + 1] == ps + [a] && (qs + [b])[..|qs| + 1] == qs + [b];
  }

  /** The segments completed by the separator at `i`. */
  lemma DoneExtend(s: string, start: nat, i: nat, sep: char)
    requires start <= i < |s| && s[i] == sep
    requires start == 0 || s[start - 1] == sep
    requires sep !in s[start..i]
    ensures Done(s, i + 1, sep) == Done(s, start, sep) + [s[start..i]]
  {
    SplitNoSep(s[start..i], sep);
    if start > 0 {
      assert s[..i] == s[..start - 1] + [sep] + s[start..i];
      SplitAppend(s[..start - 1], s[start..i], sep);
    } else {
      assert s[..i] == s[start..i];
    }
  }

  /** The segments of a string: those completed, then the rest. */
  lemma DoneRest(s: string, start: nat, sep: char)
    requires start <= |s|
    requires start == 0 || s[start - 1] == sep
    ensures Split(s, sep) == Done(s, start, sep) + Split(s[start..], sep)
  {
    if start > 0 {
      assert s == s[..start - 1] + [sep] + s[start..];
      SplitAppend(s[..start - 1], s[start..], sep);
    } else {
      assert s[start..] == s;
    }
  }

  lemma DoneLast(s: string, start: nat, sep: char)
    requires start <= |s|
    requires start == 0 || s[start - 1] == sep
    requires sep !in s[start..]
    ensures Split(s, sep) == Done(s, start, sep) + [s[start..]]
  {
    DoneRest(s, start, sep);
    SplitNoSep(s[start..], sep);
  }

  /** A node check failing on a prefix of the segments fails on the whole. */
  lemma NodesFailPrefix(ps: seq<string>, qs: seq<string>, n: nat, opts: Opts)
    requires |ps| == |qs| && n <= |ps|
    requires !NodesOk(ps[..n], qs[..n], opts)
    ensures !NodesOk(ps, qs, opts)
  {
    var k :| 0 <= k < n && !NodeOk(ps[..n], qs[..n], k, opts);
    assert ps[..n][..k + 1] == ps[..k + 1] && qs[..n][..k + 1] == qs[..k + 1];
    assert !NodeOk(ps, qs, k, opts);
  }

  /** A segment failing its node check at a separator pair rejects the match. */
  lemma FailedNodeRejects(pattern: string, path: string, opts: Opts, sep: char, i: nat, j: nat)
    requires i < |pattern| && j < |path| && pattern[i] == sep && path[j] == sep
    requires |Done(pattern, i + 1, sep)| == |Done(path, j + 1, sep)|
    requires !NodesOk(Done(pattern, i + 1, sep), Done(path, j + 1, sep), opts)
    ensures !Matches(pattern, path, opts, sep)
  {
    var ps, qs := Split(pattern, sep), Split(path, sep);
    DoneRest(pattern, i + 1, sep);
    DoneRest(path, j + 1, sep);
    var n := |Done(pattern, i + 1, sep)|;
    if |ps| == |qs| {
      assert ps[..n] == Done(pattern, i + 1, sep) && qs[..n] == Done(path, j + 1, sep);
      NodesFailPrefix(ps, qs, n, opts);
    }
  }

  /** A separator after the other string is exhausted means more segments on
      one side than on the other. */
  lemma TrailingSeparatorRejects(s: string, t: string, opts: Opts, sep: char, start: nat, tstart: nat, m: nat)
    requires start <= m < |s| && s[m] == sep
    requires start == 0 || s[start - 1] == sep
    requires tstart <= |t| && (tstart == 0 || t[tstart - 1] == sep)
    requires sep !in t[tstart..]
    requires |Done(s, start, sep)| == |Done(t, tstart, sep)|
    ensures |Split(s, sep)| != |Split(t, sep)|
  {
    DoneRest(s, start, sep);
    DoneLast(t, tstart, sep);
    assert s[start..][m - start] == sep;
    SplitLength(s[start..], sep);
  }

  // ---------------------------------------------------------------------
  // Properties of matching
  // ---------------------------------------------------------------------

  /** A pattern and a path with different numbers of separators never match. */
  lemma SeparatorCountsMustAgree(pattern: string, path: string, opts: Opts, sep: char)
    requires SepCount(pattern, sep) != SepCount(path, sep)
    ensures !Matches(pattern, path, opts, sep)
  {
    SplitLength(pattern, sep);
    SplitLength(path, sep);
  }

  /** A rooted path matches itself when no suffix is required: no segment
      differs, so no limit applies. */
  lemma IdenticalMatches(s: string, opts: Opts, sep: char)
    requires opts.suffixNodeRequired == 0
    ensures Matches(s, s, opts, sep) <==> Rooted(s, sep)
  {
  }

  /** Some differing segment carries the whole difference count. */
  lemma {:induction false} LastDifference(ps: seq<string>, qs: seq<string>) returns (k: nat)
    requires |ps| == |qs| && DiffCount(ps, qs) > 0
    ensures k < |ps| && ps[k] != qs[k]
    ensures DiffCount(ps[..k + 1], qs[..k + 1]) == DiffCount(ps, qs)
    decreases |ps|
  {
    var n := |ps| - 1;
    if ps[n] != qs[n] {
      k := n;
      assert ps[..k + 1] == ps && qs[..k + 1] == qs;
    } else {
      k := LastDifference(ps[..n], qs[..n]);
      assert ps[..n][..k + 1] == ps[..k + 1] && qs[..n][..k + 1] == qs[..k + 1];
    }
  }

  /** More differing segments than the wildcard limit never match. */
  lemma TooManyWildcards(pattern: string, path: string, opts: Opts, sep: char)
    requires |Split(pattern, sep)| == |Split(path, sep)|
    requires DiffCount(Split(pattern, sep), Split(path, sep)) > opts.wildcardLimit
    requires DiffCount(Split(pattern, sep), Split(path, sep)) > 0
    ensures !Matches(pattern, path, opts, sep)
  {
    var ps, qs := Split(pattern, sep), Split(path, sep);
    var k := LastDifference(ps, qs);
    assert !NodeOk(ps, qs, k, opts);
  }

  /** A differing segment too early, or too short on the path side, never matches. */
  lemma EarlyOrShortWildcard(pattern: string, path: string, opts: Opts, sep: char, k: nat)
    requires |Split(pattern, sep)| == |Split(path, sep)| && k < |Split(pattern, sep)|
    requires Split(pattern, sep)[k] != Split(path, sep)[k]
    requires NodeCountAt(k) < opts.prefixNodeRequired
      || (opts.nodeSizeLimit != 0 && Span(k, Split(path, sep)[k]) < opts.nodeSizeLimit)
    ensures !Matches(pattern, path, opts, sep)
  {
    assert !NodeOk(Split(pattern, sep), Split(path, sep), k, opts);
  }
}
