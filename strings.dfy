/**
 * Go's `strings.Replace(s, old, new, -1)`, the one `strings` call the handler
 * makes, as `ReplaceAll` over `string` (`seq<char>`) for a non-empty `old`:
 * every occurrence, left to right, without overlap. `Index` (leftmost
 * occurrence), `Split` and `Join` are written beside it, after Go's functions
 * of the same names, as the reference definitions that specify it.
 */
module Strings {

  /** `pat` occurs in `s` starting at position `i`. */
  predicate OccursAt(s: string, pat: string, i: int)
  {
    0 <= i && i + |pat| <= |s| && s[i..i + |pat|] == pat
  }

  /** `pat` occurs somewhere in `s`. */
  predicate Contains(s: string, pat: string)
  {
    exists i | 0 <= i <= |s| :: OccursAt(s, pat, i)
  }

  /** Occurrences in `s[1..]` are the occurrences in `s` shifted by one. */
  lemma OccursAtTail(s: string, pat: string, j: int)
    requires |s| > 0 && j >= 0
    ensures OccursAt(s[1..], pat, j) <==> OccursAt(s, pat, j + 1)
  {
    if 0 <= j && j + |pat| <= |s| - 1 {
      assert s[1..][j..j + |pat|] == s[j + 1..j + 1 + |pat|];
    }
  }

  /** An occurrence inside a prefix of `s` is an occurrence in `s`. */
  lemma OccursAtPrefix(s: string, pat: string, n: int, j: int)
    requires 0 <= n <= |s|
    requires OccursAt(s[..n], pat, j)
    ensures OccursAt(s, pat, j)
  {
    assert s[..n][j..j + |pat|] == s[j..j + |pat|];
  }

  /** An occurrence in `u` is an occurrence in `u + v`. */
  lemma OccursExtend(u: string, v: string, pat: string, j: int)
    requires OccursAt(u, pat, j)
    ensures OccursAt(u + v, pat, j)
  {
    assert (u + v)[j..j + |pat|] == u[j..j + |pat|];
  }

  /** An occurrence in `u + v` that ends within `u` is an occurrence in `u`. */
  lemma OccursInFront(u: string, v: string, pat: string, j: int)
    requires OccursAt(u + v, pat, j) && j + |pat| <= |u|
    ensures OccursAt(u, pat, j)
  {
    assert (u + v)[j..j + |pat|] == u[j..j + |pat|];
  }

  /** `pat` occurs at the end of `u + pat`. */
  lemma OccursAtEnd(u: string, pat: string)
    ensures OccursAt(u + pat, pat, |u|)
  {
    assert (u + pat)[|u|..|u| + |pat|] == pat;
  }

  /** `s` is the text before an occurrence, the occurrence, and the text after it. */
  lemma CutAt(s: string, pat: string, i: int)
    requires OccursAt(s, pat, i)
    ensures s == s[..i] + pat + s[i + |pat|..]
  {
    assert s[i..i + |pat|] == pat;
    assert s == s[..i] + s[i..i + |pat|] + s[i + |pat|..];
  }

  /**
   * Go's `strings.Index`: the position of the leftmost occurrence of `pat`
   * in `s`, or -1 when there is none.
   */
  function Index(s: string, pat: string): (r: int)
    ensures r == -1 || OccursAt(s, pat, r)
    ensures r == -1 <==> !Contains(s, pat)
    ensures forall j :: 0 <= j < r ==> !OccursAt(s, pat, j)
    decreases |s|
  {
    if |s| < |pat| then -1
    else if s[..|pat|] == pat then
      assert OccursAt(s, pat, 0);
      0
    else
      var r := Index(s[1..], pat);
      if r == -1 then
        NoneAfterFirst(s, pat);
        -1
      else
        OccursAtTail(s, pat, r);
        NoneBefore(s, pat, r);
        r + 1
  }

  /** No occurrence at 0 and none in `s[1..]`: none in `s`. */
  lemma NoneAfterFirst(s: string, pat: string)
    requires |s| > 0 && !OccursAt(s, pat, 0) && !Contains(s[1..], pat)
    ensures !Contains(s, pat)
  {
    forall j | 0 < j <= |s| ensures !OccursAt(s, pat, j) {
      OccursAtTail(s, pat, j - 1);
    }
  }

  /** No occurrence at 0 and none in `s[1..]` before `r`: none in `s` before `r + 1`. */
  lemma NoneBefore(s: string, pat: string, r: int)
    requires |s| > 0 && !OccursAt(s, pat, 0)
    requires forall j :: 0 <= j < r ==> !OccursAt(s[1..], pat, j)
    ensures forall j :: 0 <= j < r + 1 ==> !OccursAt(s, pat, j)
  {
    forall j | 0 < j < r + 1 ensures !OccursAt(s, pat, j) {
      OccursAtTail(s, pat, j - 1);
    }
  }

  /**
   * Go's `strings.Split` for a non-empty separator: the pieces of `s` between
   * the leftmost non-overlapping occurrences of `sep`.
   */
  function Split(s: string, sep: string): (parts: seq<string>)
    requires sep != []
    ensures |parts| >= 1
    ensures forall k :: 0 <= k < |parts| ==> !Contains(parts[k], sep)
    decreases |s|
  {
    var i := Index(s, sep);
    if i == -1 then [s]
    else
      var rest := Split(s[i + |sep|..], sep);
      assert !Contains(s[..i], sep) by {
        forall j | OccursAt(s[..i], sep, j) ensures false {
          OccursAtPrefix(s, sep, i, j);
        }
      }
      [s[..i]] + rest
  }

  /** Go's `strings.Join`: the pieces with `sep` between consecutive ones. */
  function Join(parts: seq<string>, sep: string): string
    decreases |parts|
  {
    if |parts| == 0 then []
    else if |parts| == 1 then parts[0]
    else parts[0] + sep + Join(parts[1..], sep)
  }

  /**
   * Go's `strings.Replace(s, pat, rep, -1)` for a non-empty `pat`: every
   * leftmost non-overlapping occurrence of `pat` is replaced by `rep`.
   */
  function ReplaceAll(s: string, pat: string, rep: string): (r: string)
    requires pat != []
    ensures !Contains(s, pat) ==> r == s
    decreases |s|
  {
    var i := Index(s, pat);
    if i == -1 then s
    else s[..i] + rep + ReplaceAll(s[i + |pat|..], pat, rep)
  }

  /** Joining a piece in front of at least one more puts one separator between. */
  lemma JoinCons(a: string, rest: seq<string>, sep: string)
    requires rest != []
    ensures Join([a] + rest, sep) == a + sep + Join(rest, sep)
  {
    assert ([a] + rest)[0] == a;
    assert ([a] + rest)[1..] == rest;
  }

  /** One step of `Split` at the leftmost occurrence `i`. */
  lemma SplitStep(s: string, sep: string, i: int)
    requires sep != [] && i == Index(s, sep) && i != -1
    ensures s == s[..i] + sep + s[i + |sep|..]
    ensures Split(s, sep) == [s[..i]] + Split(s[i + |sep|..], sep)
  {
    CutAt(s, sep, i);
  }

  /** Splitting and joining with the same separator gives back the input. */
  lemma {:induction false} JoinSplit(s: string, sep: string)
    requires sep != []
    ensures Join(Split(s, sep), sep) == s
    decreases |s|
  {
    var i := Index(s, sep);
    if i != -1 {
      var head, tail := s[..i], s[i + |sep|..];
      SplitStep(s, sep, i);
      JoinSplit(tail, sep);
      JoinCons(head, Split(tail, sep), sep);
    }
  }

  /**
   * The cut after a piece of `Split` falls at the leftmost occurrence: in the
   * piece followed by the separator, the first occurrence is that separator.
   */
  lemma CutIsLeftmost(s: string, sep: string, i: int)
    requires sep != [] && i == Index(s, sep) && i != -1
    ensures Index(s[..i] + sep, sep) == i
  {
    var t, tail := s[..i] + sep, s[i + |sep|..];
    CutAt(s, sep, i);
    OccursAtEnd(s[..i], sep);
    IndexLeast(t, sep, i);
    IndexOccurs(t, sep);
    OccursExtend(t, tail, sep, Index(t, sep));
  }

  /** Every cut `Split` makes is at the leftmost occurrence of the separator in what remains. */
  lemma {:induction false} SplitLeftmost(s: string, sep: string)
    requires sep != []
    ensures forall k :: 0 <= k < |Split(s, sep)| - 1 ==>
              Index(Split(s, sep)[k] + sep, sep) == |Split(s, sep)[k]|
    decreases |s|
  {
    var i := Index(s, sep);
    if i != -1 {
      var tail := s[i + |sep|..];
      SplitStep(s, sep, i);
      CutIsLeftmost(s, sep, i);
      SplitLeftmost(tail, sep);
      var parts, rest := Split(s, sep), Split(tail, sep);
      forall k | 0 <= k < |parts| - 1
        ensures Index(parts[k] + sep, sep) == |parts[k]|
      {
        if k > 0 { assert parts[k] == rest[k - 1]; }
      }
    }
  }

  /**
   * `Split` is the only way to cut `s` into pieces that join back to `s`
   * with every cut at the leftmost occurrence and no occurrence in the last
   * piece: so the pieces are determined, even for a separator that overlaps
   * itself.
   */
  lemma {:induction false} SplitUnique(s: string, sep: string, parts: seq<string>)
    requires sep != [] && parts != []
    requires Join(parts, sep) == s
    requires forall k :: 0 <= k < |parts| - 1 ==> Index(parts[k] + sep, sep) == |parts[k]|
    requires !Contains(parts[|parts| - 1], sep)
    ensures Split(s, sep) == parts
    decreases |parts|
  {
    if |parts| > 1 {
      var a, rest := parts[0], parts[1..];
      var tail := Join(rest, sep);
      JoinCons(a, rest, sep);
      assert parts == [a] + rest;
      IndexAtCut(a, sep, tail);
      assert s[|a| + |sep|..] == tail;
      SplitUnique(tail, sep, rest);
      SplitStep(s, sep, |a|);
    }
  }

  /** When `a + sep` first holds `sep` at its end, so does `a + sep + rest`. */
  lemma IndexAtCut(a: string, sep: string, rest: string)
    requires sep != [] && Index(a + sep, sep) == |a|
    ensures Index(a + sep + rest, sep) == |a|
  {
    var t := a + sep;
    IndexOccurs(t, sep);
    OccursExtend(t, rest, sep, |a|);
    IndexLeast(t + rest, sep, |a|);
    IndexOccurs(t + rest, sep);
    OccursInFront(t, rest, sep, Index(t + rest, sep));
    IndexLeast(t, sep, Index(t + rest, sep));
  }

  /** A found index is an occurrence. */
  lemma IndexOccurs(s: string, pat: string)
    requires Index(s, pat) != -1
    ensures OccursAt(s, pat, Index(s, pat))
  {
  }

  /** Any occurrence bounds the index from above. */
  lemma IndexLeast(s: string, pat: string, j: int)
    requires OccursAt(s, pat, j)
    ensures Index(s, pat) != -1 && Index(s, pat) <= j
  {
    assert Contains(s, pat);
  }

  /**
   * Replacing is splitting at the pattern and joining with the replacement:
   * the pieces between occurrences are kept verbatim.
   */
  lemma {:induction false} ReplaceAllIsJoinSplit(s: string, pat: string, rep: string)
    requires pat != []
    ensures ReplaceAll(s, pat, rep) == Join(Split(s, pat), rep)
    decreases |s|
  {
    var i := Index(s, pat);
    if i != -1 {
      var head, tail := s[..i], s[i + |pat|..];
      SplitStep(s, pat, i);
      ReplaceAllIsJoinSplit(tail, pat, rep);
      JoinCons(head, Split(tail, pat), rep);
    }
  }

  /**
   * The result of replacing, told apart from its body: for any pieces that
   * join back to `s` with each cut at the leftmost occurrence, replacing
   * joins those pieces with `rep`.
   */
  lemma ReplaceAllByPieces(s: string, pat: string, rep: string, parts: seq<string>)
    requires pat != [] && parts != []
    requires Join(parts, pat) == s
    requires forall k :: 0 <= k < |parts| - 1 ==> Index(parts[k] + pat, pat) == |parts[k]|
    requires !Contains(parts[|parts| - 1], pat)
    ensures ReplaceAll(s, pat, rep) == Join(parts, rep)
  {
    SplitUnique(s, pat, parts);
    ReplaceAllIsJoinSplit(s, pat, rep);
  }

  /** Replacing a pattern by itself changes nothing. */
  lemma ReplaceAllWithItself(s: string, pat: string)
    requires pat != []
    ensures ReplaceAll(s, pat, pat) == s
  {
    ReplaceAllIsJoinSplit(s, pat, pat);
    JoinSplit(s, pat);
  }

  /** The total length of the pieces. */
  function TotalLength(parts: seq<string>): nat
    decreases |parts|
  {
    if parts == [] then 0 else |parts[0]| + TotalLength(parts[1..])
  }

  /** Joining adds one separator between each two consecutive pieces. */
  lemma {:induction false} JoinLength(parts: seq<string>, sep: string)
    requires parts != []
    ensures |Join(parts, sep)| == TotalLength(parts) + (|parts| - 1) * |sep|
    decreases |parts|
  {
    if |parts| > 1 {
      JoinLength(parts[1..], sep);
      var k := |parts| - 2;
      assert (k + 1) * |sep| == k * |sep| + |sep|;
    }
  }

  /**
   * The length of the result: each of the `|Split(s, pat)| - 1` occurrences
   * trades `|pat|` characters for `|rep|`, and nothing else changes length.
   */
  lemma ReplaceAllLength(s: string, pat: string, rep: string)
    requires pat != []
    ensures |ReplaceAll(s, pat, rep)| == |s| + (|Split(s, pat)| - 1) * (|rep| - |pat|)
  {
    JoinSplit(s, pat);
    ReplaceAllIsJoinSplit(s, pat, rep);
    RejoinedLength(Split(s, pat), pat, rep);
  }

  /** The same pieces joined with two separators: the lengths differ by one separator change per cut. */
  lemma RejoinedLength(parts: seq<string>, pat: string, rep: string)
    requires parts != []
    ensures |Join(parts, rep)| == |Join(parts, pat)| + (|parts| - 1) * (|rep| - |pat|)
  {
    JoinLength(parts, pat);
    JoinLength(parts, rep);
    Rebalance(|Join(parts, rep)|, |Join(parts, pat)|, TotalLength(parts), |parts| - 1, |rep|, |pat|);
  }

  /** Two sums over the same pieces differ only by their separators. */
  lemma Rebalance(lr: int, ls: int, total: int, k: int, lrep: int, lpat: int)
    requires lr == total + k * lrep && ls == total + k * lpat
    ensures lr == ls + k * (lrep - lpat)
  {
    assert k * (lrep - lpat) == k * lrep - k * lpat;
  }

  /** A string without the first character of `pat` cannot contain `pat`. */
  lemma LacksFirstChar(s: string, pat: string)
    requires pat != []
    requires pat[0] !in s
    ensures !Contains(s, pat)
  {
  }
}
