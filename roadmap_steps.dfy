/**
 * The learning-path list of the roadmap view: the roadmap text split on the
 * regular expression `\n\s*\d+\.\s*` (a line break, optional white space, a
 * number, a dot and optional white space) with the empty pieces dropped.
 */
module RoadmapSteps {
  import opened Wrappers

  /** `\s` in an ECMAScript regular expression: white space and line terminators. */
  predicate IsSpace(c: char): (ok: bool)
    ensures c == '\n' ==> ok
    ensures ok ==> !IsDigit(c) && c != '.'
  {
    c == '\t' || c == '\n' || c == '\U{000B}' || c == '\U{000C}' || c == '\r' || c == ' '
    || c == '\U{00A0}' || c == '\U{1680}' || ('\U{2000}' <= c <= '\U{200A}')
    || c == '\U{2028}' || c == '\U{2029}' || c == '\U{202F}' || c == '\U{205F}'
    || c == '\U{3000}' || c == '\U{FEFF}'
  }

  /** `\d` in an ECMAScript regular expression. */
  predicate IsDigit(c: char) {
    '0' <= c <= '9'
  }

  /** Every character of `s[lo..hi]` is in the class. */
  predicate AllOf(s: string, lo: nat, hi: nat, inClass: char -> bool)
    requires lo <= hi <= |s|
  {
    forall k :: lo <= k < hi ==> inClass(s[k])
  }

  /**
   * The regular expression matches `s[i..e]`: a line break at `i`, white space
   * up to `a`, digits from `a` to `b`, a dot at `b`, white space up to `e`.
   */
  ghost predicate SeparatorMatch(s: string, i: nat, e: nat) {
    i < e <= |s| && s[i] == '\n'
    && exists a, b :: i + 1 <= a < b < e && AllOf(s, i + 1, a, IsSpace)
         && AllOf(s, a, b, IsDigit) && s[b] == '.' && AllOf(s, b + 1, e, IsSpace)
  }

  /** Index just past the longest run of characters of the class starting at `i` (a greedy `*`). */
  function RunEnd(s: string, i: nat, inClass: char -> bool): (j: nat)
    requires i <= |s|
    ensures i <= j <= |s|
    ensures AllOf(s, i, j, inClass)
    ensures j < |s| ==> !inClass(s[j])
    decreases |s| - i
  {
    if i < |s| && inClass(s[i]) then RunEnd(s, i + 1, inClass) else i
  }

  /** The run ends at the first character outside the class. */
  lemma {:induction false} RunEndAt(s: string, i: nat, j: nat, inClass: char -> bool)
    requires i <= j < |s| && AllOf(s, i, j, inClass) && !inClass(s[j])
    ensures RunEnd(s, i, inClass) == j
    decreases j - i
  {
    if i < j {
      RunEndAt(s, i + 1, j, inClass);
    }
  }

  /** No run of the class starting at `i` reaches past the greedy one. */
  lemma {:induction false} RunEndIsLongest(s: string, i: nat, j: nat, inClass: char -> bool)
    requires i <= j <= |s| && AllOf(s, i, j, inClass)
    ensures j <= RunEnd(s, i, inClass)
    decreases j - i
  {
    if i < j {
      RunEndIsLongest(s, i + 1, j, inClass);
    }
  }

  /**
   * The match of the separator that starts at `i`, as the regular expression
   * engine finds it: the end of the match, or None when it does not match there.
   * Among all matches at `i` it is the longest, which is the one the greedy
   * quantifiers select (`\s` and `\d` are disjoint, so the only choice left is
   * the trailing `\s*`).
   */
  function SeparatorEnd(s: string, i: nat): (r: Option<nat>)
    requires i <= |s|
    ensures r.Some? ==> SeparatorMatch(s, i, r.value)
    ensures r.None? ==> forall e: nat :: !SeparatorMatch(s, i, e)
    ensures r.Some? ==> forall e: nat :: SeparatorMatch(s, i, e) ==> e <= r.value
  {
    if i < |s| && s[i] == '\n' then
      var a := RunEnd(s, i + 1, IsSpace);
      var b := RunEnd(s, a, IsDigit);
      if a < b < |s| && s[b] == '.' then
        var e := RunEnd(s, b + 1, IsSpace);
        SeparatorEndMatches(s, i, a, b, e);
        SeparatorEndLongest(s, i, e);
        Some(e)
      else
        SeparatorEndNone(s, i);
        None
    else
      None
  }

  lemma SeparatorEndMatches(s: string, i: nat, a: nat, b: nat, e: nat)
    requires i < |s| && s[i] == '\n'
    requires a == RunEnd(s, i + 1, IsSpace) && b == RunEnd(s, a, IsDigit)
    requires a < b < |s| && s[b] == '.' && e == RunEnd(s, b + 1, IsSpace)
    ensures SeparatorMatch(s, i, e)
  {
  }

  /** Any match at `i` is made of the greedy runs, so it ends no later than `e`. */
  lemma SeparatorGreedy(s: string, i: nat, e': nat)
    requires SeparatorMatch(s, i, e')
    ensures RunEnd(s, RunEnd(s, i + 1, IsSpace), IsDigit) < |s|
    ensures var b := RunEnd(s, RunEnd(s, i + 1, IsSpace), IsDigit);
      RunEnd(s, i + 1, IsSpace) < b && s[b] == '.' && e' <= RunEnd(s, b + 1, IsSpace)
  {
    var a, b :| i + 1 <= a < b < e' && AllOf(s, i + 1, a, IsSpace)
      && AllOf(s, a, b, IsDigit) && s[b] == '.' && AllOf(s, b + 1, e', IsSpace);
    assert IsDigit(s[a]);
    RunEndAt(s, i + 1, a, IsSpace);
    RunEndAt(s, a, b, IsDigit);
    RunEndIsLongest(s, b + 1, e', IsSpace);
  }

  lemma SeparatorEndLongest(s: string, i: nat, e: nat)
    requires i < |s| && s[i] == '\n'
    requires var a := RunEnd(s, i + 1, IsSpace); var b := RunEnd(s, a, IsDigit);
      a < b < |s| && s[b] == '.' && e == RunEnd(s, b + 1, IsSpace)
    ensures forall e': nat :: SeparatorMatch(s, i, e') ==> e' <= e
  {
    forall e': nat | SeparatorMatch(s, i, e') ensures e' <= e {
      SeparatorGreedy(s, i, e');
    }
  }

  lemma SeparatorEndNone(s: string, i: nat)
    requires i < |s| && s[i] == '\n'
    requires var a := RunEnd(s, i + 1, IsSpace); var b := RunEnd(s, a, IsDigit);
      !(a < b < |s| && s[b] == '.')
    ensures forall e: nat :: !SeparatorMatch(s, i, e)
  {
    forall e: nat | SeparatorMatch(s, i, e) ensures false {
      SeparatorGreedy(s, i, e);
    }
  }

  /** The whole of `t` is one separator. */
  ghost predicate IsSeparator(t: string) {
    SeparatorMatch(t, 0, |t|)
  }

  /** The separator matches nowhere in `t`. */
  ghost predicate SeparatorFree(t: string) {
    forall j: nat, e: nat :: !SeparatorMatch(t, j, e)
  }

  /**
   * ECMAScript's split by a regular expression, from the piece starting at `p`
   * and the scan position `q`: where the separator matches at `q` the piece
   * `s[p..q]` is cut and the scan resumes after the match; elsewhere the scan
   * moves one position on; the text after the last match is the final piece.
   */
  function SplitFrom(s: string, p: nat, q: nat): (pieces: seq<string>)
    requires p <= q <= |s|
    ensures |pieces| >= 1
    ensures forall piece :: piece in pieces ==> |piece| <= |s| - p
    decreases |s| - q
  {
    if q == |s| then [s[p..]]
    else match SeparatorEnd(s, q)
      case None => SplitFrom(s, p, q + 1)
      case Some(e) => [s[p..q]] + SplitFrom(s, e, e)
  }

  /** `s.split` by the separator; the empty text gives one empty piece. */
  function Split(s: string): (pieces: seq<string>)
    ensures |pieces| >= 1
    ensures s == "" ==> pieces == [""]
  {
    SplitFrom(s, 0, 0)
  }

  /** The texts of the matches that `SplitFrom` cuts at, in order. */
  ghost function SeparatorsFrom(s: string, p: nat, q: nat): seq<string>
    requires p <= q <= |s|
    decreases |s| - q
  {
    if q == |s| then []
    else match SeparatorEnd(s, q)
      case None => SeparatorsFrom(s, p, q + 1)
      case Some(e) => [s[q..e]] + SeparatorsFrom(s, e, e)
  }

  /** `pieces[0] + seps[0] + pieces[1] + ... + pieces[|seps|]`. */
  function Interleave(pieces: seq<string>, seps: seq<string>): string
    requires |pieces| == |seps| + 1
    decreases |seps|
  {
    if seps == [] then pieces[0] else pieces[0] + seps[0] + Interleave(pieces[1..], seps[1..])
  }

  /** `.filter(n => n.length > 0)`. */
  function DropEmpty(xs: seq<string>): (r: seq<string>)
    ensures "" !in r
    ensures forall t :: t != "" ==> (t in r <==> t in xs)
    ensures |r| <= |xs|
  {
    if xs == [] then []
    else if xs[0] == "" then DropEmpty(xs[1..])
    else [xs[0]] + DropEmpty(xs[1..])
  }

  /** The filter keeps the non-empty pieces in their order and with their repetitions. */
  lemma {:induction false} DropEmptyAppend(a: seq<string>, b: seq<string>)
    ensures DropEmpty(a + b) == DropEmpty(a) + DropEmpty(b)
  {
    if a == [] {
      assert a + b == b;
    } else {
      assert (a + b)[1..] == a[1..] + b;
      DropEmptyAppend(a[1..], b);
    }
  }

  /** The steps of the roadmap, as the learning-path tab lists them. */
  function Steps(roadmap: string): (steps: seq<string>)
    ensures "" !in steps
  {
    DropEmpty(Split(roadmap))
  }

  /** A match inside a slice is a match in the whole text, shifted by the slice's start. */
  lemma MatchInSlice(s: string, p: nat, q: nat, j: nat, e: nat)
    requires p <= q <= |s|
    ensures SeparatorMatch(s[p..q], j, e) ==> SeparatorMatch(s, p + j, p + e)
  {
    var t := s[p..q];
    if SeparatorMatch(t, j, e) {
      var a, b :| j + 1 <= a < b < e && AllOf(t, j + 1, a, IsSpace)
        && AllOf(t, a, b, IsDigit) && t[b] == '.' && AllOf(t, b + 1, e, IsSpace);
      assert AllOf(s, p + j + 1, p + a, IsSpace) && AllOf(s, p + a, p + b, IsDigit)
        && AllOf(s, p + b + 1, p + e, IsSpace) by {
        forall k | p + j + 1 <= k < p + e ensures s[k] == t[k - p] { }
      }
    }
  }

  /** A match in the whole text, cut out, is a separator on its own. */
  lemma MatchIsSeparator(s: string, i: nat, e: nat)
    requires SeparatorMatch(s, i, e)
    ensures IsSeparator(s[i..e])
  {
    var t := s[i..e];
    var a, b :| i + 1 <= a < b < e && AllOf(s, i + 1, a, IsSpace)
      && AllOf(s, a, b, IsDigit) && s[b] == '.' && AllOf(s, b + 1, e, IsSpace);
    assert t[0] == '\n' && t[b - i] == '.';
    assert AllOf(t, 1, a - i, IsSpace) && AllOf(t, a - i, b - i, IsDigit)
      && AllOf(t, b - i + 1, |t|, IsSpace);
  }

  /** The pieces and the separators between them, put back together, give the text from `p` on. */
  lemma {:induction false} SplitFromReassembles(s: string, p: nat, q: nat)
    requires p <= q <= |s|
    ensures |SplitFrom(s, p, q)| == |SeparatorsFrom(s, p, q)| + 1
    ensures Interleave(SplitFrom(s, p, q), SeparatorsFrom(s, p, q)) == s[p..]
    decreases |s| - q
  {
    if q < |s| {
      match SeparatorEnd(s, q)
      case None =>
        SplitFromReassembles(s, p, q + 1);
      case Some(e) =>
        SplitFromReassembles(s, e, e);
        CutReassembles(s, p, q, e, SplitFrom(s, e, e), SeparatorsFrom(s, e, e));
    }
  }

  lemma CutReassembles(s: string, p: nat, q: nat, e: nat, pieces: seq<string>, seps: seq<string>)
    requires p <= q < e <= |s| && |pieces| == |seps| + 1
    requires Interleave(pieces, seps) == s[e..]
    ensures Interleave([s[p..q]] + pieces, [s[q..e]] + seps) == s[p..]
  {
    var all, allSeps := [s[p..q]] + pieces, [s[q..e]] + seps;
    assert all[1..] == pieces && allSeps[1..] == seps;
    assert s[p..] == s[p..q] + s[q..e] + s[e..];
  }

  /** Every text that `SplitFrom` cuts at is a whole match of the regular expression. */
  lemma {:induction false} SeparatorsAreMatches(s: string, p: nat, q: nat)
    requires p <= q <= |s|
    ensures forall sep :: sep in SeparatorsFrom(s, p, q) ==> IsSeparator(sep)
    decreases |s| - q
  {
    if q < |s| {
      match SeparatorEnd(s, q)
      case None =>
        SeparatorsAreMatches(s, p, q + 1);
      case Some(e) =>
        SeparatorsAreMatches(s, e, e);
        MatchIsSeparator(s, q, e);
    }
  }

  /**
   * No piece contains a match, given that none of the positions from `p` up
   * to the scan position `q` starts one.
   */
  lemma {:induction false} SplitFromPiecesFree(s: string, p: nat, q: nat)
    requires p <= q <= |s|
    requires forall j :: p <= j < q ==> SeparatorEnd(s, j).None?
    ensures forall piece :: piece in SplitFrom(s, p, q) ==> SeparatorFree(piece)
    decreases |s| - q
  {
    if q == |s| {
      SliceFree(s, p, q);
      assert s[p..] == s[p..q];
    } else {
      match SeparatorEnd(s, q)
      case None =>
        SplitFromPiecesFree(s, p, q + 1);
      case Some(e) =>
        SliceFree(s, p, q);
        SplitFromPiecesFree(s, e, e);
    }
  }

  lemma SliceFree(s: string, p: nat, q: nat)
    requires p <= q <= |s|
    requires forall j :: p <= j < q ==> SeparatorEnd(s, j).None?
    ensures SeparatorFree(s[p..q])
  {
    forall j: nat, e: nat ensures !SeparatorMatch(s[p..q], j, e) {
      MatchInSlice(s, p, q, j, e);
      if j < e <= q - p {
        assert SeparatorEnd(s, p + j).None?;
      }
    }
  }

  /** Text in which the separator never matches is split into itself alone. */
  lemma {:induction false} SplitFromFree(s: string, q: nat)
    requires q <= |s| && SeparatorFree(s)
    ensures SplitFrom(s, 0, q) == [s]
    decreases |s| - q
  {
    if q < |s| {
      var r := SeparatorEnd(s, q);
      assert r.Some? ==> SeparatorMatch(s, q, r.value);
      SplitFromFree(s, q + 1);
    }
  }

  /** Every step is a non-empty piece of the roadmap that contains no separator. */
  lemma StepsAreSeparatorFree(roadmap: string)
    ensures forall step :: step in Steps(roadmap) ==> step != "" && step in Split(roadmap) && SeparatorFree(step)
  {
    SplitFromPiecesFree(roadmap, 0, 0);
  }

  /** Split cuts the roadmap only at separators: pieces and separators reassemble it. */
  lemma SplitReassembles(roadmap: string)
    ensures |Split(roadmap)| == |SeparatorsFrom(roadmap, 0, 0)| + 1
    ensures Interleave(Split(roadmap), SeparatorsFrom(roadmap, 0, 0)) == roadmap
    ensures forall sep :: sep in SeparatorsFrom(roadmap, 0, 0) ==> IsSeparator(sep)
  {
    SplitFromReassembles(roadmap, 0, 0);
    SeparatorsAreMatches(roadmap, 0, 0);
    assert roadmap[0..] == roadmap;
  }

  /** A roadmap without any numbered-line separator is one step, or none when it is empty. */
  lemma StepsWithoutSeparator(roadmap: string)
    requires SeparatorFree(roadmap)
    ensures Steps(roadmap) == if roadmap == "" then [] else [roadmap]
  {
    SplitFromFree(roadmap, 0);
  }
}
