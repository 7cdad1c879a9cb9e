/** The few java.lang.String operations the gateway relies on, with the
    semantics of the JDK: prefix and suffix tests, leftmost search,
    String.split (trailing empty pieces dropped) and String.trim. */
module Strings {
  import opened Wrappers

  predicate StartsWith(s: string, prefix: string) {
    prefix <= s
  }

  predicate EndsWith(s: string, suffix: string) {
    |suffix| <= |s| && s[|s| - |suffix|..] == suffix
  }

  /** `pat` occurs in `s` starting at index `i`. */
  predicate OccursAt(s: string, pat: string, i: int) {
    0 <= i && i + |pat| <= |s| && s[i..i + |pat|] == pat
  }

  /** String.indexOf(pat, from): the leftmost occurrence at or after `from`. */
  function IndexOf(s: string, pat: string, from: nat): (r: Option<nat>)
    ensures r.Some? ==> from <= r.value && OccursAt(s, pat, r.value)
    ensures r.Some? ==> forall j :: from <= j < r.value ==> !OccursAt(s, pat, j)
    ensures r.None? ==> forall j :: from <= j ==> !OccursAt(s, pat, j)
    decreases |s| - from
  {
    if from + |pat| > |s| then None
    else if s[from..from + |pat|] == pat then Some(from)
    else IndexOf(s, pat, from + 1)
  }

  /** String.contains(pat). */
  predicate Contains(s: string, pat: string) {
    IndexOf(s, pat, 0).Some?
  }

  /** The pieces of `s` between the leftmost, non-overlapping occurrences
      of `sep`, before String.split drops the trailing empty ones. */
  function Pieces(s: string, sep: string): (r: seq<string>)
    requires |sep| > 0
    ensures |r| >= 1 && r[0] <= s
    decreases |s|
  {
    match IndexOf(s, sep, 0)
    case None => [s]
    case Some(i) => [s[..i]] + Pieces(s[i + |sep|..], sep)
  }

  /** The loop at the end of String.split that removes trailing empty
      strings. */
  function DropTrailingEmpty(ps: seq<string>): (r: seq<string>)
    ensures r <= ps
    ensures r != [] ==> r[|r| - 1] != ""
    ensures forall i :: |r| <= i < |ps| ==> ps[i] == ""
    decreases |ps|
  {
    if ps != [] && ps[|ps| - 1] == "" then DropTrailingEmpty(ps[..|ps| - 1]) else ps
  }

  /** String.split with a separator that holds no regular-expression
      metacharacter: when `sep` does not occur the result is `[s]`,
      otherwise the pieces without the trailing empty ones. */
  function Split(s: string, sep: string): seq<string>
    requires |sep| > 0
  {
    if IndexOf(s, sep, 0).None? then [s] else DropTrailingEmpty(Pieces(s, sep))
  }

  /** The characters String.trim removes: every code point up to U+0020. */
  predicate IsTrimmable(c: char) {
    c <= ' '
  }

  /** How many leading characters String.trim removes. */
  function LeadingTrimmable(s: string): (k: nat)
    ensures k <= |s|
    ensures forall j :: 0 <= j < k ==> IsTrimmable(s[j])
    ensures k < |s| ==> !IsTrimmable(s[k])
    decreases |s|
  {
    if s != [] && IsTrimmable(s[0]) then 1 + LeadingTrimmable(s[1..]) else 0
  }

  function TrimEnd(s: string): (r: string)
    ensures r <= s
    ensures r != [] ==> !IsTrimmable(r[|r| - 1])
    ensures forall i :: |r| <= i < |s| ==> IsTrimmable(s[i])
    decreases |s|
  {
    if s != [] && IsTrimmable(s[|s| - 1]) then TrimEnd(s[..|s| - 1]) else s
  }

  /** String.trim: whitespace is cut off in front and behind, so what is
      kept is a prefix of `s` without its leading whitespace. */
  function Trim(s: string): (r: string)
    ensures r <= s[LeadingTrimmable(s)..]
    ensures r != [] ==> !IsTrimmable(r[0]) && !IsTrimmable(r[|r| - 1])
    ensures forall i :: LeadingTrimmable(s) + |r| <= i < |s| ==> IsTrimmable(s[i])
  {
    TrimEnd(s[LeadingTrimmable(s)..])
  }

  /** The pieces of a string are the text before the first separator,
      then the pieces of the text `t` after it. */
  lemma PiecesAt(s: string, sep: string, i: nat, t: string)
    requires |sep| > 0 && IndexOf(s, sep, 0) == Some(i) && t == s[i + |sep|..]
    ensures Pieces(s, sep) == [s[..i]] + Pieces(t, sep)
  {
  }

  /** Dropping the trailing empty strings of all-empty pieces leaves
      nothing. */
  lemma {:induction false} DropAllEmpty(ps: seq<string>)
    requires forall i :: 0 <= i < |ps| ==> ps[i] == ""
    ensures DropTrailingEmpty(ps) == []
    decreases |ps|
  {
    if ps != [] {
      DropAllEmpty(ps[..|ps| - 1]);
    }
  }

  /** The second element survives the dropping of trailing empty strings
      exactly when it is kept, and it is kept when it is not empty. */
  lemma DropKeepsSecond(ps: seq<string>)
    requires |ps| > 1
    ensures |DropTrailingEmpty(ps)| > 1 ==> DropTrailingEmpty(ps)[1] == ps[1]
    ensures ps[1] != "" ==> |DropTrailingEmpty(ps)| > 1
  {
    var r := DropTrailingEmpty(ps);
    if |r| > 1 {
      assert r == ps[..|r|];
    }
  }

  /** A split of a string holding the separator is its pieces without
      the trailing empty ones. */
  lemma SplitDrops(s: string, sep: string)
    requires |sep| > 0 && IndexOf(s, sep, 0).Some?
    ensures Split(s, sep) == DropTrailingEmpty(Pieces(s, sep))
  {
  }

  /** The second piece is the first piece of the text after the first
      separator. */
  lemma PiecesSecond(s: string, sep: string, i: nat)
    requires |sep| > 0 && IndexOf(s, sep, 0) == Some(i)
    ensures |Pieces(s, sep)| > 1 && Pieces(s, sep)[1] == Pieces(s[i + |sep|..], sep)[0]
  {
    var t := s[i + |sep|..];
    PiecesAt(s, sep, i, t);
    var rest := Pieces(t, sep);
    assert |rest| >= 1;
  }

  /** The second part of a split is the text after the first separator,
      up to the next one, and it is kept when it is not empty. */
  lemma SecondPart(s: string, sep: string, i: nat)
    requires |sep| > 0 && IndexOf(s, sep, 0) == Some(i)
    ensures |Split(s, sep)| > 1 ==> Split(s, sep)[1] == Pieces(s[i + |sep|..], sep)[0]
    ensures Pieces(s[i + |sep|..], sep)[0] != "" ==> |Split(s, sep)| > 1
  {
    PiecesSecond(s, sep, i);
    SplitDrops(s, sep);
    DropKeepsSecond(Pieces(s, sep));
  }

  /** The first part of a split is the text before the first separator,
      when that text is not empty. */
  lemma FirstPart(s: string, sep: string, i: nat)
    requires |sep| > 0 && IndexOf(s, sep, 0) == Some(i) && i > 0
    ensures |Split(s, sep)| > 0 && Split(s, sep)[0] == s[..i]
  {
    var pieces := Pieces(s, sep);
    assert pieces[0] == s[..i] by {
      PiecesAt(s, sep, i, s[i + |sep|..]);
    }
    assert |pieces[0]| == i;
    assert Split(s, sep) == DropTrailingEmpty(pieces);
  }

  /** A string without the separator splits into itself alone. */
  lemma WholePart(s: string, sep: string)
    requires |sep| > 0 && sep[0] !in s
    ensures Split(s, sep) == [s]
  {
    forall j | 0 <= j ensures !OccursAt(s, sep, j) {
      if j + |sep| <= |s| {
        assert s[j..j + |sep|][0] == s[j] && s[j] in s;
      }
    }
  }
}
