/**
 * Character classes and the regular-expression building blocks the extraction
 * grammars are made of. Every matcher is anchored: it is given a text and a
 * position and answers with the end of the match there, or None.
 *
 * Whitespace runs (`\s*`, `\s{0,m}`) are matched greedily without backtracking.
 * In every grammar of this model such a run is followed by a digit, a word
 * character or a literal that is not whitespace, so giving back a whitespace
 * character can never let the rest match: greedy is the only way to match.
 */
module Scan {
  import opened Wrappers

  /**
   * Python's `\s` on a str pattern: the characters `str.isspace` accepts, that is
   * \t, \n, \v, \f, \r, the separators \x1c to \x1f, the space, \x85, the
   * no-break space and the Unicode spaces and line and paragraph separators.
   */
  predicate IsSpace(c: char) {
    if c <= ' ' then c == ' ' || '\U{9}' <= c <= '\U{D}' || '\U{1C}' <= c
    else c == '\U{85}' || c == '\U{A0}' || (c >= '\U{1680}' && IsWideSpace(c))
  }

  /** The whitespace above U+167F: the Ogham space mark, the Unicode spaces, the separators and the ideographic space. */
  predicate IsWideSpace(c: char) {
    c == '\U{1680}' || '\U{2000}' <= c <= '\U{200A}' || c == '\U{2028}' || c == '\U{2029}' ||
    c == '\U{202F}' || c == '\U{205F}' || c == '\U{3000}'
  }

  /** `\d` restricted to ASCII. */
  predicate IsDigit(c: char) {
    '0' <= c <= '9'
  }

  /** `\w` restricted to ASCII: letters, digits and the underscore. */
  predicate IsWord(c: char) {
    IsDigit(c) || 'a' <= c <= 'z' || 'A' <= c <= 'Z' || c == '_'
  }

  predicate AllDigits(s: string) {
    forall k :: 0 <= k < |s| ==> IsDigit(s[k])
  }

  predicate AllWord(s: string) {
    forall k :: 0 <= k < |s| ==> IsWord(s[k])
  }

  predicate NoSpace(s: string) {
    forall k :: 0 <= k < |s| ==> !IsSpace(s[k])
  }

  /** Word characters are not whitespace. */
  lemma AllWordNoSpace(s: string)
    requires AllWord(s)
    ensures NoSpace(s)
  {
    forall k | 0 <= k < |s| ensures !IsSpace(s[k]) {
      assert IsWord(s[k]);
    }
  }

  /** `"".join(re.split(r"\s+", s))`: the text with every whitespace character dropped. */
  function RemoveWs(s: string): (r: string)
    ensures |r| <= |s|
  {
    if s == [] then [] else (if IsSpace(s[0]) then [] else [s[0]]) + RemoveWs(s[1..])
  }

  /** No whitespace is left, every character left was in s, and every other character of s is kept. */
  lemma {:induction false} RemoveWsMeaning(s: string)
    ensures NoSpace(RemoveWs(s))
    ensures forall c :: c in RemoveWs(s) ==> c in s
    ensures forall c :: c in s && !IsSpace(c) ==> c in RemoveWs(s)
  {
    if s != [] {
      RemoveWsMeaning(s[1..]);
    }
  }

  /** `s.replace(" ", "")`: only the space character is dropped, other whitespace stays. */
  function RemoveSpaces(s: string): (r: string)
    ensures |r| <= |s|
  {
    if s == [] then [] else (if s[0] == ' ' then [] else [s[0]]) + RemoveSpaces(s[1..])
  }

  /** No space is left, and everything else is kept. */
  lemma {:induction false} RemoveSpacesMeaning(s: string)
    ensures ' ' !in RemoveSpaces(s)
    ensures forall c :: c in s && c != ' ' ==> c in RemoveSpaces(s)
  {
    if s != [] {
      RemoveSpacesMeaning(s[1..]);
    }
  }

  /** Python's `s[-n:]` for a positive n: the last n characters, or all of s when it is shorter. */
  function Last(s: string, n: nat): (r: string)
    ensures |r| == if |s| <= n then |s| else n
    ensures r == s[|s| - |r|..]
  {
    if |s| <= n then s else s[|s| - n..]
  }

  lemma {:induction false} RemoveWsAppend(a: string, b: string)
    ensures RemoveWs(a + b) == RemoveWs(a) + RemoveWs(b)
  {
    if a == [] {
      assert a + b == b;
    } else {
      assert (a + b)[1..] == a[1..] + b;
      RemoveWsAppend(a[1..], b);
    }
  }

  /** Splitting a slice at an inner point splits its whitespace-free text the same way. */
  lemma RemoveWsSplit(s: string, i: nat, j: nat, k: nat)
    requires i <= j <= k <= |s|
    ensures RemoveWs(s[i..k]) == RemoveWs(s[i..j]) + RemoveWs(s[j..k])
  {
    assert s[i..k] == s[i..j] + s[j..k];
    RemoveWsAppend(s[i..j], s[j..k]);
  }

  lemma {:induction false} RemoveWsNoSpace(s: string)
    requires NoSpace(s)
    ensures RemoveWs(s) == s
  {
    if s != [] {
      RemoveWsNoSpace(s[1..]);
    }
  }

  /** When the only whitespace in s is the space character, dropping spaces drops all whitespace. */
  lemma {:induction false} RemoveSpacesIsRemoveWs(s: string)
    requires forall k :: 0 <= k < |s| && IsSpace(s[k]) ==> s[k] == ' '
    ensures RemoveSpaces(s) == RemoveWs(s)
  {
    if s != [] {
      RemoveSpacesIsRemoveWs(s[1..]);
    }
  }

  /** The literal w occurs in s at position i. */
  predicate LiteralAt(s: string, i: nat, w: string) {
    i + |w| <= |s| && s[i..i + |w|] == w
  }

  /** A case-insensitive literal such as `[Oo][Rr][Dd][Ee][Rr]`: position k matches lower[k] or upper[k]. */
  predicate FoldedAt(s: string, i: nat, lower: string, upper: string)
    requires |lower| == |upper|
  {
    i + |lower| <= |s| && forall k :: 0 <= k < |lower| ==> s[i + k] == lower[k] || s[i + k] == upper[k]
  }

  /** Greedy `\s*` from i: the first position at or after i that is not whitespace. */
  function SpaceEnd(s: string, i: nat): (j: nat)
    requires i <= |s|
    ensures i <= j <= |s|
    ensures j == |s| || !IsSpace(s[j])
    decreases |s| - i
  {
    if i < |s| && IsSpace(s[i]) then SpaceEnd(s, i + 1) else i
  }

  /** Everything greedy `\s*` skips is whitespace. */
  lemma {:induction false} SpaceEndSkipsSpaces(s: string, i: nat)
    requires i <= |s|
    ensures forall k :: i <= k < SpaceEnd(s, i) ==> IsSpace(s[k])
    decreases |s| - i
  {
    if i < |s| && IsSpace(s[i]) {
      SpaceEndSkipsSpaces(s, i + 1);
    }
  }

  /** Greedy `\s{0,m}` from i: at most m whitespace characters. */
  function SpacesUpTo(s: string, i: nat, m: nat): (j: nat)
    requires i <= |s|
    ensures i <= j <= i + m && j <= |s|
    ensures j < i + m ==> j == |s| || !IsSpace(s[j])
    decreases m
  {
    if m > 0 && i < |s| && IsSpace(s[i]) then SpacesUpTo(s, i + 1, m - 1) else i
  }

  /** Everything greedy `\s{0,m}` skips is whitespace. */
  lemma {:induction false} SpacesUpToSkipsSpaces(s: string, i: nat, m: nat)
    requires i <= |s|
    ensures forall k :: i <= k < SpacesUpTo(s, i, m) ==> IsSpace(s[k])
    decreases m
  {
    if m > 0 && i < |s| && IsSpace(s[i]) {
      SpacesUpToSkipsSpaces(s, i + 1, m - 1);
    }
  }

  /** `(\s*\d){n}` anchored at i: n digits, each preceded by any amount of whitespace. */
  function DigitRun(s: string, i: nat, n: nat): (r: Option<nat>)
    ensures r.Some? ==> i <= r.value <= |s| && (n > 0 ==> i < r.value)
    decreases |s| + n - i
  {
    if i > |s| then None
    else if n == 0 then Some(i)
    else
      var j := SpaceEnd(s, i);
      if j < |s| && IsDigit(s[j]) then DigitRun(s, j + 1, n - 1) else None
  }

  /** A digit run matches a span whose whitespace-free text is exactly n digits, the last one closing the span. */
  lemma {:induction false} DigitRunText(s: string, i: nat, n: nat, e: nat)
    requires DigitRun(s, i, n) == Some(e)
    ensures |RemoveWs(s[i..e])| == n && AllDigits(RemoveWs(s[i..e]))
    ensures n > 0 ==> IsDigit(s[e - 1])
    decreases n
  {
    if n == 0 {
      assert s[i..e] == [];
    } else {
      var j := SpaceEnd(s, i);
      DigitRunText(s, j + 1, n - 1, e);
      RemoveWsSplit(s, i, j, e);
      RemoveWsSplit(s, j, j + 1, e);
      SpaceEndSkipsSpaces(s, i);
      SpacesRemoved(s, i, j);
      assert s[j..j + 1] == [s[j]];
      if n == 1 {
        assert e == j + 1;
      }
    }
  }

  /** A slice made only of whitespace has no whitespace-free text. */
  lemma {:induction false} SpacesRemoved(s: string, i: nat, j: nat)
    requires i <= j <= |s|
    requires forall k :: i <= k < j ==> IsSpace(s[k])
    ensures RemoveWs(s[i..j]) == []
    decreases j - i
  {
    if i < j {
      assert s[i..j][1..] == s[i + 1..j];
      SpacesRemoved(s, i + 1, j);
    }
  }

  /** Greedy whitespace skipping stops at the latest at the next non-space. */
  lemma {:induction false} SpaceEndBefore(s: string, i: nat, c: nat)
    requires i <= c < |s| && !IsSpace(s[c])
    ensures SpaceEnd(s, i) <= c
    decreases c - i
  {
    if i < c && IsSpace(s[i]) {
      SpaceEndBefore(s, i + 1, c);
    }
  }

  /** A run of n > 0 digits from i needs n positions in front of a digit-free stretch starting at q. */
  lemma {:induction false} DigitRunRoom(s: string, i: nat, n: nat, q: nat)
    requires forall k :: q <= k < |s| ==> !IsDigit(s[k])
    requires n > 0 && DigitRun(s, i, n).Some?
    ensures i + n <= q
    decreases n
  {
    var j := SpaceEnd(s, i);
    if n > 1 {
      DigitRunRoom(s, j + 1, n - 1, q);
    }
  }

  /** n digits in a row are matched by `(\s*\d){n}` exactly. */
  lemma {:induction false} DigitRunOnDigits(s: string, i: nat, n: nat)
    requires i + n <= |s|
    requires forall k :: i <= k < i + n ==> IsDigit(s[k])
    ensures DigitRun(s, i, n) == Some(i + n)
    decreases n
  {
    if n > 0 {
      assert SpaceEnd(s, i) == i;
      DigitRunOnDigits(s, i + 1, n - 1);
    }
  }

  /** Greedy whitespace skipping is unaffected by cutting the text around it, when it stops inside the cut. */
  lemma {:induction false} SpaceEndSlice(s: string, a: nat, b: nat, j: nat)
    requires a <= j <= b <= |s|
    requires SpaceEnd(s, j) < b
    ensures SpaceEnd(s[a..b], j - a) == SpaceEnd(s, j) - a
    decreases b - j
  {
    if IsSpace(s[j]) {
      SpaceEndSlice(s, a, b, j + 1);
    }
  }

  /** A digit run that lies inside s[a..b] is found at the same place in that slice. */
  lemma {:induction false} DigitRunSlice(s: string, a: nat, b: nat, j: nat, n: nat, e: nat)
    requires a <= j && e <= b <= |s|
    requires DigitRun(s, j, n) == Some(e)
    ensures DigitRun(s[a..b], j - a, n) == Some(e - a)
    decreases n
  {
    if n > 0 {
      var m := SpaceEnd(s, j);
      assert m < e;
      SpaceEndSlice(s, a, b, j);
      DigitRunSlice(s, a, b, m + 1, n - 1, e);
    }
  }

  /**
   * `re.search` with an anchored matcher: the leftmost start at or after `from`
   * (up to and including |s|, where Python also tries) at which the matcher succeeds.
   */
  function Search(s: string, at: (string, nat) -> Option<nat>, from: nat): (r: Option<nat>)
    ensures r.Some? ==> from <= r.value <= |s| && at(s, r.value).Some?
    ensures r.Some? ==> forall j :: from <= j < r.value ==> at(s, j).None?
    ensures r.None? ==> forall j :: from <= j <= |s| ==> at(s, j).None?
    decreases |s| + 1 - from
  {
    if from > |s| then None
    else if at(s, from).Some? then Some(from)
    else Search(s, at, from + 1)
  }

  /** The search stops at the first position where the matcher succeeds. */
  lemma SearchFinds(s: string, at: (string, nat) -> Option<nat>, from: nat, i: nat)
    requires from <= i <= |s| && at(s, i).Some?
    requires forall j :: from <= j < i ==> at(s, j).None?
    ensures Search(s, at, from) == Some(i)
  {
  }

  /** The backward search stops at the last position where the matcher succeeds. */
  lemma {:induction false} SearchBackFinds(s: string, at: (string, nat) -> Option<nat>, p: nat, j: nat, x: nat)
    requires p <= x <= j && at(s, x).Some?
    requires forall m :: x < m <= j ==> at(s, m).None?
    ensures SearchBack(s, at, p, j) == Some(x)
    decreases j - x
  {
    if x < j {
      SearchBackFinds(s, at, p, j - 1, x);
    }
  }

  /** A matcher that only ever matches a non-empty text inside the string. */
  ghost predicate Advances(at: (string, nat) -> Option<nat>) {
    forall s: string, i: nat :: at(s, i).Some? ==> i < at(s, i).value <= |s|
  }

  /** One `re.finditer` match: where it starts and ends, and the text it covers. */
  datatype Match = Match(start: nat, end: nat, text: string)

  /**
   * `re.finditer` from `from`: the leftmost match, then the leftmost match from
   * where that one ended, and so on.
   */
  function FindAll(s: string, at: (string, nat) -> Option<nat>, from: nat): (ms: seq<Match>)
    requires Advances(at)
    ensures forall k :: 0 <= k < |ms| ==>
      from <= ms[k].start < ms[k].end <= |s| && at(s, ms[k].start) == Some(ms[k].end) &&
      ms[k].text == s[ms[k].start..ms[k].end]
    ensures forall k :: 0 <= k < |ms| - 1 ==> ms[k].end <= ms[k + 1].start
    ensures |ms| == 0 <==> forall j :: from <= j <= |s| ==> at(s, j).None?
    ensures |ms| > 0 ==> forall j :: from <= j < ms[0].start ==> at(s, j).None?
    decreases |s| + 1 - from
  {
    match Search(s, at, from)
    case None => []
    case Some(i) =>
      var e := at(s, i).value;
      [Match(i, e, s[i..e])] + FindAll(s, at, e)
  }

  /** The matcher succeeds nowhere in lo..hi-1. */
  predicate NoMatchIn(s: string, at: (string, nat) -> Option<nat>, lo: nat, hi: nat) {
    forall j :: lo <= j < hi ==> at(s, j).None?
  }

  /**
   * Matches found from `from` on skip nothing: the matcher succeeds nowhere in front
   * of the first, between the end of one and the start of the next, or from the end
   * of the last up to and including |s| (with no matches, nowhere from `from` on).
   */
  predicate NothingSkipped(s: string, at: (string, nat) -> Option<nat>, from: nat, ms: seq<Match>) {
    (|ms| == 0 ==> NoMatchIn(s, at, from, |s| + 1)) &&
    (|ms| > 0 ==> NoMatchIn(s, at, from, ms[0].start) && NoMatchIn(s, at, ms[|ms| - 1].end, |s| + 1)) &&
    forall k :: 0 <= k < |ms| - 1 ==> NoMatchIn(s, at, ms[k].end, ms[k + 1].start)
  }

  /** `re.finditer` returns every non-overlapping match: none is skipped. */
  lemma {:induction false} FindAllComplete(s: string, at: (string, nat) -> Option<nat>, from: nat)
    requires Advances(at)
    ensures NothingSkipped(s, at, from, FindAll(s, at, from))
    decreases |s| + 1 - from
  {
    match Search(s, at, from)
    case None =>
    case Some(i) =>
      var e := at(s, i).value;
      FindAllComplete(s, at, e);
      NothingSkippedCons(s, at, from, Match(i, e, s[i..e]), FindAll(s, at, e));
  }

  /** A first match with nothing in front of it, then matches from its end that skip nothing. */
  lemma NothingSkippedCons(s: string, at: (string, nat) -> Option<nat>, from: nat, m: Match, rest: seq<Match>)
    requires NoMatchIn(s, at, from, m.start) && NothingSkipped(s, at, m.end, rest)
    ensures NothingSkipped(s, at, from, [m] + rest)
  {
    var ms := [m] + rest;
    forall k | 0 <= k < |ms| - 1 ensures NoMatchIn(s, at, ms[k].end, ms[k + 1].start) {
      if k > 0 {
        assert ms[k] == rest[k - 1] && ms[k + 1] == rest[k];
      }
    }
    if rest != [] {
      assert ms[|ms| - 1] == rest[|rest| - 1];
    }
  }

  /**
   * The backtracking of a greedy `.*` (under re.S) in front of an anchored
   * matcher: the last position in p..j at which the matcher succeeds.
   */
  function SearchBack(s: string, at: (string, nat) -> Option<nat>, p: nat, j: nat): (r: Option<nat>)
    requires p <= j
    ensures r.Some? ==> p <= r.value <= j && at(s, r.value).Some?
    ensures r.Some? ==> forall m :: r.value < m <= j ==> at(s, m).None?
    ensures r.None? ==> forall m :: p <= m <= j ==> at(s, m).None?
    decreases j - p
  {
    if at(s, j).Some? then Some(j)
    else if j == p then None
    else SearchBack(s, at, p, j - 1)
  }
}
