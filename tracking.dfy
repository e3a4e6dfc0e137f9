/**
 * `extract_tnum_from_sl_text`: reading the tracking number off the text of one
 * shipping-label page. Three carrier patterns are searched for, in this order
 * of priority (the first that matches anywhere on the page wins):
 *
 *   TRK       `TRK.{1,4}[\d]{4}[\s]{0,2}[\d]{4}[\s]{0,2}[\d]{4}`           12 digits
 *   TRACKING  `TRACKING[\s]{0,2}#:[\s]{0,2}[\w]{2}[\s]{0,2}[\w]{3}…[\d]{4}` 18 word characters
 *   USPS      `USPS[\s]{0,2}TRACKING[\s]{0,2}#.*(\s*\d){22}` (re.S)        22 digits
 */
module Tracking {
  import opened Wrappers
  import opened Scan

  /**
   * One `[\s]{0,maxSpaces}[\d]{count}` (or `[\w]{count}`) step of a carrier pattern:
   * a bounded whitespace run followed by exactly `count` characters of the class.
   */
  datatype Group = Group(maxSpaces: nat, count: nat, digitsOnly: bool)

  predicate InClass(c: char, digitsOnly: bool) {
    if digitsOnly then IsDigit(c) else IsWord(c)
  }

  /** `[\d]{n}` or `[\w]{n}` anchored at i. */
  function ClassRun(s: string, i: nat, n: nat, digitsOnly: bool): (r: Option<nat>)
    ensures r.Some? ==> r.value == i + n <= |s|
    decreases |s| - i + n
  {
    if n == 0 then (if i <= |s| then Some(i) else None)
    else if i < |s| && InClass(s[i], digitsOnly) then ClassRun(s, i + 1, n - 1, digitsOnly)
    else None
  }

  /** A class run matches exactly when the next n characters are all of the class. */
  lemma {:induction false} ClassRunMeaning(s: string, i: nat, n: nat, digitsOnly: bool)
    ensures ClassRun(s, i, n, digitsOnly).Some? <==> i + n <= |s| && forall k :: i <= k < i + n ==> InClass(s[k], digitsOnly)
    decreases n
  {
    if n > 0 {
      ClassRunMeaning(s, i + 1, n - 1, digitsOnly);
    }
  }

  /** A sequence of groups anchored at i; each whitespace run is greedy, which is exact before a word character. */
  function GroupsAt(s: string, i: nat, gs: seq<Group>): (r: Option<nat>)
    ensures r.Some? ==> i <= r.value <= |s|
    decreases |s| - i + |gs|
  {
    if gs == [] then (if i <= |s| then Some(i) else None)
    else if i > |s| then None
    else
      var j := SpacesUpTo(s, i, gs[0].maxSpaces);
      match ClassRun(s, j, gs[0].count, gs[0].digitsOnly)
      case None => None
      case Some(k) => GroupsAt(s, k, gs[1..])
  }

  /** How many characters of class the groups ask for. */
  function Total(gs: seq<Group>): nat {
    if gs == [] then 0 else gs[0].count + Total(gs[1..])
  }

  predicate DigitGroups(gs: seq<Group>) {
    forall k :: 0 <= k < |gs| ==> gs[k].digitsOnly
  }

  lemma AllWordAppend(a: string, b: string)
    requires AllWord(a) && AllWord(b)
    ensures AllWord(a + b)
  {
    forall k | 0 <= k < |a + b| ensures IsWord((a + b)[k]) {
      if k < |a| { assert (a + b)[k] == a[k]; } else { assert (a + b)[k] == b[k - |a|]; }
    }
  }

  lemma AllDigitsAppend(a: string, b: string)
    requires AllDigits(a) && AllDigits(b)
    ensures AllDigits(a + b)
  {
    forall k | 0 <= k < |a + b| ensures IsDigit((a + b)[k]) {
      if k < |a| { assert (a + b)[k] == a[k]; } else { assert (a + b)[k] == b[k - |a|]; }
    }
  }

  /** Without its whitespace, a groups match is exactly the characters of class it asked for. */
  lemma {:induction false} GroupsText(s: string, i: nat, gs: seq<Group>, e: nat)
    requires GroupsAt(s, i, gs) == Some(e)
    ensures |RemoveWs(s[i..e])| == Total(gs) && AllWord(RemoveWs(s[i..e]))
    ensures DigitGroups(gs) ==> AllDigits(RemoveWs(s[i..e]))
    decreases |gs|
  {
    if gs == [] {
      assert s[i..e] == [];
    } else {
      var g := gs[0];
      var k := ClassRun(s, SpacesUpTo(s, i, g.maxSpaces), g.count, g.digitsOnly).value;
      GroupText(s, i, g, k);
      GroupsText(s, k, gs[1..], e);
      RemoveWsSplit(s, i, k, e);
      var w, rest := RemoveWs(s[i..k]), RemoveWs(s[k..e]);
      AllWordAppend(w, rest);
      if DigitGroups(gs) {
        assert DigitGroups(gs[1..]) by {
          forall c | 0 <= c < |gs[1..]| ensures gs[1..][c].digitsOnly {
            assert gs[1..][c] == gs[c + 1];
          }
        }
        assert g.digitsOnly;
        AllDigitsAppend(w, rest);
      }
    }
  }

  /** Without its whitespace, one group's match is exactly its characters of class. */
  lemma GroupText(s: string, i: nat, g: Group, k: nat)
    requires i <= |s| && ClassRun(s, SpacesUpTo(s, i, g.maxSpaces), g.count, g.digitsOnly) == Some(k)
    ensures |RemoveWs(s[i..k])| == g.count && AllWord(RemoveWs(s[i..k]))
    ensures g.digitsOnly ==> AllDigits(RemoveWs(s[i..k]))
  {
    var j := SpacesUpTo(s, i, g.maxSpaces);
    SpacesUpToSkipsSpaces(s, i, g.maxSpaces);
    SpacesRemoved(s, i, j);
    ClassRunText(s, j, g.count, g.digitsOnly, k);
    RemoveWsSplit(s, i, j, k);
  }

  /** A class run has no whitespace: removing whitespace keeps its n characters of class. */
  lemma ClassRunText(s: string, j: nat, n: nat, digitsOnly: bool, k: nat)
    requires ClassRun(s, j, n, digitsOnly) == Some(k)
    ensures RemoveWs(s[j..k]) == s[j..k] && |s[j..k]| == n && AllWord(s[j..k])
    ensures digitsOnly ==> AllDigits(s[j..k])
  {
    ClassRunMeaning(s, j, n, digitsOnly);
    var w := s[j..k];
    forall c | 0 <= c < |w| ensures InClass(w[c], digitsOnly) {
      assert w[c] == s[j + c];
    }
    assert AllWord(w);
    AllWordNoSpace(w);
    RemoveWsNoSpace(w);
  }

  /** The last n characters of a text that ends with exactly n characters b are b. */
  lemma LastOfAppend(a: string, b: string, n: nat)
    requires |b| == n
    ensures Last(a + b, n) == b
  {
    assert (a + b)[|a + b| - n..] == b;
  }

  // ---------------------------------------------------------------- TRK

  const TrkGroups: seq<Group> := [Group(0, 4, true), Group(2, 4, true), Group(2, 4, true)]
  const TrkLength: nat := 12

  lemma TrkGroupsShape()
    ensures Total(TrkGroups) == TrkLength && DigitGroups(TrkGroups)
  {
    assert TrkGroups[1..] == [Group(2, 4, true), Group(2, 4, true)];
    assert TrkGroups[1..][1..] == [Group(2, 4, true)];
  }

  /**
   * `.{1,4}` from p followed by the digit groups, with the backtracking of the
   * greedy `.{1,4}`: the digit groups start after the widest run of k non-newline
   * characters (k from 4 down to 1) that lets them match.
   */
  function TrkGroupsStart(s: string, p: nat, k: nat): (q: Option<nat>)
    ensures q.Some? ==> p < q.value <= p + k && GroupsAt(s, q.value, TrkGroups).Some?
    ensures q.Some? ==> forall m :: p <= m < q.value ==> s[m] != '\n'
    decreases |s| + k
  {
    if k == 0 then None
    else if p + k <= |s| && (forall m :: p <= m < p + k ==> s[m] != '\n') && GroupsAt(s, p + k, TrkGroups).Some?
    then Some(p + k)
    else TrkGroupsStart(s, p, k - 1)
  }

  /** The TRK pattern anchored at i. */
  function TrkAt(s: string, i: nat): (r: Option<nat>)
    ensures r.Some? ==> TrkGroupsStart(s, i + 3, 4).Some? && GroupsAt(s, TrkGroupsStart(s, i + 3, 4).value, TrkGroups) == r
    ensures r.Some? ==> i < r.value <= |s|
  {
    if !LiteralAt(s, i, "TRK") then None
    else
      match TrkGroupsStart(s, i + 3, 4)
      case None => None
      case Some(q) => GroupsAt(s, q, TrkGroups)
  }

  // ---------------------------------------------------------------- TRACKING #:

  const UpsGroups: seq<Group> :=
    [Group(2, 2, false), Group(2, 3, false), Group(2, 3, false), Group(2, 2, false), Group(2, 4, true), Group(2, 4, true)]
  const UpsLength: nat := 18

  lemma UpsGroupsTotal()
    ensures Total(UpsGroups) == UpsLength
  {
    var g := UpsGroups;
    assert g[1..] == [Group(2, 3, false), Group(2, 3, false), Group(2, 2, false), Group(2, 4, true), Group(2, 4, true)];
    assert g[1..][1..] == [Group(2, 3, false), Group(2, 2, false), Group(2, 4, true), Group(2, 4, true)];
    assert g[1..][1..][1..] == [Group(2, 2, false), Group(2, 4, true), Group(2, 4, true)];
    assert g[1..][1..][1..][1..] == [Group(2, 4, true), Group(2, 4, true)];
    assert g[1..][1..][1..][1..][1..] == [Group(2, 4, true)];
  }

  /** Where `TRACKING[\s]{0,2}#:` ends when it matches at i. */
  function UpsLabelEnd(s: string, i: nat): (r: Option<nat>)
    ensures r.Some? ==> i + 10 <= r.value <= |s|
  {
    if !LiteralAt(s, i, "TRACKING") then None
    else
      var j := SpacesUpTo(s, i + 8, 2);
      if LiteralAt(s, j, "#:") then Some(j + 2) else None
  }

  /** The TRACKING pattern anchored at i. */
  function UpsAt(s: string, i: nat): (r: Option<nat>)
    ensures r.Some? ==> UpsLabelEnd(s, i).Some? && GroupsAt(s, UpsLabelEnd(s, i).value, UpsGroups) == r
    ensures r.Some? ==> i < r.value <= |s|
  {
    match UpsLabelEnd(s, i)
    case None => None
    case Some(p) => GroupsAt(s, p, UpsGroups)
  }

  /**
   * `s.replace("1ZO9A", "1Z09A")`: the OCR reading of the letter O where UPS
   * numbers carry a zero, corrected in every non-overlapping occurrence, left to right.
   */
  function FixOcrConfusion(s: string): (r: string)
    ensures |r| == |s|
    ensures forall k :: 0 <= k < |s| ==> r[k] == s[k] || (s[k] == 'O' && r[k] == '0')
  {
    if |s| < 5 then s
    else if s[..5] == "1ZO9A" then
      var t := FixOcrConfusion(s[5..]);
      assert forall k :: 5 <= k < |s| ==> s[k] == s[5..][k - 5];
      "1Z09A" + t
    else
      var t := FixOcrConfusion(s[1..]);
      assert forall k :: 1 <= k < |s| ==> s[k] == s[1..][k - 1];
      [s[0]] + t
  }

  /** The correction changes only letters O into digits 0, so word characters stay word characters. */
  lemma FixOcrKeepsWord(s: string)
    requires AllWord(s)
    ensures AllWord(FixOcrConfusion(s))
  {
    var r := FixOcrConfusion(s);
    forall k | 0 <= k < |r| ensures IsWord(r[k]) {
      assert r[k] == s[k] || r[k] == '0';
    }
  }

  /** Text without the letter O is left as it is. */
  lemma {:induction false} FixOcrWithoutO(s: string)
    requires forall k :: 0 <= k < |s| ==> s[k] != 'O'
    ensures FixOcrConfusion(s) == s
    decreases |s|
  {
    if |s| >= 5 {
      assert s[2] != 'O';
      assert s[..5] != "1ZO9A" by { assert s[..5][2] == s[2]; }
      FixOcrWithoutO(s[1..]);
      assert s == [s[0]] + s[1..];
    }
  }

  /** A UPS number read as `1ZO9A…` is corrected at its start and nowhere else when the rest holds no letter O. */
  lemma FixOcrPrefix(rest: string)
    requires forall k :: 0 <= k < |rest| ==> rest[k] != 'O'
    ensures FixOcrConfusion("1ZO9A" + rest) == "1Z09A" + rest
  {
    var s := "1ZO9A" + rest;
    assert s[..5] == "1ZO9A";
    assert s[5..] == rest;
    FixOcrWithoutO(rest);
  }

  // ---------------------------------------------------------------- USPS TRACKING #

  const UspsLength: nat := 22

  /** `(\s*\d){22}` as an anchored matcher. */
  function UspsRun(s: string, i: nat): (r: Option<nat>)
    ensures r.Some? ==> i < r.value <= |s|
  {
    DigitRun(s, i, UspsLength)
  }

  /** Where `USPS[\s]{0,2}TRACKING[\s]{0,2}#` ends when it matches at i. */
  function UspsLabelEnd(s: string, i: nat): (r: Option<nat>)
    ensures r.Some? ==> i + 13 <= r.value <= |s|
  {
    if !LiteralAt(s, i, "USPS") then None
    else
      var j := SpacesUpTo(s, i + 4, 2);
      if !LiteralAt(s, j, "TRACKING") then None
      else
        var k := SpacesUpTo(s, j + 8, 2);
        if LiteralAt(s, k, "#") then Some(k + 1) else None
  }

  /** The USPS pattern anchored at i: the label, then everything up to the end of the last 22-digit run. */
  function UspsAt(s: string, i: nat): (r: Option<nat>)
    ensures r.Some? ==> i < r.value <= |s|
  {
    match UspsLabelEnd(s, i)
    case None => None
    case Some(p) =>
      match SearchBack(s, UspsRun, p, |s|)
      case None => None
      case Some(j) => UspsRun(s, j)
  }

  /** The pieces of a USPS match: the label end p and the start j of the last run. */
  lemma UspsParts(s: string, i: nat, e: nat) returns (p: nat, j: nat)
    requires UspsAt(s, i) == Some(e)
    ensures UspsLabelEnd(s, i) == Some(p) && p <= j <= |s|
    ensures SearchBack(s, UspsRun, p, |s|) == Some(j) && UspsRun(s, j) == Some(e)
  {
    p := UspsLabelEnd(s, i).value;
    j := SearchBack(s, UspsRun, p, |s|).value;
  }

  /** The inner `re.search(r"(\s*\d){22}", match_text)` finds a run: the one the outer match ends with. */
  lemma UspsInnerRun(s: string, i: nat, e: nat)
    requires UspsAt(s, i) == Some(e)
    ensures Search(s[i..e], UspsRun, 0).Some?
  {
    var p, j := UspsParts(s, i, e);
    DigitRunSlice(s, i, e, j, UspsLength, e);
    assert UspsRun(s[i..e], j - i).Some?;
  }

  /** The 22 digits the inner search reads out of a USPS match. */
  function UspsDigits(t: string): (r: string)
    requires Search(t, UspsRun, 0).Some?
    ensures var m := Search(t, UspsRun, 0).value; r == RemoveWs(t[m..UspsRun(t, m).value])
    ensures |r| == UspsLength && AllDigits(r)
  {
    var m := Search(t, UspsRun, 0).value;
    var e := UspsRun(t, m).value;
    DigitRunText(t, m, UspsLength, e);
    RemoveWs(t[m..e])
  }

  // ---------------------------------------------------------------- extraction

  /**
   * `extract_tnum_from_sl_text`: the TRK reading if the page has one, otherwise the
   * TRACKING reading, otherwise the USPS reading; an error carrying the page text when
   * none of the three patterns occurs.
   */
  function ExtractTnum(text: string): (r: Result<string, Error>)
    ensures r.Err? ==> r.error == TrackingNumberNotFound(text)
  {
    match Search(text, TrkAt, 0)
    case Some(i) => Ok(TrkReading(text, i))
    case None =>
      match Search(text, UpsAt, 0)
      case Some(i) => Ok(UpsReading(text, i))
      case None =>
        match Search(text, UspsAt, 0)
        case Some(i) => Ok(UspsReading(text, i))
        case None => Err(TrackingNumberNotFound(text))
  }

  /** A TRK match anywhere wins: the reading is that of the leftmost one. */
  lemma ExtractTnumTrk(text: string, i: nat)
    requires TrkAt(text, i).Some? && forall j :: 0 <= j < i ==> TrkAt(text, j).None?
    ensures ExtractTnum(text) == Ok(TrkReading(text, i))
  {
    SearchFinds(text, TrkAt, 0, i);
  }

  /** Without a TRK match, a TRACKING match wins: the reading is that of the leftmost one. */
  lemma ExtractTnumUps(text: string, i: nat)
    requires forall j :: 0 <= j <= |text| ==> TrkAt(text, j).None?
    requires UpsAt(text, i).Some? && forall j :: 0 <= j < i ==> UpsAt(text, j).None?
    ensures ExtractTnum(text) == Ok(UpsReading(text, i))
  {
    SearchFinds(text, UpsAt, 0, i);
  }

  /** With neither, the reading is that of the leftmost USPS match. */
  lemma ExtractTnumUsps(text: string, i: nat)
    requires forall j :: 0 <= j <= |text| ==> TrkAt(text, j).None? && UpsAt(text, j).None?
    requires UspsAt(text, i).Some? && forall j :: 0 <= j < i ==> UspsAt(text, j).None?
    ensures ExtractTnum(text) == Ok(UspsReading(text, i))
  {
    SearchFinds(text, UspsAt, 0, i);
  }

  /** The error case is exactly a page on which none of the three patterns occurs anywhere. */
  lemma ExtractTnumNotFound(text: string)
    ensures ExtractTnum(text).Err? <==>
      (forall j :: 0 <= j <= |text| ==> TrkAt(text, j).None? && UpsAt(text, j).None? && UspsAt(text, j).None?)
  {
    if Search(text, TrkAt, 0).Some? {
      assert TrkAt(text, Search(text, TrkAt, 0).value).Some?;
    } else if Search(text, UpsAt, 0).Some? {
      assert UpsAt(text, Search(text, UpsAt, 0).value).Some?;
    } else if Search(text, UspsAt, 0).Some? {
      assert UspsAt(text, Search(text, UspsAt, 0).value).Some?;
    }
  }

  /** What a successful reading looks like: 12 digits (TRK), 18 word characters (TRACKING) or 22 digits (USPS). */
  lemma ExtractTnumShape(text: string)
    requires ExtractTnum(text).Ok?
    ensures var t := ExtractTnum(text).value;
      (|t| == TrkLength && AllDigits(t)) || (|t| == UpsLength && AllWord(t)) || (|t| == UspsLength && AllDigits(t))
  {
    if Search(text, TrkAt, 0).Some? {
      var i := Search(text, TrkAt, 0).value;
      assert ExtractTnum(text).value == TrkReading(text, i);
    } else if Search(text, UpsAt, 0).Some? {
      var i := Search(text, UpsAt, 0).value;
      assert ExtractTnum(text).value == UpsReading(text, i);
    } else {
      var i := Search(text, UspsAt, 0).value;
      assert ExtractTnum(text).value == UspsReading(text, i);
    }
  }

  /** `"".join(re.split(r"\s+", match))[-12:]` for the TRK match at i: the digits of its three groups. */
  function TrkReading(s: string, i: nat): (r: string)
    requires TrkAt(s, i).Some?
    ensures r == RemoveWs(s[TrkGroupsStart(s, i + 3, 4).value..TrkAt(s, i).value])
    ensures |r| == TrkLength && AllDigits(r)
  {
    var q, e := TrkGroupsStart(s, i + 3, 4).value, TrkAt(s, i).value;
    GroupsText(s, q, TrkGroups, e);
    TrkGroupsShape();
    RemoveWsSplit(s, i, q, e);
    LastOfAppend(RemoveWs(s[i..q]), RemoveWs(s[q..e]), TrkLength);
    Last(RemoveWs(s[i..e]), TrkLength)
  }

  /**
   * `"".join(re.split(r"\s+", match))[-18:].replace("1ZO9A", "1Z09A")` for the
   * TRACKING match at i: the characters of its six groups, OCR-corrected.
   */
  function UpsReading(s: string, i: nat): (r: string)
    requires UpsAt(s, i).Some?
    ensures r == FixOcrConfusion(RemoveWs(s[UpsLabelEnd(s, i).value..UpsAt(s, i).value]))
    ensures |r| == UpsLength && AllWord(r)
  {
    var p, e := UpsLabelEnd(s, i).value, UpsAt(s, i).value;
    GroupsText(s, p, UpsGroups, e);
    UpsGroupsTotal();
    RemoveWsSplit(s, i, p, e);
    LastOfAppend(RemoveWs(s[i..p]), RemoveWs(s[p..e]), UpsLength);
    FixOcrKeepsWord(RemoveWs(s[p..e]));
    FixOcrConfusion(Last(RemoveWs(s[i..e]), UpsLength))
  }

  /** The USPS match at i, narrowed by the inner search to its first 22-digit run, without whitespace. */
  function UspsReading(s: string, i: nat): (r: string)
    requires UspsAt(s, i).Some?
    ensures var t := s[i..UspsAt(s, i).value];
            Search(t, UspsRun, 0).Some? &&
            var m := Search(t, UspsRun, 0).value; r == RemoveWs(t[m..UspsRun(t, m).value])
    ensures |r| == UspsLength && AllDigits(r)
  {
    var e := UspsAt(s, i).value;
    UspsInnerRun(s, i, e);
    UspsDigits(s[i..e])
  }

  // ---------------------------------------------------------------- readings of printed labels

  /** One group step: its whitespace run and its characters, then the remaining groups. */
  lemma GroupStep(s: string, i: nat, g: Group, gs: seq<Group>, k: nat)
    requires i <= |s| && ClassRun(s, SpacesUpTo(s, i, g.maxSpaces), g.count, g.digitsOnly) == Some(k)
    ensures GroupsAt(s, i, [g] + gs) == GroupsAt(s, k, gs)
  {
    assert ([g] + gs)[1..] == gs;
  }

  /** Whitespace-free text of a single space and the three digit groups around it. */
  lemma RemoveWsThreeGroups(a: string, b: string, c: string)
    requires NoSpace(a) && NoSpace(b) && NoSpace(c)
    ensures RemoveWs(a + " " + b + " " + c) == a + b + c
  {
    var sp := " ";
    assert RemoveWs(sp) == [];
    RemoveWsNoSpace(a);
    RemoveWsNoSpace(b);
    RemoveWsNoSpace(c);
    var x := a + sp;
    RemoveWsAppend(a, sp);
    assert RemoveWs(x) == a;
    var y := x + b;
    RemoveWsAppend(x, b);
    assert RemoveWs(y) == a + b;
    var z := y + sp;
    RemoveWsAppend(y, sp);
    assert RemoveWs(z) == a + b;
    RemoveWsAppend(z, c);
    assert RemoveWs(z + c) == a + b + c;
  }

  /**
   * Round trip of the FedEx label `TRK# dddd dddd dddd`: the twelve digits are read
   * back, whatever follows them. The `.{1,4}` gives back the two digits it first
   * swallowed, so the digit groups start right after `TRK# `.
   */
  lemma TrkRoundTrip(a: string, b: string, c: string, tail: string)
    requires |a| == 4 && |b| == 4 && |c| == 4
    requires AllDigits(a) && AllDigits(b) && AllDigits(c)
    ensures ExtractTnum("TRK# " + (a + " " + b + " " + c) + tail) == Ok(a + b + c)
  {
    var p, u := "TRK# ", a + " " + b + " " + c;
    var t := p + u + tail;
    AtInfix(p, u, tail);
    TrkAtOnPrinted(t, a, b, c);
    SearchFinds(t, TrkAt, 0, 0);
    RemoveWsThreeGroups(a, b, c);
  }

  /** On `TRK# dddd dddd dddd` the TRK pattern matches at the start, its digit groups right after `TRK# `. */
  lemma TrkAtOnPrinted(t: string, a: string, b: string, c: string)
    requires |a| == 4 && |b| == 4 && |c| == 4
    requires AllDigits(a) && AllDigits(b) && AllDigits(c)
    requires At(t, 5, a + " " + b + " " + c) && t[..5] == "TRK# "
    ensures TrkGroupsStart(t, 3, 4) == Some(5) && TrkAt(t, 0) == Some(19)
  {
    TrkLayout(t, a, b, c);
    assert t[3] == '#' && t[4] == ' ';
    // k = 4 and k = 3 leave a space inside the first four digits
    assert !InClass(t[9], true);
    ClassRunMeaning(t, 7, 4, true);
    ClassRunMeaning(t, 6, 4, true);
    assert GroupsAt(t, 7, TrkGroups).None? && GroupsAt(t, 6, TrkGroups).None?;
    // k = 2
    TrkGroupsOnPrinted(t);
    assert TrkGroupsStart(t, 3, 2) == Some(5);
    assert TrkGroupsStart(t, 3, 3) == Some(5);
    assert LiteralAt(t, 0, "TRK");
  }

  /** Where the characters of `dddd dddd dddd` printed at position 5 are. */
  lemma TrkLayout(t: string, a: string, b: string, c: string)
    requires |a| == 4 && |b| == 4 && |c| == 4
    requires AllDigits(a) && AllDigits(b) && AllDigits(c)
    requires At(t, 5, a + " " + b + " " + c)
    ensures |t| >= 19 && t[9] == ' ' && t[14] == ' '
    ensures forall k :: 5 <= k < 9 ==> IsDigit(t[k])
    ensures forall k :: 10 <= k < 14 ==> IsDigit(t[k])
    ensures forall k :: 15 <= k < 19 ==> IsDigit(t[k])
  {
    var u := a + " " + b + " " + c;
    assert t[5 + 4] == u[4] && t[5 + 9] == u[9];
    forall k | 5 <= k < 9 ensures IsDigit(t[k]) {
      assert t[5 + (k - 5)] == u[k - 5] == a[k - 5];
    }
    forall k | 10 <= k < 14 ensures IsDigit(t[k]) {
      assert t[5 + (k - 5)] == u[k - 5] == b[k - 10];
    }
    forall k | 15 <= k < 19 ensures IsDigit(t[k]) {
      assert t[5 + (k - 5)] == u[k - 5] == c[k - 15];
    }
  }

  lemma TrkGroupsOnPrinted(t: string)
    requires |t| >= 19 && t[9] == ' ' && t[14] == ' '
    requires forall k :: 5 <= k < 9 ==> IsDigit(t[k])
    requires forall k :: 10 <= k < 14 ==> IsDigit(t[k])
    requires forall k :: 15 <= k < 19 ==> IsDigit(t[k])
    ensures GroupsAt(t, 5, TrkGroups) == Some(19)
  {
    var g0, g1 := Group(0, 4, true), Group(2, 4, true);
    assert TrkGroups == [g0] + ([g1] + ([g1] + []));
    ClassRunMeaning(t, 5, 4, true);
    ClassRunMeaning(t, 10, 4, true);
    ClassRunMeaning(t, 15, 4, true);
    assert SpacesUpTo(t, 9, 2) == 10 && SpacesUpTo(t, 14, 2) == 15;
    GroupStep(t, 5, g0, [g1] + ([g1] + []), 9);
    GroupStep(t, 9, g1, [g1] + [], 14);
    GroupStep(t, 14, g1, [], 19);
  }

  /** Pieces printed one after the other, each behind a single space. */
  function Spaced(ws: seq<string>): string
    decreases |ws|
  {
    if ws == [] then [] else " " + ws[0] + Spaced(ws[1..])
  }

  /** The length of the space-separated pieces. */
  function Width(ws: seq<string>): nat
    decreases |ws|
  {
    if ws == [] then 0 else 1 + |ws[0]| + Width(ws[1..])
  }

  function Concat(ws: seq<string>): string
    decreases |ws|
  {
    if ws == [] then [] else ws[0] + Concat(ws[1..])
  }

  /** A piece has exactly the characters its group asks for, and the group allows a space in front. */
  predicate PieceFits(w: string, g: Group) {
    g.maxSpaces >= 1 && g.count > 0 && |w| == g.count && forall c :: 0 <= c < |w| ==> InClass(w[c], g.digitsOnly)
  }

  /** Each piece fits its group. */
  predicate Fits(ws: seq<string>, gs: seq<Group>)
    decreases |ws|
  {
    |ws| == |gs| && (ws != [] ==> PieceFits(ws[0], gs[0]) && Fits(ws[1..], gs[1..]))
  }

  /** The text holds u at position i. */
  predicate At(t: string, i: nat, u: string) {
    i + |u| <= |t| && forall k :: 0 <= k < |u| ==> t[i + k] == u[k]
  }

  lemma AtSplit(t: string, i: nat, a: string, b: string)
    requires At(t, i, a + b)
    ensures At(t, i, a) && At(t, i + |a|, b)
  {
    forall k | 0 <= k < |a| ensures t[i + k] == a[k] {
      assert (a + b)[k] == a[k];
    }
    forall k | 0 <= k < |b| ensures t[i + |a| + k] == b[k] {
      assert (a + b)[|a| + k] == b[k];
    }
  }

  /** The text holds each piece behind one space, one after the other, from position i on. */
  predicate LaidOut(t: string, i: nat, ws: seq<string>)
    decreases |ws|
  {
    if ws == [] then i <= |t| else At(t, i, " " + ws[0]) && LaidOut(t, i + 1 + |ws[0]|, ws[1..])
  }

  lemma {:induction false} SpacedLaidOut(t: string, i: nat, ws: seq<string>)
    requires At(t, i, Spaced(ws))
    ensures LaidOut(t, i, ws) && |Spaced(ws)| == Width(ws)
    decreases |ws|
  {
    if ws != [] {
      var head, rest := " " + ws[0], Spaced(ws[1..]);
      assert Spaced(ws) == head + rest;
      AtSplit(t, i, head, rest);
      SpacedLaidOut(t, i + |head|, ws[1..]);
    }
  }

  /** Groups read laid-out pieces that fit them, up to the end of the last piece. */
  lemma {:induction false} GroupsOnLaidOut(t: string, i: nat, ws: seq<string>, gs: seq<Group>)
    requires Fits(ws, gs) && LaidOut(t, i, ws)
    ensures GroupsAt(t, i, gs) == Some(i + Width(ws))
    decreases |ws|
  {
    if ws != [] {
      GroupAfterSpace(t, i, ws[0], gs);
      GroupsOnLaidOut(t, i + 1 + |ws[0]|, ws[1..], gs[1..]);
    } else {
      assert gs == [];
    }
  }

  /** Without whitespace, space-separated pieces that fit their groups are just the pieces. */
  lemma {:induction false} RemoveWsSpaced(ws: seq<string>, gs: seq<Group>)
    requires Fits(ws, gs)
    ensures RemoveWs(Spaced(ws)) == Concat(ws)
    decreases |ws|
  {
    if ws != [] {
      var w, rest := ws[0], Spaced(ws[1..]);
      var head := " " + w;
      RemoveWsSpaced(ws[1..], gs[1..]);
      PieceNoSpace(w, gs[0]);
      RemoveWsNoSpace(w);
      RemoveWsAppend(" ", w);
      assert RemoveWs(" ") == [];
      assert RemoveWs(head) == w;
      RemoveWsAppend(head, rest);
      assert Spaced(ws) == head + rest;
    }
  }

  lemma PieceNoSpace(w: string, g: Group)
    requires PieceFits(w, g)
    ensures NoSpace(w)
  {
    forall c | 0 <= c < |w| ensures !IsSpace(w[c]) {
      assert InClass(w[c], g.digitsOnly);
    }
  }

  /** A first group behind a single space, in front of exactly its characters. */
  lemma GroupAfterSpace(t: string, i: nat, w: string, gs: seq<Group>)
    requires gs != [] && PieceFits(w, gs[0])
    requires At(t, i, " " + w)
    ensures GroupsAt(t, i, gs) == GroupsAt(t, i + 1 + |w|, gs[1..])
  {
    var g := gs[0];
    assert t[i + 0] == (" " + w)[0] == ' ';
    forall k | i + 1 <= k < i + 1 + |w| ensures InClass(t[k], g.digitsOnly) {
      assert t[i + (k - i)] == (" " + w)[k - i] == w[k - i - 1];
    }
    assert InClass(t[i + 1], g.digitsOnly);
    assert SpacesUpTo(t, i + 1, g.maxSpaces - 1) == i + 1;
    assert SpacesUpTo(t, i, g.maxSpaces) == i + 1;
    ClassRunMeaning(t, i + 1, g.count, g.digitsOnly);
    assert ClassRun(t, i + 1, g.count, g.digitsOnly) == Some(i + 1 + g.count);
  }

  /** Text printed between a prefix and a suffix is found at the end of the prefix. */
  lemma AtInfix(p: string, u: string, q: string)
    ensures At(p + u + q, |p|, u) && (p + u + q)[|p|..|p| + |u|] == u && (p + u + q)[..|p|] == p
  {
    var t := p + u + q;
    forall k | 0 <= k < |u| ensures t[|p| + k] == u[k] {
      assert t == p + (u + q);
    }
    assert t[|p|..|p| + |u|] == u;
    assert t[..|p|] == p;
  }

  /** The TRACKING pattern on a printed UPS label matches right at its start, over the six pieces. */
  lemma UpsAtOnPrinted(t: string, ws: seq<string>)
    requires Fits(ws, UpsGroups) && |t| > 12 && t[..11] == "TRACKING #:" && At(t, 11, Spaced(ws))
    ensures UpsAt(t, 0) == Some(11 + |Spaced(ws)|) && UpsLabelEnd(t, 0) == Some(11)
  {
    var u := Spaced(ws);
    assert u == " " + ws[0] + Spaced(ws[1..]);
    assert PieceFits(ws[0], UpsGroups[0]);
    assert t[11 + 0] == u[0] && t[11 + 1] == u[1] == ws[0][0];
    assert t[..12] == "TRACKING #: ";
    UpsLabelOfPrinted(t, ws[0][0]);
    SpacedLaidOut(t, 11, ws);
    GroupsOnLaidOut(t, 11, ws, UpsGroups);
  }

  /**
   * Round trip of the UPS label `TRACKING #: ww www www ww dddd dddd` on a page
   * without a TRK reading: the eighteen characters are read back, with the
   * letter O of `1ZO9A` corrected into a zero.
   */
  lemma UpsRoundTrip(ws: seq<string>, tail: string)
    requires Fits(ws, UpsGroups)
    requires Search("TRACKING #:" + Spaced(ws) + tail, TrkAt, 0).None?
    ensures ExtractTnum("TRACKING #:" + Spaced(ws) + tail) == Ok(FixOcrConfusion(Concat(ws)))
  {
    var p, u := "TRACKING #:", Spaced(ws);
    var t := p + u + tail;
    AtInfix(p, u, tail);
    assert |ws| == 6 && |ws[0]| == 2;
    UpsAtOnPrinted(t, ws);
    SearchFinds(t, UpsAt, 0, 0);
    RemoveWsSpaced(ws, UpsGroups);
    assert t[11..11 + |u|] == u;
  }

  lemma UpsLabelOfPrinted(t: string, c: char)
    requires |t| > 12 && t[..12] == "TRACKING #: " && t[12] == c && IsWord(c)
    ensures UpsLabelEnd(t, 0) == Some(11)
  {
    assert t[0..8] == "TRACKING";
    assert SpacesUpTo(t, 8, 2) == 9;
    assert t[9..11] == "#:";
  }
  /**
   * Round trip of the USPS label `USPS TRACKING # ` followed by its 22 digits, on a
   * page with neither a TRK nor a TRACKING reading and no other digit after them:
   * the 22 digits are read back.
   */
  lemma UspsRoundTrip(d: string, tail: string)
    requires |d| == UspsLength && AllDigits(d)
    requires forall k :: 0 <= k < |tail| ==> !IsDigit(tail[k])
    ensures ExtractTnum("USPS TRACKING # " + d + tail) == Ok(d)
  {
    var text := "USPS TRACKING # " + d + tail;
    NoTrkOnUspsLabel(text, d, tail);
    NoUpsOnUspsLabel(text, d, tail);
    UspsAtOnPrinted(text, d, tail);
    ExtractTnumUsps(text, 0);
    UspsReadingOnPrinted(text, d);
  }

  /** A sequence of groups whose last group is a non-empty digit run ends on a digit. */
  lemma {:induction false} GroupsEndDigit(s: string, i: nat, gs: seq<Group>, e: nat)
    requires GroupsAt(s, i, gs) == Some(e) && gs != [] && gs[|gs| - 1].digitsOnly && gs[|gs| - 1].count > 0
    ensures i < e && IsDigit(s[e - 1])
    decreases |gs|
  {
    var j := SpacesUpTo(s, i, gs[0].maxSpaces);
    var k := ClassRun(s, j, gs[0].count, gs[0].digitsOnly).value;
    if |gs| == 1 {
      ClassRunMeaning(s, j, gs[0].count, gs[0].digitsOnly);
      assert InClass(s[k - 1], gs[0].digitsOnly);
    } else {
      assert gs[1..][|gs[1..]| - 1] == gs[|gs| - 1];
      GroupsEndDigit(s, k, gs[1..], e);
    }
  }

  /** Every TRK match ends on the last of its digits. */
  lemma TrkAtEndsOnDigit(s: string, j: nat)
    ensures TrkAt(s, j).Some? ==> IsDigit(s[TrkAt(s, j).value - 1])
  {
    if TrkAt(s, j).Some? {
      GroupsEndDigit(s, TrkGroupsStart(s, j + 3, 4).value, TrkGroups, TrkAt(s, j).value);
    }
  }

  /** Every TRACKING match ends on the last of its digits. */
  lemma UpsAtEndsOnDigit(s: string, j: nat)
    ensures UpsAt(s, j).Some? ==> IsDigit(s[UpsAt(s, j).value - 1])
  {
    if UpsAt(s, j).Some? {
      GroupsEndDigit(s, UpsLabelEnd(s, j).value, UpsGroups, UpsAt(s, j).value);
    }
  }

  /** On a printed USPS label the only digits are the 22 printed ones, at positions 16 to 37. */
  lemma UspsLabelDigits(text: string, d: string, tail: string)
    requires text == "USPS TRACKING # " + d + tail && |d| == UspsLength
    requires forall m :: 0 <= m < |tail| ==> !IsDigit(tail[m])
    ensures forall k :: 0 <= k < |text| && IsDigit(text[k]) ==> 16 <= k < 38
  {
    var h := "USPS TRACKING # ";
    assert text[..16] == h;
    forall k | 0 <= k < |text| && !(16 <= k < 38) ensures !IsDigit(text[k]) {
      if k < 16 {
        assert text[k] == h[k];
      } else {
        assert text[k] == tail[k - 38];
      }
    }
  }

  /** The header of a printed USPS label spells no `TRK`, and the printed digits do not start one. */
  lemma NoTrkLiteral(text: string, d: string, tail: string, j: nat)
    requires text == "USPS TRACKING # " + d + tail && |d| == UspsLength && AllDigits(d)
    ensures j < 38 ==> !LiteralAt(text, j, "TRK")
  {
    var h := "USPS TRACKING # ";
    assert text[..16] == h;
    if 16 <= j < 38 {
      assert text[j] == d[j - 16];
    } else if j < 16 {
      assert text[j] == h[j];
      assert j + 1 < 16 ==> text[j + 1] == h[j + 1];
      assert j + 2 < 16 ==> text[j + 2] == h[j + 2];
      assert 16 <= j + 2 < 38 ==> text[j + 2] == d[j + 2 - 16];
    }
  }

  /** The only `TRACKING` before the printed digits is followed by ` # `, which is not the `#:` of the other label. */
  lemma NoUpsLabel(text: string, d: string, tail: string, j: nat)
    requires text == "USPS TRACKING # " + d + tail && |d| == UspsLength && AllDigits(d)
    ensures j < 38 ==> UpsLabelEnd(text, j).None?
  {
    var h := "USPS TRACKING # ";
    assert text[..16] == h;
    if 16 <= j < 38 {
      assert text[j] == d[j - 16];
    } else if j < 16 {
      assert text[j] == h[j];
      if j == 5 {
        assert text[13] == ' ' && text[14] == '#' && text[15] == ' ';
        assert SpacesUpTo(text, 13, 2) == 14;
      }
    }
  }

  /** No TRK pattern occurs on a printed USPS label: the header holds no `TRK` and the tail no digit. */
  lemma NoTrkOnUspsLabel(text: string, d: string, tail: string)
    requires text == "USPS TRACKING # " + d + tail && |d| == UspsLength && AllDigits(d)
    requires forall m :: 0 <= m < |tail| ==> !IsDigit(tail[m])
    ensures Search(text, TrkAt, 0).None?
  {
    UspsLabelDigits(text, d, tail);
    forall j | 0 <= j <= |text| ensures TrkAt(text, j).None? {
      TrkAtEndsOnDigit(text, j);
      NoTrkLiteral(text, d, tail, j);
    }
  }

  /** No TRACKING pattern occurs on a printed USPS label: where a `TRACKING` occurs, no `#:` or no digits follow. */
  lemma NoUpsOnUspsLabel(text: string, d: string, tail: string)
    requires text == "USPS TRACKING # " + d + tail && |d| == UspsLength && AllDigits(d)
    requires forall m :: 0 <= m < |tail| ==> !IsDigit(tail[m])
    ensures Search(text, UpsAt, 0).None?
  {
    UspsLabelDigits(text, d, tail);
    forall j | 0 <= j <= |text| ensures UpsAt(text, j).None? {
      UpsAtEndsOnDigit(text, j);
      NoUpsLabel(text, d, tail, j);
    }
  }

  /** The USPS pattern on a printed label matches from its start to the end of the 22 digits. */
  lemma UspsAtOnPrinted(text: string, d: string, tail: string)
    requires text == "USPS TRACKING # " + d + tail
    requires |d| == UspsLength && AllDigits(d)
    requires forall k :: 0 <= k < |tail| ==> !IsDigit(tail[k])
    ensures UspsAt(text, 0) == Some(38) && text[0..38] == "USPS TRACKING # " + d
  {
    AtInfix("USPS TRACKING # ", d, tail);
    var e := UspsLabelOnPrinted(text);
    UspsLastRun(text, d, tail);
    assert text[0..38] == text[..16] + text[16..38];
  }

  /** What the inner search reads out of the printed label's match: its 22 digits. */
  lemma UspsReadingOnPrinted(text: string, d: string)
    requires UspsAt(text, 0) == Some(38) && text[0..38] == "USPS TRACKING # " + d
    requires |d| == UspsLength && AllDigits(d)
    ensures UspsReading(text, 0) == d
  {
    var t := text[0..38];
    UspsHeaderRun(t, d);
    RemoveWsNoSpace(d);
    RemoveWsAppend(" ", d);
    assert RemoveWs(" ") == [];
    assert t[15..38] == " " + d;
  }

  lemma UspsLabelOnPrinted(text: string) returns (e: nat)
    requires |text| >= 16 && text[..16] == "USPS TRACKING # "
    ensures e == 15 && UspsLabelEnd(text, 0) == Some(15)
  {
    assert text[0..4] == "USPS";
    assert SpacesUpTo(text, 4, 2) == 5;
    assert text[5..13] == "TRACKING";
    assert SpacesUpTo(text, 13, 2) == 14;
    assert text[14..15] == "#";
    e := 15;
  }

  /** Behind the label, the backtracking of `.*` settles on the 22 printed digits: nothing after them is a digit. */
  lemma UspsLastRun(text: string, d: string, tail: string)
    requires text == "USPS TRACKING # " + d + tail
    requires |d| == UspsLength && AllDigits(d)
    requires forall k :: 0 <= k < |tail| ==> !IsDigit(tail[k])
    ensures SearchBack(text, UspsRun, 15, |text|) == Some(16) && UspsRun(text, 16) == Some(38)
  {
    forall k | 16 <= k < 38 ensures IsDigit(text[k]) {
      assert text[k] == d[k - 16];
    }
    DigitRunOnDigits(text, 16, UspsLength);
    forall k | 38 <= k < |text| ensures !IsDigit(text[k]) {
      assert text[k] == tail[k - 38];
    }
    forall m | 16 < m <= |text| ensures UspsRun(text, m).None? {
      if UspsRun(text, m).Some? {
        DigitRunRoom(text, m, UspsLength, 38);
      }
    }
    SearchBackFinds(text, UspsRun, 15, |text|, 16);
  }

  /** The inner search on the matched text starts its run at the space in front of the digits. */
  lemma UspsHeaderRun(t: string, d: string)
    requires t == "USPS TRACKING # " + d && |d| == UspsLength && AllDigits(d)
    ensures Search(t, UspsRun, 0) == Some(15) && UspsRun(t, 15) == Some(38)
  {
    forall k | 16 <= k < 38 ensures IsDigit(t[k]) {
      assert t[k] == d[k - 16];
    }
    DigitRunOnDigits(t, 16, UspsLength);
    assert SpaceEnd(t, 15) == 16;
    assert DigitRun(t, 15, UspsLength) == DigitRun(t, 16 + 1, UspsLength - 1);
    forall m | 0 <= m < 15 ensures UspsRun(t, m).None? {
      SpaceEndBefore(t, m, 14);
      var j := SpaceEnd(t, m);
      assert !IsDigit(t[j]);
    }
    SearchFinds(t, UspsRun, 0, 15);
  }
}
