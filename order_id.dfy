/**
 * The order-id grammar `OID_LOOKS_LIKE_THIS = (\s*\d){3}-(\s*\d){7}-(\s*\d){7}`,
 * the packing-slip `Order ID:` extraction and the `re.finditer` scan that lists
 * every order id printed on a shipping-label index page.
 */
module OrderId {
  import opened Wrappers
  import opened Scan

  /** An order id in normal form: `DDD-DDDDDDD-DDDDDDD`, 19 characters. */
  predicate IsCanonicalOid(s: string) {
    |s| == 19 && s[3] == '-' && s[11] == '-' &&
    forall k :: 0 <= k < 19 && k != 3 && k != 11 ==> IsDigit(s[k])
  }

  /** Digits before the first hyphen of an order id, and in each of the two groups after it. */
  const HeadDigits: nat := 3
  const GroupDigits: nat := 7

  predicate HyphenAt(s: string, j: nat) {
    j < |s| && s[j] == '-'
  }

  /** `OID_LOOKS_LIKE_THIS` anchored at i: the end of the match, if there is one. */
  function OidAt(s: string, i: nat): (r: Option<nat>)
    ensures r.Some? ==> i < r.value <= |s|
  {
    var a := DigitRun(s, i, HeadDigits);
    if a.None? || !HyphenAt(s, a.value) then None else
    var b := DigitRun(s, a.value + 1, GroupDigits);
    if b.None? || !HyphenAt(s, b.value) then None else
    DigitRun(s, b.value + 1, GroupDigits)
  }

  /** The three digit runs and two hyphens an order-id match is made of. */
  lemma OidAtParts(s: string, i: nat, e: nat) returns (a: nat, b: nat)
    requires OidAt(s, i) == Some(e)
    ensures DigitRun(s, i, HeadDigits) == Some(a) && HyphenAt(s, a)
    ensures DigitRun(s, a + 1, GroupDigits) == Some(b) && HyphenAt(s, b)
    ensures DigitRun(s, b + 1, GroupDigits) == Some(e)
  {
    var ra := DigitRun(s, i, HeadDigits);
    assert ra.Some? && HyphenAt(s, ra.value);
    a := ra.value;
    var rb := DigitRun(s, a + 1, GroupDigits);
    assert rb.Some? && HyphenAt(s, rb.value);
    b := rb.value;
  }

  /** Whatever whitespace an order-id match contains, without it the match is an order id in normal form. */
  lemma OidAtText(s: string, i: nat, e: nat)
    requires OidAt(s, i) == Some(e)
    ensures IsCanonicalOid(RemoveWs(s[i..e]))
    ensures i + 19 <= e && IsDigit(s[e - 1])
  {
    var a, b := OidAtParts(s, i, e);
    PartsText(s, i, a, b, e);
  }

  lemma PartsText(s: string, i: nat, a: nat, b: nat, e: nat)
    requires DigitRun(s, i, HeadDigits) == Some(a) && HyphenAt(s, a)
    requires DigitRun(s, a + 1, GroupDigits) == Some(b) && HyphenAt(s, b)
    requires DigitRun(s, b + 1, GroupDigits) == Some(e)
    ensures IsCanonicalOid(RemoveWs(s[i..e]))
    ensures i + 19 <= e && IsDigit(s[e - 1])
  {
    DigitRunText(s, i, HeadDigits, a);
    DigitRunText(s, a + 1, GroupDigits, b);
    DigitRunText(s, b + 1, GroupDigits, e);
    var d1, d2, d3 := RemoveWs(s[i..a]), RemoveWs(s[a + 1..b]), RemoveWs(s[b + 1..e]);
    HyphenParts(s, i, a, b, e);
    CanonicalOfParts(d1, d2, d3);
    assert |s[i..e]| == e - i;
  }

  /** Whitespace removal keeps the two hyphens that separate the three digit groups. */
  lemma HyphenParts(s: string, i: nat, a: nat, b: nat, e: nat)
    requires i <= a < b < e <= |s| && s[a] == '-' && s[b] == '-'
    ensures RemoveWs(s[i..e])
         == RemoveWs(s[i..a]) + ("-" + (RemoveWs(s[a + 1..b]) + ("-" + RemoveWs(s[b + 1..e]))))
  {
    var d1, d2, d3 := RemoveWs(s[i..a]), RemoveWs(s[a + 1..b]), RemoveWs(s[b + 1..e]);
    var tb := RemoveWs(s[b..e]);
    HyphenKept(s, b, e);
    assert tb == "-" + d3;
    var ta1 := RemoveWs(s[a + 1..e]);
    RemoveWsSplit(s, a + 1, b, e);
    assert ta1 == d2 + tb;
    var ta := RemoveWs(s[a..e]);
    HyphenKept(s, a, e);
    assert ta == "-" + ta1;
    RemoveWsSplit(s, i, a, e);
    assert RemoveWs(s[i..e]) == d1 + ta;
  }

  lemma HyphenKept(s: string, a: nat, e: nat)
    requires a < e <= |s| && s[a] == '-'
    ensures RemoveWs(s[a..e]) == "-" + RemoveWs(s[a + 1..e])
  {
    assert s[a..e][1..] == s[a + 1..e];
  }

  lemma CanonicalOfParts(d1: string, d2: string, d3: string)
    requires |d1| == 3 && |d2| == 7 && |d3| == 7
    requires AllDigits(d1) && AllDigits(d2) && AllDigits(d3)
    ensures IsCanonicalOid(d1 + ("-" + (d2 + ("-" + d3))))
  {
    var t := d1 + ("-" + (d2 + ("-" + d3)));
    forall k | 0 <= k < 19 && k != 3 && k != 11
      ensures IsDigit(t[k])
    {
      if k < 3 { assert t[k] == d1[k]; }
      else if k < 11 { assert t[k] == d2[k - 4]; }
      else { assert t[k] == d3[k - 12]; }
    }
  }

  /** A match without any whitespace is itself the 19-character normal form. */
  lemma OidAtNoSpace(s: string, i: nat, e: nat)
    requires OidAt(s, i) == Some(e)
    requires NoSpace(s[i..e])
    ensures e == i + 19 && IsCanonicalOid(s[i..e])
  {
    OidAtText(s, i, e);
    RemoveWsNoSpace(s[i..e]);
  }

  /** Conversely the grammar accepts every order id in normal form, wherever it stands and whatever follows it. */
  lemma OidAtCanonical(s: string, i: nat)
    requires i + 19 <= |s| && IsCanonicalOid(s[i..i + 19])
    ensures OidAt(s, i) == Some(i + 19)
  {
    assert forall k :: i <= k < i + 19 ==> s[k] == s[i..i + 19][k - i];
    DigitRunOnDigits(s, i, HeadDigits);
    DigitRunOnDigits(s, i + 4, GroupDigits);
    DigitRunOnDigits(s, i + 12, GroupDigits);
  }

  /** The end of `[Oo][Rr][Dd][Ee][Rr][\s]*[Ii][Dd]:[\s]*` at i: where the order id proper starts. */
  function PsLabelEnd(s: string, i: nat): (r: Option<nat>)
    ensures r.Some? ==> i + 8 <= r.value <= |s| && (r.value == |s| || !IsSpace(s[r.value]))
  {
    if FoldedAt(s, i, "order", "ORDER") then
      var j := SpaceEnd(s, i + 5);
      if FoldedAt(s, j, "id", "ID") && j + 2 < |s| && s[j + 2] == ':' then Some(SpaceEnd(s, j + 3)) else None
    else None
  }

  /** The packing-slip pattern `Order ID:` + `OID_LOOKS_LIKE_THIS` anchored at i. */
  function PsOidAt(s: string, i: nat): (r: Option<nat>)
    ensures r.Some? ==> PsLabelEnd(s, i).Some? && OidAt(s, PsLabelEnd(s, i).value) == r
    ensures r.Some? ==> i + 27 <= r.value <= |s| && IsDigit(s[r.value - 1])
  {
    match PsLabelEnd(s, i)
    case None => None
    case Some(p) =>
      var r := OidAt(s, p);
      if r.Some? then OidAtText(s, p, r.value); r else r
  }

  /**
   * `extract_oid_from_ps_img` once the page has been recognised: the last 19
   * characters of the leftmost `Order ID:` match, or an error when there is none.
   */
  function ExtractPsOid(text: string): (r: Result<string, Error>)
    ensures r.Err? ==> r.error == OrderIdNotFound
    ensures r.Ok? ==> |r.value| == 19
  {
    match Search(text, PsOidAt, 0)
    case None => Err(OrderIdNotFound)
    case Some(i) =>
      var e := PsOidAt(text, i).value;
      var r := Last(text[i..e], 19);
      Ok(r)
  }

  /** The extraction fails exactly when no position of the text starts an `Order ID:` match. */
  lemma ExtractPsOidNotFound(text: string)
    ensures ExtractPsOid(text).Err? <==> forall j :: 0 <= j <= |text| ==> PsOidAt(text, j).None?
  {
    if ExtractPsOid(text).Ok? {
      var i := Search(text, PsOidAt, 0).value;
      assert PsOidAt(text, i).Some?;
    }
  }

  /**
   * The extracted id is the tail of the leftmost match; when the order id in
   * that match carries no whitespace it is exactly that order id, in normal form.
   */
  lemma ExtractPsOidLeftmost(text: string, i: nat)
    requires PsOidAt(text, i).Some?
    requires forall j :: 0 <= j < i ==> PsOidAt(text, j).None?
    ensures ExtractPsOid(text).Ok?
    ensures var e := PsOidAt(text, i).value; ExtractPsOid(text).value == text[e - 19..e] && IsDigit(text[e - 1])
    ensures var e := PsOidAt(text, i).value; var p := PsLabelEnd(text, i).value;
            NoSpace(text[p..e]) ==> ExtractPsOid(text).value == text[p..e] && IsCanonicalOid(text[p..e])
  {
    SearchFinds(text, PsOidAt, 0, i);
    var e := PsOidAt(text, i).value;
    var p := PsLabelEnd(text, i).value;
    assert ExtractPsOid(text).value == text[e - 19..e];
    if NoSpace(text[p..e]) {
      OidAtNoSpace(text, p, e);
    }
  }

  /** Round trip: a normal-form order id printed after `Order ID: ` is read back unchanged. */
  lemma ExtractPsOidRoundTrip(o: string, tail: string)
    requires IsCanonicalOid(o)
    ensures ExtractPsOid("Order ID: " + o + tail) == Ok(o)
  {
    var text := "Order ID: " + o + tail;
    assert text[10..29] == o;
    PsLabelOfPrinted(text);
    OidAtCanonical(text, 10);
    ExtractPsOidLeftmost(text, 0);
    assert NoSpace(text[10..29]) by {
      forall k | 0 <= k < 19 ensures !IsSpace(o[k]) {
        assert k == 3 || k == 11 || IsDigit(o[k]);
      }
    }
  }

  lemma PsLabelOfPrinted(text: string)
    requires |text| > 10 && text[..10] == "Order ID: " && !IsSpace(text[10])
    ensures PsLabelEnd(text, 0) == Some(10)
  {
    assert FoldedAt(text, 0, "order", "ORDER");
    assert SpaceEnd(text, 5) == 6;
    assert FoldedAt(text, 6, "id", "ID");
    assert SpaceEnd(text, 9) == 10;
  }

  /** The order-id matcher only matches non-empty text, so repeated searching moves forward. */
  lemma OidAtAdvances()
    ensures Advances(OidAt)
  {
  }

  /** `re.finditer(OID_LOOKS_LIKE_THIS, s)` over the whole text: every non-overlapping match, leftmost first. */
  function FindOids(s: string): (ms: seq<Match>)
    ensures forall k :: 0 <= k < |ms| ==>
      OidAt(s, ms[k].start) == Some(ms[k].end) && ms[k].text == s[ms[k].start..ms[k].end]
    ensures forall k :: 0 <= k < |ms| - 1 ==> ms[k].end <= ms[k + 1].start
    ensures |ms| == 0 <==> forall j :: 0 <= j <= |s| ==> OidAt(s, j).None?
    ensures NothingSkipped(s, OidAt, 0, ms)
  {
    OidAtAdvances();
    FindAllComplete(s, OidAt, 0);
    FindAll(s, OidAt, 0)
  }

  /** `is_oid_page_text`: some position of the page starts an order-id-shaped text. */
  predicate IsOidPage(text: string) {
    Search(text, OidAt, 0).Some?
  }

  lemma IsOidPageMeaning(text: string)
    ensures IsOidPage(text) <==> exists j :: 0 <= j <= |text| && OidAt(text, j).Some?
    ensures IsOidPage(text) <==> |FindOids(text)| > 0
  {
    if IsOidPage(text) {
      var j := Search(text, OidAt, 0).value;
      assert OidAt(text, j).Some?;
    }
  }

  /** The order ids of one index page: each match's text with its spaces removed. */
  function PageOids(ms: seq<Match>): (r: seq<string>)
    ensures |r| == |ms|
    ensures forall k :: 0 <= k < |r| ==> r[k] == RemoveSpaces(ms[k].text)
  {
    if ms == [] then [] else [RemoveSpaces(ms[0].text)] + PageOids(ms[1..])
  }

  /** Every id listed from an index page is order-id shaped: whitespace aside it is in normal form, and it has no space. */
  lemma PageOidsShape(s: string, k: nat)
    requires k < |FindOids(s)|
    ensures var o := PageOids(FindOids(s))[k];
            IsCanonicalOid(RemoveWs(o)) && forall c :: 0 <= c < |o| ==> o[c] != ' '
    ensures var m := FindOids(s)[k];
            (forall c :: 0 <= c < |m.text| && IsSpace(m.text[c]) ==> m.text[c] == ' ') ==>
            IsCanonicalOid(PageOids(FindOids(s))[k])
  {
    var m := FindOids(s)[k];
    OidAtText(s, m.start, m.end);
    SpacelessOid(m.text);
  }

  /** A match's text with its spaces removed: no space left, and canonical once any other whitespace goes too. */
  lemma SpacelessOid(t: string)
    requires IsCanonicalOid(RemoveWs(t))
    ensures var o := RemoveSpaces(t); IsCanonicalOid(RemoveWs(o)) && forall c :: 0 <= c < |o| ==> o[c] != ' '
    ensures (forall c :: 0 <= c < |t| && IsSpace(t[c]) ==> t[c] == ' ') ==> IsCanonicalOid(RemoveSpaces(t))
  {
    RemoveSpacesMeaning(t);
    RemoveWsOfRemoveSpaces(t);
    if forall c :: 0 <= c < |t| && IsSpace(t[c]) ==> t[c] == ' ' {
      RemoveSpacesIsRemoveWs(t);
    }
  }

  lemma {:induction false} RemoveWsOfRemoveSpaces(s: string)
    ensures RemoveWs(RemoveSpaces(s)) == RemoveWs(s)
  {
    if s != [] {
      RemoveWsOfRemoveSpaces(s[1..]);
      var h := if s[0] == ' ' then [] else [s[0]];
      RemoveWsAppend(h, RemoveSpaces(s[1..]));
    }
  }
}
