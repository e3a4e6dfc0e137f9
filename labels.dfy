/**
 * The shipping-label side of `utilities.py`: the text of every page in page
 * order, the "order ID pages" at the end of the labels PDF and the order ids
 * they list, and `oids_and_tnums_from_sl_pages`, which removes those index
 * pages from the caller's page dict in place and pairs every remaining label
 * page with an order id and a tracking number.
 */
module Labels {
  import opened Wrappers
  import opened Scan
  import opened Dicts
  import opened OrderId

  // ---------------------------------------------------------------- all_pages_text

  /** Every key that `sorted(d.keys())` yields is a key of d. */
  lemma SortedKeyPresent<V>(d: Dict<V>, j: nat)
    requires j < |SortedKeys(d)|
    ensures Get(d, SortedKeys(d)[j]).Some?
  {
    var ks := SortedKeys(d);
    assert ks[j] in multiset(Keys(d));
    var m :| 0 <= m < |Keys(d)| && Keys(d)[m] == ks[j];
    GetPresent(d, m);
  }

  /** The recognised text of the pages under the keys ks, in that order. */
  function TextsOf(d: Dict<string>, ks: seq<nat>, ocr: string -> string): (r: seq<string>)
    requires forall j :: 0 <= j < |ks| ==> Get(d, ks[j]).Some?
    ensures |r| == |ks|
    ensures forall j :: 0 <= j < |ks| ==> r[j] == ocr(Get(d, ks[j]).value)
  {
    if ks == [] then []
    else TextsOf(d, ks[..|ks| - 1], ocr) + [ocr(Get(d, ks[|ks| - 1]).value)]
  }

  /** `all_pages_text(d)`: the recognised text of every page, by ascending page number. */
  function PageTexts(d: Dict<string>, ocr: string -> string): (r: seq<string>)
    ensures |r| == |d|
  {
    forall j | 0 <= j < |SortedKeys(d)| ensures Get(d, SortedKeys(d)[j]).Some? {
      SortedKeyPresent(d, j);
    }
    TextsOf(d, SortedKeys(d), ocr)
  }

  /** Text j is the recognised text of the page with the j-th smallest number. */
  lemma PageTextsAt(d: Dict<string>, ocr: string -> string, j: nat)
    requires j < |d|
    ensures Get(d, SortedKeys(d)[j]).Some? && PageTexts(d, ocr)[j] == ocr(Get(d, SortedKeys(d)[j]).value)
  {
    forall i | 0 <= i < |SortedKeys(d)| ensures Get(d, SortedKeys(d)[i]).Some? {
      SortedKeyPresent(d, i);
    }
  }

  /** On a page-numbered dict, list position p - 1 holds the text of page p. */
  lemma PageTextsNumbered(d: Dict<string>, ocr: string -> string, p: nat)
    requires PageNumbered(d) && 1 <= p <= |d|
    ensures Get(d, p).Some? && PageTexts(d, ocr)[p - 1] == ocr(Get(d, p).value)
  {
    SortedPageNumbers(d);
    assert SortedKeys(d)[p - 1] == p;
    PageTextsAt(d, ocr, p - 1);
  }

  method AllPagesText(d: Dict<string>, ocr: string -> string) returns (r: seq<string>)
    ensures r == PageTexts(d, ocr)
  {
    var ks := Sort(Keys(d));
    assert ks == SortedKeys(d);
    r := [];
    for i := 0 to |ks|
      invariant |r| == i && forall j :: 0 <= j < i ==> r[j] == PageTexts(d, ocr)[j]
    {
      PageTextsAt(d, ocr, i);
      r := r + [ocr(Get(d, ks[i]).value)];
    }
  }

  // ---------------------------------------------------------------- extract_oid_pages_text_from_sl_pages

  /** The elements that `keep` accepts, in their order: a list built by a loop of conditional appends. */
  function Filter<T>(xs: seq<T>, keep: T -> bool): (r: seq<T>)
    ensures |r| <= |xs|
  {
    if xs == [] then [] else Filter(xs[..|xs| - 1], keep) + (if keep(xs[|xs| - 1]) then [xs[|xs| - 1]] else [])
  }

  /** Filtering distributes over concatenation, so the order of the elements is kept. */
  lemma {:induction false} FilterAppend<T>(a: seq<T>, b: seq<T>, keep: T -> bool)
    ensures Filter(a + b, keep) == Filter(a, keep) + Filter(b, keep)
    decreases |b|
  {
    if b == [] {
      assert a + b == a;
    } else {
      var b' := b[..|b| - 1];
      assert (a + b)[..|a + b| - 1] == a + b';
      FilterAppend(a, b', keep);
    }
  }

  /** Exactly the accepted elements are kept. */
  lemma {:induction false} FilterMembers<T>(xs: seq<T>, keep: T -> bool, x: T)
    ensures x in Filter(xs, keep) <==> x in xs && keep(x)
    decreases |xs|
  {
    if xs != [] {
      var init := xs[..|xs| - 1];
      FilterMembers(init, keep, x);
      assert xs == init + [xs[|xs| - 1]];
    }
  }

  lemma {:induction false} FilterNone<T>(xs: seq<T>, keep: T -> bool)
    requires forall j :: 0 <= j < |xs| ==> !keep(xs[j])
    ensures Filter(xs, keep) == []
    decreases |xs|
  {
    if xs != [] {
      FilterNone(xs[..|xs| - 1], keep);
    }
  }

  lemma {:induction false} FilterAll<T>(xs: seq<T>, keep: T -> bool)
    requires forall j :: 0 <= j < |xs| ==> keep(xs[j])
    ensures Filter(xs, keep) == xs
    decreases |xs|
  {
    if xs != [] {
      var init := xs[..|xs| - 1];
      FilterAll(init, keep);
      assert xs == init + [xs[|xs| - 1]];
    }
  }

  /** `extract_oid_pages_text_from_sl_pages`: the pages that contain an order-id-shaped text, in their order. */
  function OidPages(pages: seq<string>): (r: seq<string>)
    ensures |r| <= |pages|
  {
    Filter(pages, IsOidPage)
  }

  /** Exactly the pages that contain an order id are kept. */
  lemma OidPagesMembers(pages: seq<string>, x: string)
    ensures x in OidPages(pages) <==> x in pages && IsOidPage(x)
  {
    FilterMembers(pages, IsOidPage, x);
  }

  /** The index pages of a PDF whose pages are followed by further pages are those of the first part, then those of the rest. */
  lemma OidPagesAppend(a: seq<string>, b: seq<string>)
    ensures OidPages(a + b) == OidPages(a) + OidPages(b)
  {
    FilterAppend(a, b, IsOidPage);
  }

  /** When the accepted elements are exactly the trailing ones, the filter returns that tail. */
  lemma FilterTrailing<T>(xs: seq<T>, keep: T -> bool, m: nat)
    requires m <= |xs|
    requires forall j :: 0 <= j < m ==> !keep(xs[j])
    requires forall j :: m <= j < |xs| ==> keep(xs[j])
    ensures Filter(xs, keep) == xs[m..]
  {
    var a, b := xs[..m], xs[m..];
    assert xs == a + b;
    FilterAppend(a, b, keep);
    assert forall j :: 0 <= j < |a| ==> a[j] == xs[j];
    FilterNone(a, keep);
    assert forall j :: 0 <= j < |b| ==> b[j] == xs[m + j];
    FilterAll(b, keep);
  }

  /** When the order-id pages are the trailing pages, the filter returns exactly them. */
  lemma TrailingOidPages(pages: seq<string>, m: nat)
    requires m <= |pages|
    requires forall j :: 0 <= j < m ==> !IsOidPage(pages[j])
    requires forall j :: m <= j < |pages| ==> IsOidPage(pages[j])
    ensures OidPages(pages) == pages[m..]
  {
    FilterTrailing(pages, IsOidPage, m);
  }

  method ExtractOidPages(pages: seq<string>) returns (r: seq<string>)
    ensures r == OidPages(pages)
  {
    r := [];
    for i := 0 to |pages|
      invariant r == Filter(pages[..i], IsOidPage)
    {
      assert pages[..i + 1][..i] == pages[..i];
      if Search(pages[i], OidAt, 0) != None {
        r := r + [pages[i]];
      }
    }
    assert pages[..|pages|] == pages;
  }

  // ---------------------------------------------------------------- extract_oids_from_sl_oid_pages

  /** The lists f gives for each element, concatenated in order: a list built by a loop of appends. */
  function FlatMap<T, U>(xs: seq<T>, f: T -> seq<U>): (r: seq<U>)
  {
    if xs == [] then [] else FlatMap(xs[..|xs| - 1], f) + f(xs[|xs| - 1])
  }

  lemma {:induction false} FlatMapAppend<T, U>(a: seq<T>, b: seq<T>, f: T -> seq<U>)
    ensures FlatMap(a + b, f) == FlatMap(a, f) + FlatMap(b, f)
    decreases |b|
  {
    if b == [] {
      assert a + b == a;
    } else {
      var b' := b[..|b| - 1];
      assert (a + b)[..|a + b| - 1] == a + b';
      FlatMapAppend(a, b', f);
    }
  }

  /** An element of a concatenation comes from one of the lists. */
  lemma {:induction false} FlatMapElement<T, U>(xs: seq<T>, f: T -> seq<U>, k: nat) returns (i: nat, c: nat)
    requires k < |FlatMap(xs, f)|
    ensures i < |xs| && c < |f(xs[i])| && FlatMap(xs, f)[k] == f(xs[i])[c]
    decreases |xs|
  {
    var init := xs[..|xs| - 1];
    var a := FlatMap(init, f);
    if k < |a| {
      i, c := FlatMapElement(init, f, k);
      assert init[i] == xs[i];
    } else {
      i, c := |xs| - 1, k - |a|;
    }
  }

  /** The order ids one index page lists. */
  function OidsOfPage(page: string): seq<string> {
    PageOids(FindOids(page))
  }

  /** `extract_oids_from_sl_oid_pages`: every page's matches in page order, then match order, with their spaces removed. */
  function OidsOfPages(pages: seq<string>): seq<string> {
    FlatMap(pages, OidsOfPage)
  }

  lemma OidsOfPagesAppend(a: seq<string>, b: seq<string>)
    ensures OidsOfPages(a + b) == OidsOfPages(a) + OidsOfPages(b)
  {
    FlatMapAppend(a, b, OidsOfPage);
  }

  /** Every listed id is order-id shaped: without its whitespace it is in normal form, and it has no space left. */
  lemma OidsOfPagesShape(pages: seq<string>, k: nat)
    requires k < |OidsOfPages(pages)|
    ensures var o := OidsOfPages(pages)[k];
      IsCanonicalOid(RemoveWs(o)) && forall c :: 0 <= c < |o| ==> o[c] != ' '
  {
    var i, c := FlatMapElement(pages, OidsOfPage, k);
    PageOidsShape(pages[i], c);
  }

  method ExtractOids(pages: seq<string>) returns (r: seq<string>)
    ensures r == OidsOfPages(pages)
  {
    r := [];
    for i := 0 to |pages|
      invariant r == FlatMap(pages[..i], OidsOfPage)
    {
      assert pages[..i + 1][..i] == pages[..i];
      var ms := FindOids(pages[i]);
      r := AppendPageOids(r, ms);
    }
    assert pages[..|pages|] == pages;
  }

  /** The inner loop: the text of every match of one page, with its spaces removed, appended in match order. */
  method AppendPageOids(before: seq<string>, ms: seq<Match>) returns (r: seq<string>)
    ensures r == before + PageOids(ms)
  {
    r := before;
    for j := 0 to |ms|
      invariant r == before + PageOids(ms[..j])
    {
      PageOidsSnoc(ms, j);
      r := r + [RemoveSpaces(ms[j].text)];
    }
    assert ms[..|ms|] == ms;
  }

  lemma PageOidsSnoc(ms: seq<Match>, j: nat)
    requires j < |ms|
    ensures PageOids(ms[..j + 1]) == PageOids(ms[..j]) + [RemoveSpaces(ms[j].text)]
  {
    var a, b := PageOids(ms[..j + 1]), PageOids(ms[..j]) + [RemoveSpaces(ms[j].text)];
    assert |a| == |b|;
    forall k | 0 <= k < |a| ensures a[k] == b[k] {
      assert ms[..j + 1][k] == ms[k];
      if k < j { assert ms[..j][k] == ms[k]; }
    }
  }

  // ---------------------------------------------------------------- oids_and_tnums_from_sl_pages

  /**
   * The pops of `sl.pop(total - i)` for i = 0 .. count - 1: the keys top, top - 1, ...
   * are removed one after the other. The first missing key raises a KeyError; the
   * dict is then left as the earlier pops made it, and the flag is false.
   */
  function PopDown<V>(d: Dict<V>, top: nat, count: nat): (r: (Dict<V>, bool))
    requires count <= top
    decreases count
  {
    if count == 0 then (d, true)
    else
      match Pop(d, top)
      case Err(_) => (d, false)
      case Ok((_, rest)) => PopDown(rest, top - 1, count - 1)
  }

  /** The entries whose key is not in lo + 1 .. hi, in their order. */
  function Outside<V>(d: Dict<V>, lo: nat, hi: nat): (r: Dict<V>)
    ensures |r| <= |d|
  {
    if d == [] then []
    else (if lo < d[0].0 <= hi then [] else [d[0]]) + Outside(d[1..], lo, hi)
  }

  /** Keys outside the range are looked up as before. */
  lemma {:induction false} OutsideGet<V>(d: Dict<V>, lo: nat, hi: nat, k: nat)
    requires !(lo < k <= hi)
    ensures Get(Outside(d, lo, hi), k) == Get(d, k)
  {
    if d != [] {
      OutsideGet(d[1..], lo, hi, k);
      var r := Outside(d[1..], lo, hi);
      if !(lo < d[0].0 <= hi) {
        GetCons(d[0], r, k);
      } else {
        assert Outside(d, lo, hi) == r;
      }
    }
  }

  /** Removing the key just below the range widens the range by one. */
  lemma {:induction false} OutsideWithout<V>(d: Dict<V>, lo: nat, hi: nat)
    requires 0 < lo <= hi
    ensures Without(Outside(d, lo, hi), lo) == Outside(d, lo - 1, hi)
  {
    if d != [] {
      OutsideWithout(d[1..], lo, hi);
      var r := Outside(d[1..], lo, hi);
      if !(lo < d[0].0 <= hi) {
        WithoutCons(d[0], r, lo);
        assert Outside(d, lo, hi) == [d[0]] + r;
      } else {
        assert Outside(d, lo, hi) == r;
      }
    }
  }

  lemma {:induction false} OutsideEmpty<V>(d: Dict<V>, hi: nat)
    ensures Outside(d, hi, hi) == d
  {
    if d != [] {
      OutsideEmpty(d[1..], hi);
      assert d == [d[0]] + d[1..];
    }
  }

  /** A pop of a present key: the remaining pops go on from the dict without it. */
  lemma PopDownPresent<V>(d: Dict<V>, top: nat, count: nat)
    requires 0 < count <= top && Get(d, top).Some?
    ensures PopDown(d, top, count) == PopDown(Without(d, top), top - 1, count - 1)
  {
  }

  /** A pop of a missing key stops the pops with a failure and leaves the dict as it is. */
  lemma PopDownMissing<V>(d: Dict<V>, top: nat, count: nat)
    requires 0 < count <= top && Get(d, top).None?
    ensures PopDown(d, top, count) == (d, false)
  {
  }

  /** After `done` successful pops, the rest go on from the dict without the keys popped so far. */
  lemma {:induction false} PopDownAfter<V>(d: Dict<V>, total: nat, count: nat, done: nat)
    requires done <= count <= total
    requires forall k :: total - done < k <= total ==> Get(d, k).Some?
    ensures PopDown(d, total, count) == PopDown(Outside(d, total - done, total), total - done, count - done)
    decreases done
  {
    if done == 0 {
      OutsideEmpty(d, total);
    } else {
      PopDownAfter(d, total, count, done - 1);
      var lo := total - (done - 1);
      OutsideGet(d, lo, total, lo);
      OutsideWithout(d, lo, total);
      PopDownPresent(Outside(d, lo, total), lo, count - (done - 1));
    }
  }

  /**
   * When every one of the keys total - count + 1 .. total is present (as on a
   * dict keyed by its page numbers), all pops succeed and exactly the entries
   * for those keys are gone.
   */
  lemma PopDownAll<V>(d: Dict<V>, total: nat, count: nat)
    requires count <= total
    requires forall k :: total - count < k <= total ==> Get(d, k).Some?
    ensures PopDown(d, total, count) == (Outside(d, total - count, total), true)
  {
    PopDownAfter(d, total, count, count);
  }

  /** Python's `xs[i]` for an int i: negative positions count from the end, anything else out of range is an IndexError. */
  function PyIndex(xs: seq<string>, i: int): (r: Result<string, Error>)
    ensures r.Err? <==> !(-|xs| <= i < |xs|)
    ensures r.Err? ==> r.error == IndexOutOfRange
    ensures 0 <= i < |xs| ==> r == Ok(xs[i])
  {
    if 0 <= i < |xs| then Ok(xs[i])
    else if -|xs| <= i < 0 then Ok(xs[|xs| + i])
    else Err(IndexOutOfRange)
  }

  /**
   * The loop over the pages left in the dict: page p gets `oids[p - 1]` and the
   * tracking number that `read` (`extract_tnum_from_sl_text`, see `SlTables`)
   * finds in `all_pages[p - 1]`; the first failure aborts it.
   */
  function LabelTables(es: Dict<string>, pages: seq<string>, oids: seq<string>, read: string -> Result<string, Error>)
    : (r: Result<(Dict<string>, Dict<string>), Error>)
  {
    if es == [] then Ok(([], []))
    else
      match LabelTables(es[..|es| - 1], pages, oids, read)
      case Err(e) => Err(e)
      case Ok((r1, r2)) =>
        var p := es[|es| - 1].0;
        match PyIndex(pages, p as int - 1)
        case Err(e) => Err(e)
        case Ok(text) =>
          match PyIndex(oids, p as int - 1)
          case Err(e) => Err(e)
          case Ok(oid) =>
            match read(text)
            case Err(e) => Err(e)
            case Ok(tnum) => Ok((Put(r1, p, oid), Put(r2, p, tnum)))
  }

  /**
   * The whole of `oids_and_tnums_from_sl_pages` on the page dict d: the dict it leaves behind and what it returns,
   * for a tracking-number reader `read` (`get_orders_info` passes `extract_tnum_from_sl_text`, `Tracking.ExtractTnum`).
   */
  function SlTables(d: Dict<string>, ocr: string -> string, read: string -> Result<string, Error>): (r: (Dict<string>, Result<(Dict<string>, Dict<string>), Error>))
  {
    var texts := PageTexts(d, ocr);
    var idx := OidPages(texts);
    var oids := OidsOfPages(idx);
    var (left, ok) := PopDown(d, |d|, |idx|);
    if !ok then (left, Err(MissingKey))
    else (left, LabelTables(left, texts[..|texts| - |idx|], oids, read))
  }

  /** The page dict that `oids_and_tnums_from_sl_pages` shrinks in place. */
  class PageDict {
    var entries: Dict<string>

    constructor(es: Dict<string>)
      ensures entries == es
    {
      entries := es;
    }

    /** `d.pop(k)`. */
    method Pop(k: nat) returns (r: Result<string, Error>)
      modifies this
      ensures r.Err? <==> Get(old(entries), k).None?
      ensures r.Err? ==> r.error == MissingKey && entries == old(entries)
      ensures r.Ok? ==> r.value == Get(old(entries), k).value && entries == Without(old(entries), k)
    {
      match Dicts.Pop(entries, k)
      case Err(e) => r := Err(e);
      case Ok((v, rest)) => entries := rest; r := Ok(v);
    }
  }

  /**
   * The first loop of `oids_and_tnums_from_sl_pages`: `count` times, pop the
   * highest remaining page number from the dict and the last text from the list.
   */
  method RemoveIndexPages(sl: PageDict, pages: seq<string>, count: nat) returns (ok: bool, left: seq<string>)
    requires count <= |pages| && count <= |sl.entries|
    modifies sl
    ensures (sl.entries, ok) == PopDown(old(sl.entries), |old(sl.entries)|, count)
    ensures ok ==> left == pages[..|pages| - count]
  {
    ghost var d := sl.entries;
    var total := |sl.entries|;
    left := pages;
    for i := 0 to count
      invariant PopDown(sl.entries, total - i, count - i) == PopDown(d, total, count)
      invariant left == pages[..|pages| - i]
    {
      var popped := sl.Pop(total - i);
      if popped.Err? {
        return false, left;
      }
      assert pages[..|pages| - i][..|pages| - i - 1] == pages[..|pages| - i - 1];
      left := left[..|left| - 1];
    }
    ok := true;
  }

  /** A failure on a prefix of the entries is the failure of the whole loop. */
  lemma {:induction false} LabelTablesAbort(es: Dict<string>, j: nat, pages: seq<string>, oids: seq<string>,
                                            read: string -> Result<string, Error>)
    requires j <= |es| && LabelTables(es[..j], pages, oids, read).Err?
    ensures LabelTables(es, pages, oids, read) == LabelTables(es[..j], pages, oids, read)
    decreases |es| - j
  {
    if j < |es| {
      var init := es[..|es| - 1];
      assert init[..j] == es[..j];
      LabelTablesAbort(init, j, pages, oids, read);
    } else {
      assert es[..j] == es;
    }
  }

  /** The second loop: pair every page left in the dict with its order id and tracking number. */
  method PairLabels(es: Dict<string>, pages: seq<string>, oids: seq<string>, read: string -> Result<string, Error>)
    returns (r: Result<(Dict<string>, Dict<string>), Error>)
    ensures r == LabelTables(es, pages, oids, read)
  {
    var result1, result2 := [], [];
    for j := 0 to |es|
      invariant LabelTables(es[..j], pages, oids, read) == Ok((result1, result2))
    {
      assert es[..j + 1][..j] == es[..j];
      var p := es[j].0;
      var text := PyIndex(pages, p as int - 1);
      if text.Err? {
        LabelTablesAbort(es, j + 1, pages, oids, read);
        return Err(text.error);
      }
      var oid := PyIndex(oids, p as int - 1);
      if oid.Err? {
        LabelTablesAbort(es, j + 1, pages, oids, read);
        return Err(oid.error);
      }
      var tnum := read(text.value);
      if tnum.Err? {
        LabelTablesAbort(es, j + 1, pages, oids, read);
        return Err(tnum.error);
      }
      result1 := Put(result1, p, oid.value);
      result2 := Put(result2, p, tnum.value);
    }
    assert es[..|es|] == es;
    r := Ok((result1, result2));
  }

  /**
   * `oids_and_tnums_from_sl_pages(sl)`: shrinks the caller's dict and returns the two page tables.
   * The tracking-number reader is a parameter; `get_orders_info` passes `extract_tnum_from_sl_text`.
   */
  method OidsAndTnums(sl: PageDict, ocr: string -> string, read: string -> Result<string, Error>)
    returns (r: Result<(Dict<string>, Dict<string>), Error>)
    modifies sl
    ensures (sl.entries, r) == SlTables(old(sl.entries), ocr, read)
  {
    ghost var d := sl.entries;
    var allPages := AllPagesText(sl.entries, ocr);
    var oidPages := ExtractOidPages(allPages);
    var oids := ExtractOids(oidPages);
    var ok, labelPages := RemoveIndexPages(sl, allPages, |oidPages|);
    var left := sl.entries;
    r := Err(MissingKey);
    if ok {
      r := PairLabels(left, labelPages, oids, read);
    }
    SlTablesDone(d, ocr, read, allPages, oidPages, oids, left, ok, labelPages, r);
  }

  /** What the steps of `oids_and_tnums_from_sl_pages` compute, put together. */
  lemma SlTablesDone(d: Dict<string>, ocr: string -> string, read: string -> Result<string, Error>,
                     texts: seq<string>, idx: seq<string>, oids: seq<string>, left: Dict<string>, ok: bool,
                     labelPages: seq<string>, r: Result<(Dict<string>, Dict<string>), Error>)
    requires texts == PageTexts(d, ocr) && idx == OidPages(texts) && oids == OidsOfPages(idx)
    requires (left, ok) == PopDown(d, |d|, |idx|)
    requires ok ==> labelPages == texts[..|texts| - |idx|] && r == LabelTables(left, labelPages, oids, read)
    requires !ok ==> r == Err(MissingKey)
    ensures (left, r) == SlTables(d, ocr, read)
  {
    SlTablesSteps(d, ocr, read, texts, idx, left, ok);
  }

  lemma SplitLast<T>(s: seq<T>)
    requires s != []
    ensures s == s[..|s| - 1] + [s[|s| - 1]]
  {
  }

  /** The last entry's step of the pairing loop, once the whole loop has succeeded. */
  lemma LabelTablesLast(es: Dict<string>, pages: seq<string>, oids: seq<string>, read: string -> Result<string, Error>,
                        t1: Dict<string>, t2: Dict<string>)
    returns (q1: Dict<string>, q2: Dict<string>, oid: string, tnum: string)
    requires es != [] && LabelTables(es, pages, oids, read) == Ok((t1, t2))
    ensures LabelTables(es[..|es| - 1], pages, oids, read) == Ok((q1, q2))
    ensures t1 == Put(q1, es[|es| - 1].0, oid) && t2 == Put(q2, es[|es| - 1].0, tnum)
    ensures var p := es[|es| - 1].0 as int - 1;
            PyIndex(oids, p) == Ok(oid) && PyIndex(pages, p).Ok? && read(PyIndex(pages, p).value) == Ok(tnum)
  {
    var p := es[|es| - 1].0;
    q1, q2 := LabelTables(es[..|es| - 1], pages, oids, read).value.0, LabelTables(es[..|es| - 1], pages, oids, read).value.1;
    oid := PyIndex(oids, p as int - 1).value;
    tnum := read(PyIndex(pages, p as int - 1).value).value;
  }

  /** Every page the two tables hold is in both of them and still in the dict they were read from. */
  lemma {:induction false} LabelTablesKeys(es: Dict<string>, pages: seq<string>, oids: seq<string>, read: string -> Result<string, Error>,
                                           t1: Dict<string>, t2: Dict<string>, k: nat)
    requires LabelTables(es, pages, oids, read) == Ok((t1, t2)) && Get(t1, k).Some?
    ensures Get(t2, k).Some? && Get(es, k).Some?
  {
    if es != [] {
      var init, last := es[..|es| - 1], es[|es| - 1];
      var q1, q2, oid, tnum := LabelTablesLast(es, pages, oids, read, t1, t2);
      GetPut(q1, last.0, oid, k);
      GetPut(q2, last.0, tnum, k);
      SplitLast(es);
      GetSnoc(init, last, k);
      if k != last.0 {
        LabelTablesKeys(init, pages, oids, read, q1, q2, k);
      }
    }
  }

  /**
   * What the pairing loop stores for every page p of the dict: `oids[p - 1]` in
   * the first table, and in the second what the reader makes of `pages[p - 1]`.
   */
  lemma {:induction false} LabelTablesTable(es: Dict<string>, pages: seq<string>, oids: seq<string>, read: string -> Result<string, Error>,
                                            t1: Dict<string>, t2: Dict<string>, p: nat)
    requires LabelTables(es, pages, oids, read) == Ok((t1, t2)) && Get(es, p).Some?
    ensures PyIndex(oids, p as int - 1).Ok? && Get(t1, p) == Some(PyIndex(oids, p as int - 1).value)
    ensures PyIndex(pages, p as int - 1).Ok? && Get(t2, p).Some? &&
            read(PyIndex(pages, p as int - 1).value) == Ok(Get(t2, p).value)
  {
    var init, last := es[..|es| - 1], es[|es| - 1];
    var q1, q2, oid, tnum := LabelTablesLast(es, pages, oids, read, t1, t2);
    GetPut(q1, last.0, oid, p);
    GetPut(q2, last.0, tnum, p);
    if p != last.0 {
      SplitLast(es);
      GetSnoc(init, last, p);
      LabelTablesTable(init, pages, oids, read, q1, q2, p);
    }
  }

  /** Popping a range leaves no key of that range. */
  lemma {:induction false} OutsideMissing<V>(d: Dict<V>, lo: nat, hi: nat, k: nat)
    requires lo < k <= hi
    ensures Get(Outside(d, lo, hi), k).None?
  {
    if d != [] {
      OutsideMissing(d[1..], lo, hi, k);
      var r := Outside(d[1..], lo, hi);
      if !(lo < d[0].0 <= hi) {
        GetCons(d[0], r, k);
      } else {
        assert Outside(d, lo, hi) == r;
      }
    }
  }

  /** Every page number 1 .. n is a key of a page-numbered dict of n pages. */
  lemma PageNumberPresent<V>(d: Dict<V>, k: nat)
    requires PageNumbered(d) && 1 <= k <= |d|
    ensures Get(d, k).Some?
  {
    SortedPageNumbers(d);
    SortedKeyPresent(d, k - 1);
  }

  /**
   * On the rasteriser's page dict (pages 1 .. n) the pops all succeed: the dict
   * left behind is d without its last k pages, k the number of index pages, and
   * the tables are read from the first n - k texts.
   */
  lemma SlTablesLeft(d: Dict<string>, ocr: string -> string, read: string -> Result<string, Error>)
      returns (texts: seq<string>, lo: nat)
    requires PageNumbered(d)
    ensures texts == PageTexts(d, ocr) && lo == |d| - |OidPages(texts)|
    ensures SlTables(d, ocr, read) == (Outside(d, lo, |d|), LabelTables(Outside(d, lo, |d|), texts[..lo], OidsOfPages(OidPages(texts)), read))
  {
    texts := PageTexts(d, ocr);
    var k := |OidPages(texts)|;
    lo := |d| - k;
    PopDownNumbered(d, k);
    SlTablesPopped(d, ocr, read, texts, lo);
  }

  /** `SlTables` once every page above lo has been popped. */
  lemma SlTablesPopped(d: Dict<string>, ocr: string -> string, read: string -> Result<string, Error>, texts: seq<string>, lo: nat)
    requires texts == PageTexts(d, ocr) && lo + |OidPages(texts)| == |d|
    requires PopDown(d, |d|, |OidPages(texts)|) == (Outside(d, lo, |d|), true)
    ensures SlTables(d, ocr, read) == (Outside(d, lo, |d|), LabelTables(Outside(d, lo, |d|), texts[..lo], OidsOfPages(OidPages(texts)), read))
  {
  }

  /** On pages 1..n, popping the last k pages never misses a key. */
  lemma PopDownNumbered(d: Dict<string>, k: nat)
    requires PageNumbered(d) && k <= |d|
    ensures PopDown(d, |d|, k) == (Outside(d, |d| - k, |d|), true)
  {
    forall q | |d| - k < q <= |d| ensures Get(d, q).Some? {
      PageNumberPresent(d, q);
    }
    PopDownAll(d, |d|, k);
  }

  /**
   * The promise of `oids_and_tnums_from_sl_pages` on the rasteriser's page dict:
   * every label page p left in the dict is one of the first n - k pages, its
   * order id is the (p - 1)-th id listed on the index pages, and its tracking
   * number is what the reader makes of the text of page p.
   */
  lemma SlTablesValues(d: Dict<string>, ocr: string -> string, read: string -> Result<string, Error>,
                       left: Dict<string>, t1: Dict<string>, t2: Dict<string>, p: nat)
    requires PageNumbered(d) && SlTables(d, ocr, read) == (left, Ok((t1, t2))) && Get(left, p).Some?
    ensures var oids := OidsOfPages(OidPages(PageTexts(d, ocr)));
            1 <= p <= |d| - |OidPages(PageTexts(d, ocr))| && p - 1 < |oids| && Get(t1, p) == Some(oids[p - 1])
    ensures Get(d, p) == Get(left, p) && Get(t2, p).Some? && read(ocr(Get(d, p).value)) == Ok(Get(t2, p).value)
  {
    SlTablesTexts(d, ocr, read, left, t1, t2, p);
    PageTextsNumbered(d, ocr, p);
  }

  /** `SlTablesValues` with the tracking number stated on the page's place in the list of texts. */
  lemma SlTablesTexts(d: Dict<string>, ocr: string -> string, read: string -> Result<string, Error>,
                      left: Dict<string>, t1: Dict<string>, t2: Dict<string>, p: nat)
    requires PageNumbered(d) && SlTables(d, ocr, read) == (left, Ok((t1, t2))) && Get(left, p).Some?
    ensures 1 <= p <= |d| - |OidPages(PageTexts(d, ocr))|
    ensures p - 1 < |OidsOfPages(OidPages(PageTexts(d, ocr)))| && Get(t1, p) == Some(OidsOfPages(OidPages(PageTexts(d, ocr)))[p - 1])
    ensures Get(d, p) == Get(left, p) && Get(t2, p).Some? && read(PageTexts(d, ocr)[p - 1]) == Ok(Get(t2, p).value)
  {
    var texts, lo := SlTablesLeft(d, ocr, read);
    LeftPageValues(d, lo, texts, OidsOfPages(OidPages(texts)), read, t1, t2, p);
  }

  /** `SlTablesValues` for the first lo texts and the dict without its pages above lo. */
  lemma LeftPageValues(d: Dict<string>, lo: nat, texts: seq<string>, oids: seq<string>, read: string -> Result<string, Error>,
                       t1: Dict<string>, t2: Dict<string>, p: nat)
    requires PageNumbered(d) && lo <= |d| <= |texts|
    requires LabelTables(Outside(d, lo, |d|), texts[..lo], oids, read) == Ok((t1, t2)) && Get(Outside(d, lo, |d|), p).Some?
    ensures 1 <= p <= lo && p - 1 < |oids| && Get(t1, p) == Some(oids[p - 1])
    ensures Get(d, p) == Get(Outside(d, lo, |d|), p) && Get(t2, p).Some? && read(texts[p - 1]) == Ok(Get(t2, p).value)
  {
    if lo < p <= |d| {
      OutsideMissing(d, lo, |d|, p);
    }
    OutsideGet(d, lo, |d|, p);
    GetMeaning(d, p);
    var j :| 0 <= j < |d| && d[j] == (p, Get(d, p).value);
    LabelTablesTable(Outside(d, lo, |d|), texts[..lo], oids, read, t1, t2, p);
  }

  /** `SlTables` once its steps are known. */
  lemma SlTablesSteps(d: Dict<string>, ocr: string -> string, read: string -> Result<string, Error>, texts: seq<string>, idx: seq<string>, left: Dict<string>, ok: bool)
    requires texts == PageTexts(d, ocr) && idx == OidPages(texts) && (left, ok) == PopDown(d, |d|, |idx|)
    ensures SlTables(d, ocr, read) ==
              if ok then (left, LabelTables(left, texts[..|texts| - |idx|], OidsOfPages(idx), read)) else (left, Err(MissingKey))
  {
  }

  /** Every page of the SL order-id table is in the tracking-number table and in the dict left behind. */
  lemma SlTablesKeys(d: Dict<string>, ocr: string -> string, read: string -> Result<string, Error>, left: Dict<string>, t1: Dict<string>, t2: Dict<string>, k: nat)
    requires SlTables(d, ocr, read) == (left, Ok((t1, t2))) && Get(t1, k).Some?
    ensures Get(t2, k).Some? && Get(left, k).Some?
  {
    var texts := PageTexts(d, ocr);
    var idx := OidPages(texts);
    var (l, ok) := PopDown(d, |d|, |idx|);
    SlTablesSteps(d, ocr, read, texts, idx, l, ok);
    LabelTablesKeys(left, texts[..|texts| - |idx|], OidsOfPages(idx), read, t1, t2, k);
  }
}
