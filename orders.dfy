/**
 * `get_orders_info`: read the order id off every packing-slip (PS) page, read
 * the order ids and tracking numbers of the shipping-label (SL) pages, and pair
 * every PS page with the first SL page carrying its order id.
 */
module Orders {
  import opened Wrappers
  import opened Dicts
  import opened OrderId
  import opened Labels
  import Tracking

  /** One order of the result: the PS and SL image paths, the order id and the tracking number. */
  datatype OrderInfo = OrderInfo(psPath: string, slPath: string, orderId: string, trackingNumber: string)

  // ---------------------------------------------------------------- oids_from_ps_pages

  /** `extract_oid_from_ps_img`: the order id on the text the OCR reads off a packing-slip image. */
  function PsPageOid(ocr: string -> string): string -> Result<string, Error> {
    path => ExtractPsOid(ocr(path))
  }

  /**
   * The loop of `oids_from_ps_pages`, for any reader of a page's order id:
   * page by page, the order id read off its image; a failing page aborts it.
   */
  function PsOids(ps: Dict<string>, read: string -> Result<string, Error>): (r: Result<Dict<string>, Error>)
    ensures r.Err? ==> exists j :: 0 <= j < |ps| && read(ps[j].1) == Err(r.error)
  {
    if ps == [] then Ok([])
    else
      match PsOids(ps[..|ps| - 1], read)
      case Err(e) => Err(e)
      case Ok(r) =>
        match read(ps[|ps| - 1].1)
        case Err(e) => Err(e)
        case Ok(oid) => Ok(Put(r, ps[|ps| - 1].0, oid))
  }

  /** A failure on a prefix of the pages is the failure of the whole loop. */
  lemma {:induction false} PsOidsAbort(ps: Dict<string>, j: nat, read: string -> Result<string, Error>)
    requires j <= |ps| && PsOids(ps[..j], read).Err?
    ensures PsOids(ps, read) == PsOids(ps[..j], read)
    decreases |ps| - j
  {
    if j < |ps| {
      var init := ps[..|ps| - 1];
      assert init[..j] == ps[..j];
      PsOidsAbort(init, j, read);
    } else {
      assert ps[..j] == ps;
    }
  }

  /** `oids_from_ps_pages(ps)`. */
  method OidsFromPsPages(ps: Dict<string>, ocr: string -> string) returns (r: Result<Dict<string>, Error>)
    ensures r == PsOids(ps, PsPageOid(ocr))
  {
    var result := [];
    for j := 0 to |ps|
      invariant PsOids(ps[..j], PsPageOid(ocr)) == Ok(result)
    {
      assert ps[..j + 1][..j] == ps[..j];
      var oid := ExtractPsOid(ocr(ps[j].1));
      if oid.Err? {
        PsOidsAbort(ps, j + 1, PsPageOid(ocr));
        return Err(oid.error);
      }
      result := Put(result, ps[j].0, oid.value);
    }
    assert ps[..|ps|] == ps;
    r := Ok(result);
  }

  /** The PS table is complete exactly when every page yields an order id. */
  lemma {:induction false} PsOidsComplete(ps: Dict<string>, read: string -> Result<string, Error>)
    ensures PsOids(ps, read).Ok? <==> forall j :: 0 <= j < |ps| ==> read(ps[j].1).Ok?
  {
    if ps != [] {
      var init, last := ps[..|ps| - 1], ps[|ps| - 1];
      PsOidsComplete(init, read);
      if PsOids(init, read).Err? {
        var j :| 0 <= j < |init| && read(init[j].1).Err?;
        assert init[j] == ps[j];
      } else if read(last.1).Ok? {
        forall j | 0 <= j < |ps| ensures read(ps[j].1).Ok? {
          if j < |init| { assert init[j] == ps[j]; }
        }
      }
    }
  }

  /**
   * A complete PS table (the page numbers being distinct, as a dict's keys
   * are) holds each page, in the dict's order, with the order id read off it.
   */
  lemma {:induction false} PsOidsTable(ps: Dict<string>, read: string -> Result<string, Error>)
    requires DistinctKeys(ps) && PsOids(ps, read).Ok?
    ensures var r := PsOids(ps, read).value;
            |r| == |ps| &&
            forall j :: 0 <= j < |ps| ==> r[j].0 == ps[j].0 && read(ps[j].1) == Ok(r[j].1)
  {
    if ps != [] {
      var init, last := ps[..|ps| - 1], ps[|ps| - 1];
      assert DistinctKeys(init);
      PsOidsTable(init, read);
      var q := PsOids(init, read).value;
      var oid := read(last.1).value;
      GetMeaning(q, last.0);
      assert Get(q, last.0).None? by {
        forall j | 0 <= j < |q| ensures q[j].0 != last.0 {
          assert q[j].0 == init[j].0 == ps[j].0;
        }
      }
      assert PsOids(ps, read).value == q + [(last.0, oid)];
    }
  }

  // ---------------------------------------------------------------- k_from_v

  /** `k_from_v(d, v)`: the key of the first entry whose value is v, or a ValueError. */
  function FirstKey(d: Dict<string>, v: string): (r: Result<nat, Error>)
    ensures r.Err? ==> r.error == NoLabelForOrder
  {
    if d == [] then Err(NoLabelForOrder)
    else if d[0].1 == v then Ok(d[0].0)
    else FirstKey(d[1..], v)
  }

  /** The search fails exactly when no entry has the value, and otherwise finds the key of the first one that does. */
  lemma {:induction false} FirstKeyMeaning(d: Dict<string>, v: string)
    ensures FirstKey(d, v).Err? <==> forall j :: 0 <= j < |d| ==> d[j].1 != v
    ensures FirstKey(d, v).Ok? ==>
              exists j :: 0 <= j < |d| && d[j] == (FirstKey(d, v).value, v) &&
                          forall i :: 0 <= i < j ==> d[i].1 != v
  {
    if d != [] && d[0].1 != v {
      FirstKeyMeaning(d[1..], v);
      if FirstKey(d, v).Ok? {
        var j :| 0 <= j < |d[1..]| && d[1..][j] == (FirstKey(d, v).value, v) &&
                 forall i :: 0 <= i < j ==> d[1..][i].1 != v;
        assert d[j + 1] == d[1..][j];
        forall i | 0 <= i < j + 1 ensures d[i].1 != v {
          if i > 0 { assert d[i] == d[1..][i - 1]; }
        }
      } else {
        forall j | 0 <= j < |d| ensures d[j].1 != v {
          if j > 0 { assert d[j] == d[1..][j - 1]; }
        }
      }
    }
  }

  /** `k_from_v`, as the loop over `d.items()` it is. */
  method KFromV(d: Dict<string>, v: string) returns (r: Result<nat, Error>)
    ensures r == FirstKey(d, v)
  {
    for j := 0 to |d|
      invariant FirstKey(d[j..], v) == FirstKey(d, v)
    {
      assert d[j..][1..] == d[j + 1..];
      if d[j].1 == v {
        return Ok(d[j].0);
      }
    }
    r := Err(NoLabelForOrder);
  }

  // ---------------------------------------------------------------- get_orders_info

  /**
   * The matching loop of `get_orders_info`, over the PS table in its order:
   * find the SL page with the PS page's order id, look up its tracking number,
   * the PS path and the SL path; the first failure aborts it.
   */
  function Join(psOids: Dict<string>, ps: Dict<string>, slOids: Dict<string>, slTnums: Dict<string>, sl: Dict<string>): (r: Result<Dict<OrderInfo>, Error>)
  {
    if psOids == [] then Ok([])
    else
      match Join(psOids[..|psOids| - 1], ps, slOids, slTnums, sl)
      case Err(e) => Err(e)
      case Ok(res) =>
        var (k, oid) := psOids[|psOids| - 1];
        match FirstKey(slOids, oid)
        case Err(e) => Err(e)
        case Ok(m) =>
          match Get(slTnums, m)
          case None => Err(MissingKey)
          case Some(tnum) =>
            match Get(ps, k)
            case None => Err(MissingKey)
            case Some(psPath) =>
              match Get(sl, m)
              case None => Err(MissingKey)
              case Some(slPath) => Ok(Put(res, k, OrderInfo(psPath, slPath, oid, tnum)))
  }

  /** A failure on a prefix of the PS table is the failure of the whole loop. */
  lemma {:induction false} JoinAbort(psOids: Dict<string>, j: nat, ps: Dict<string>, slOids: Dict<string>, slTnums: Dict<string>, sl: Dict<string>)
    requires j <= |psOids| && Join(psOids[..j], ps, slOids, slTnums, sl).Err?
    ensures Join(psOids, ps, slOids, slTnums, sl) == Join(psOids[..j], ps, slOids, slTnums, sl)
    decreases |psOids| - j
  {
    if j < |psOids| {
      var init := psOids[..|psOids| - 1];
      assert init[..j] == psOids[..j];
      JoinAbort(init, j, ps, slOids, slTnums, sl);
    } else {
      assert psOids[..j] == psOids;
    }
  }

  /** The tables agree on their pages: every page with an SL order id has a tracking number and an SL path, every PS page a PS path. */
  predicate Consistent(psOids: Dict<string>, ps: Dict<string>, slOids: Dict<string>, slTnums: Dict<string>, sl: Dict<string>) {
    (forall j :: 0 <= j < |psOids| ==> Get(ps, psOids[j].0).Some?) &&
    (forall i :: 0 <= i < |slOids| ==> Get(slTnums, slOids[i].0).Some? && Get(sl, slOids[i].0).Some?)
  }

  /** Some SL page carries the order id. */
  predicate OnLabel(slOids: Dict<string>, oid: string) {
    exists i :: 0 <= i < |slOids| && slOids[i].1 == oid
  }

  /**
   * On consistent tables the loop fails only with the ValueError of
   * `k_from_v`, and it does so exactly when some PS order id is on no SL page.
   */
  lemma {:induction false} JoinFailsOnlyForMissingLabel(psOids: Dict<string>, ps: Dict<string>, slOids: Dict<string>, slTnums: Dict<string>, sl: Dict<string>)
    requires Consistent(psOids, ps, slOids, slTnums, sl)
    ensures Join(psOids, ps, slOids, slTnums, sl).Err? ==> Join(psOids, ps, slOids, slTnums, sl).error == NoLabelForOrder
    ensures Join(psOids, ps, slOids, slTnums, sl).Ok? <==> forall j :: 0 <= j < |psOids| ==> OnLabel(slOids, psOids[j].1)
  {
    if psOids != [] {
      var init, last := psOids[..|psOids| - 1], psOids[|psOids| - 1];
      assert forall j :: 0 <= j < |init| ==> init[j] == psOids[j];
      JoinFailsOnlyForMissingLabel(init, ps, slOids, slTnums, sl);
      JoinStep(psOids, ps, slOids, slTnums, sl);
      FirstKeyMeaning(slOids, last.1);
    }
  }

  /** On consistent tables, the last PS page's step fails only when its order id is on no SL page. */
  lemma JoinStep(psOids: Dict<string>, ps: Dict<string>, slOids: Dict<string>, slTnums: Dict<string>, sl: Dict<string>)
    requires psOids != [] && Consistent(psOids, ps, slOids, slTnums, sl)
    ensures var init := Join(psOids[..|psOids| - 1], ps, slOids, slTnums, sl);
            var whole := Join(psOids, ps, slOids, slTnums, sl);
            (init.Err? ==> whole == init) &&
            (init.Ok? ==> (whole.Ok? <==> FirstKey(slOids, psOids[|psOids| - 1].1).Ok?) &&
                          (whole.Err? ==> whole.error == NoLabelForOrder))
  {
    var last := psOids[|psOids| - 1];
    FirstKeyMeaning(slOids, last.1);
    if FirstKey(slOids, last.1).Ok? {
      var m := FirstKey(slOids, last.1).value;
      var i :| 0 <= i < |slOids| && slOids[i] == (m, last.1) && forall i' :: 0 <= i' < i ==> slOids[i'].1 != last.1;
      assert Get(slTnums, m).Some? && Get(sl, m).Some?;
    }
  }

  /**
   * The record the loop makes of the PS table entry e: keyed by e's page, with
   * that page's path and order id, and the path and tracking number of the
   * first SL page with the same order id.
   */
  predicate JoinedRecord(e: (nat, string), ps: Dict<string>, slOids: Dict<string>, slTnums: Dict<string>, sl: Dict<string>,
                         r: (nat, OrderInfo))
  {
    var m := FirstKey(slOids, e.1);
    m.Ok? && r.0 == e.0 && r.1.orderId == e.1 && Get(ps, e.0) == Some(r.1.psPath) &&
    Get(sl, m.value) == Some(r.1.slPath) && Get(slTnums, m.value) == Some(r.1.trackingNumber)
  }

  /** What a complete result holds: with distinct PS page numbers, one record per PS page, in the PS table's order. */
  lemma {:induction false} JoinRecords(psOids: Dict<string>, ps: Dict<string>, slOids: Dict<string>, slTnums: Dict<string>, sl: Dict<string>,
                                       res: Dict<OrderInfo>)
    requires DistinctKeys(psOids)
    requires Join(psOids, ps, slOids, slTnums, sl) == Ok(res)
    ensures |res| == |psOids| && forall j :: 0 <= j < |psOids| ==> JoinedRecord(psOids[j], ps, slOids, slTnums, sl, res[j])
  {
    if psOids != [] {
      var init, last := psOids[..|psOids| - 1], psOids[|psOids| - 1];
      DistinctInit(psOids);
      var q, info := JoinLast(psOids, ps, slOids, slTnums, sl);
      JoinRecords(init, ps, slOids, slTnums, sl, q);
      forall j | 0 <= j < |init| ensures q[j].0 == init[j].0 {
        assert JoinedRecord(init[j], ps, slOids, slTnums, sl, q[j]);
      }
      FreshKey(q, init, last.0);
      assert res == q + [(last.0, info)];
      forall j | 0 <= j < |psOids| ensures JoinedRecord(psOids[j], ps, slOids, slTnums, sl, res[j]) {
        if j < |init| {
          assert res[j] == q[j] && psOids[j] == init[j];
        } else {
          assert res[j] == (last.0, info);
        }
      }
    }
  }

  /** Distinct page numbers stay distinct without the last entry, which none of the others has. */
  lemma DistinctInit(psOids: Dict<string>)
    requires psOids != [] && DistinctKeys(psOids)
    ensures DistinctKeys(psOids[..|psOids| - 1])
    ensures forall j :: 0 <= j < |psOids| - 1 ==> psOids[j].0 != psOids[|psOids| - 1].0
  {
  }

  /** A key on none of the pages of init is on none of the records made from them. */
  lemma FreshKey(q: Dict<OrderInfo>, init: Dict<string>, k: nat)
    requires |q| == |init| && forall j :: 0 <= j < |q| ==> q[j].0 == init[j].0
    requires forall j :: 0 <= j < |init| ==> init[j].0 != k
    ensures Get(q, k).None?
  {
    GetMeaning(q, k);
  }

  /** The step of the matching loop for the last PS page, once the whole loop has succeeded. */
  lemma JoinLast(psOids: Dict<string>, ps: Dict<string>, slOids: Dict<string>, slTnums: Dict<string>, sl: Dict<string>)
    returns (q: Dict<OrderInfo>, info: OrderInfo)
    requires psOids != [] && Join(psOids, ps, slOids, slTnums, sl).Ok?
    ensures Join(psOids[..|psOids| - 1], ps, slOids, slTnums, sl) == Ok(q)
    ensures Join(psOids, ps, slOids, slTnums, sl).value == Put(q, psOids[|psOids| - 1].0, info)
    ensures JoinedRecord(psOids[|psOids| - 1], ps, slOids, slTnums, sl, (psOids[|psOids| - 1].0, info))
  {
    var (k, oid) := psOids[|psOids| - 1];
    q := Join(psOids[..|psOids| - 1], ps, slOids, slTnums, sl).value;
    var m := FirstKey(slOids, oid).value;
    info := OrderInfo(Get(ps, k).value, Get(sl, m).value, oid, Get(slTnums, m).value);
  }

  /** The matching loop of `get_orders_info`. */
  method MatchOrders(psOids: Dict<string>, ps: Dict<string>, slOids: Dict<string>, slTnums: Dict<string>, sl: Dict<string>) returns (r: Result<Dict<OrderInfo>, Error>)
    ensures r == Join(psOids, ps, slOids, slTnums, sl)
  {
    var result := [];
    for j := 0 to |psOids|
      invariant Join(psOids[..j], ps, slOids, slTnums, sl) == Ok(result)
    {
      assert psOids[..j + 1][..j] == psOids[..j];
      var (k, oid) := psOids[j];
      var m := KFromV(slOids, oid);
      if m.Err? {
        JoinAbort(psOids, j + 1, ps, slOids, slTnums, sl);
        return Err(m.error);
      }
      var tnum := Get(slTnums, m.value);
      var psPath := Get(ps, k);
      var slPath := Get(sl, m.value);
      if tnum.None? || psPath.None? || slPath.None? {
        JoinAbort(psOids, j + 1, ps, slOids, slTnums, sl);
        return Err(MissingKey);
      }
      result := Put(result, k, OrderInfo(psPath.value, slPath.value, oid, tnum.value));
    }
    assert psOids[..|psOids|] == psOids;
    r := Ok(result);
  }

  /**
   * The whole of `get_orders_info(ps, sl)`: the SL dict it leaves behind (its
   * index pages popped) and what it returns. The SL pages are read first, then
   * the PS pages, and the SL paths are looked up in the shrunken dict.
   */
  function OrdersInfo(ps: Dict<string>, sl: Dict<string>, ocr: string -> string, readTnum: string -> Result<string, Error>): (r: (Dict<string>, Result<Dict<OrderInfo>, Error>))
  {
    var (left, tables) := SlTables(sl, ocr, readTnum);
    if tables.Err? then (left, Err(tables.error))
    else
      match PsOids(ps, PsPageOid(ocr))
      case Err(e) => (left, Err(e))
      case Ok(psOids) => (left, Join(psOids, ps, tables.value.0, tables.value.1, left))
  }

  /** `get_orders_info(ps, sl)`: shrinks the caller's SL dict and returns the orders. */
  method GetOrdersInfo(ps: Dict<string>, sl: PageDict, ocr: string -> string) returns (r: Result<Dict<OrderInfo>, Error>)
    modifies sl
    ensures (sl.entries, r) == OrdersInfo(ps, old(sl.entries), ocr, Tracking.ExtractTnum)
  {
    var slOidsAndTnums := OidsAndTnums(sl, ocr, Tracking.ExtractTnum);
    if slOidsAndTnums.Err? {
      return Err(slOidsAndTnums.error);
    }
    var psOids := OidsFromPsPages(ps, ocr);
    if psOids.Err? {
      return Err(psOids.error);
    }
    var (slOids, slTnums) := slOidsAndTnums.value;
    r := MatchOrders(psOids.value, ps, slOids, slTnums, sl.entries);
  }

  /** The facts about the tables that the matching loop needs, gathered from the lemmas on each table. */
  lemma TablesConsistent(ps: Dict<string>, sl: Dict<string>, ocr: string -> string, readTnum: string -> Result<string, Error>,
                         left: Dict<string>, slOids: Dict<string>, slTnums: Dict<string>, psOids: Dict<string>)
    requires DistinctKeys(ps)
    requires SlTables(sl, ocr, readTnum) == (left, Ok((slOids, slTnums))) && PsOids(ps, PsPageOid(ocr)) == Ok(psOids)
    ensures Consistent(psOids, ps, slOids, slTnums, left) && DistinctKeys(psOids)
    ensures |psOids| == |ps| && forall j :: 0 <= j < |ps| ==> psOids[j].0 == ps[j].0 && ExtractPsOid(ocr(ps[j].1)) == Ok(psOids[j].1)
  {
    SlConsistent(sl, ocr, readTnum, left, slOids, slTnums);
    PsConsistent(ps, ocr, psOids);
  }

  /** Every SL page with an order id has a tracking number and is still in the dict. */
  lemma SlConsistent(sl: Dict<string>, ocr: string -> string, readTnum: string -> Result<string, Error>, left: Dict<string>, slOids: Dict<string>, slTnums: Dict<string>)
    requires SlTables(sl, ocr, readTnum) == (left, Ok((slOids, slTnums)))
    ensures forall i :: 0 <= i < |slOids| ==> Get(slTnums, slOids[i].0).Some? && Get(left, slOids[i].0).Some?
  {
    forall i | 0 <= i < |slOids| ensures Get(slTnums, slOids[i].0).Some? && Get(left, slOids[i].0).Some? {
      GetPresent(slOids, i);
      SlTablesKeys(sl, ocr, readTnum, left, slOids, slTnums, slOids[i].0);
    }
  }

  /** The complete PS table lists the PS pages in order, each with the order id read off it. */
  lemma PsConsistent(ps: Dict<string>, ocr: string -> string, psOids: Dict<string>)
    requires DistinctKeys(ps) && PsOids(ps, PsPageOid(ocr)) == Ok(psOids)
    ensures DistinctKeys(psOids) && forall j :: 0 <= j < |psOids| ==> Get(ps, psOids[j].0).Some?
    ensures |psOids| == |ps| && forall j :: 0 <= j < |ps| ==> psOids[j].0 == ps[j].0 && ExtractPsOid(ocr(ps[j].1)) == Ok(psOids[j].1)
  {
    PsOidsTable(ps, PsPageOid(ocr));
    forall j | 0 <= j < |psOids| ensures Get(ps, psOids[j].0).Some? {
      GetPresent(ps, j);
    }
  }

  /**
   * Once both kinds of pages have been read, `get_orders_info` fails only with
   * the ValueError of `k_from_v` (the lookups that could raise a KeyError
   * cannot), and it fails exactly when some PS page's order id is on no SL page.
   */
  lemma OrdersInfoFails(ps: Dict<string>, sl: Dict<string>, ocr: string -> string, readTnum: string -> Result<string, Error>,
                        left: Dict<string>, slOids: Dict<string>, slTnums: Dict<string>)
    requires DistinctKeys(ps)
    requires SlTables(sl, ocr, readTnum) == (left, Ok((slOids, slTnums))) && PsOids(ps, PsPageOid(ocr)).Ok?
    ensures OrdersInfo(ps, sl, ocr, readTnum).0 == left
    ensures OrdersInfo(ps, sl, ocr, readTnum).1.Err? ==> OrdersInfo(ps, sl, ocr, readTnum).1.error == NoLabelForOrder
    ensures OrdersInfo(ps, sl, ocr, readTnum).1.Ok? <==>
              forall j :: 0 <= j < |ps| ==> var oid := ExtractPsOid(ocr(ps[j].1)); oid.Ok? && OnLabel(slOids, oid.value)
  {
    var psOids := PsOids(ps, PsPageOid(ocr)).value;
    OrdersInfoIs(ps, sl, ocr, readTnum, left, slOids, slTnums, psOids);
    TablesConsistent(ps, sl, ocr, readTnum, left, slOids, slTnums, psOids);
    JoinFailsOnlyForMissingLabel(psOids, ps, slOids, slTnums, left);
    PagesOnLabels(ps, ocr, psOids, slOids);
  }

  /** The PS table's order ids are on SL pages exactly when those read off the PS pages are. */
  lemma PagesOnLabels(ps: Dict<string>, ocr: string -> string, psOids: Dict<string>, slOids: Dict<string>)
    requires |psOids| == |ps| && forall j :: 0 <= j < |ps| ==> ExtractPsOid(ocr(ps[j].1)) == Ok(psOids[j].1)
    ensures (forall j :: 0 <= j < |psOids| ==> OnLabel(slOids, psOids[j].1)) <==>
            (forall j :: 0 <= j < |ps| ==> var oid := ExtractPsOid(ocr(ps[j].1)); oid.Ok? && OnLabel(slOids, oid.value))
  {
  }

  /** `get_orders_info` once both tables are known: the matching loop over them. */
  lemma OrdersInfoIs(ps: Dict<string>, sl: Dict<string>, ocr: string -> string, readTnum: string -> Result<string, Error>,
                     left: Dict<string>, slOids: Dict<string>, slTnums: Dict<string>, psOids: Dict<string>)
    requires SlTables(sl, ocr, readTnum) == (left, Ok((slOids, slTnums))) && PsOids(ps, PsPageOid(ocr)) == Ok(psOids)
    ensures OrdersInfo(ps, sl, ocr, readTnum) == (left, Join(psOids, ps, slOids, slTnums, left))
  {
  }

  /**
   * A successful `get_orders_info` holds one record per PS page, in page
   * order, with that page's own path and order id, and the path and tracking
   * number of the first SL page left in the dict that carries the same order id.
   */
  lemma OrdersInfoRecords(ps: Dict<string>, sl: Dict<string>, ocr: string -> string, readTnum: string -> Result<string, Error>,
                          left: Dict<string>, slOids: Dict<string>, slTnums: Dict<string>)
    requires DistinctKeys(ps)
    requires SlTables(sl, ocr, readTnum) == (left, Ok((slOids, slTnums)))
    requires OrdersInfo(ps, sl, ocr, readTnum).1.Ok?
    ensures var res := OrdersInfo(ps, sl, ocr, readTnum).1.value;
            |res| == |ps| &&
            forall j :: 0 <= j < |ps| ==>
              var info := res[j].1;
              var m := FirstKey(slOids, info.orderId);
              res[j].0 == ps[j].0 && info.psPath == ps[j].1 && ExtractPsOid(ocr(ps[j].1)) == Ok(info.orderId) &&
              m.Ok? && Get(left, m.value) == Some(info.slPath) && Get(slTnums, m.value) == Some(info.trackingNumber)
  {
    var psOids := PsOids(ps, PsPageOid(ocr)).value;
    OrdersInfoIs(ps, sl, ocr, readTnum, left, slOids, slTnums, psOids);
    TablesConsistent(ps, sl, ocr, readTnum, left, slOids, slTnums, psOids);
    JoinRecords(psOids, ps, slOids, slTnums, left, Join(psOids, ps, slOids, slTnums, left).value);
    forall j | 0 <= j < |ps| ensures Get(ps, ps[j].0) == Some(ps[j].1) {
      GetAt(ps, j);
    }
  }

  /**
   * On the rasteriser's SL page dict (pages 1 .. n), the label of every order
   * is an SL page of the caller's dict, and the order's tracking number is what
   * the reader makes of that page's text.
   */
  lemma OrdersInfoTracking(ps: Dict<string>, sl: Dict<string>, ocr: string -> string, readTnum: string -> Result<string, Error>,
                           left: Dict<string>, slOids: Dict<string>, slTnums: Dict<string>)
    requires DistinctKeys(ps) && PageNumbered(sl)
    requires SlTables(sl, ocr, readTnum) == (left, Ok((slOids, slTnums)))
    requires OrdersInfo(ps, sl, ocr, readTnum).1.Ok?
    ensures var res := OrdersInfo(ps, sl, ocr, readTnum).1.value;
            forall j :: 0 <= j < |res| ==>
              var info := res[j].1;
              FirstKey(slOids, info.orderId).Ok? && Get(sl, FirstKey(slOids, info.orderId).value) == Some(info.slPath) &&
              readTnum(ocr(info.slPath)) == Ok(info.trackingNumber)
  {
    var res := OrdersInfo(ps, sl, ocr, readTnum).1.value;
    OrdersInfoRecords(ps, sl, ocr, readTnum, left, slOids, slTnums);
    forall j | 0 <= j < |res|
      ensures var info := res[j].1;
              FirstKey(slOids, info.orderId).Ok? && Get(sl, FirstKey(slOids, info.orderId).value) == Some(info.slPath) &&
              readTnum(ocr(info.slPath)) == Ok(info.trackingNumber)
    {
      var m := FirstKey(slOids, res[j].1.orderId).value;
      SlTablesValues(sl, ocr, readTnum, left, slOids, slTnums, m);
    }
  }
}
