/**
 * amazon.py's `AmazonPDFHandler`: the state machine that pairs the two PDFs the
 * virtual printer drops into the watched folder, and `process_ps_and_sl`, the
 * job it dispatches once a pair is complete. The folder is a set of entry
 * names, the clock and the rasteriser are parameters, and every outward effect
 * (alert, directory preparation, image work, printing, uncaught exception) is
 * an action appended to a trace.
 */
module Watcher {
  import opened Wrappers
  import opened Dicts
  import opened Labels
  import opened Orders
  import opened Paths
  import Tracking

  /** `WAIT_TIME_FOR_2ND_PDF`, in seconds. */
  const WaitTime: int := 30

  /** What the watcher does to the world outside the watched folder. */
  datatype Action =
    | Alert(message: string)  // `display_alert(message, blocking=True)`
    | PrepareDir(dir: string)
    | PasteBarcodes(orderId: string, trackingNumber: string, psPath: string)
    | Combine(psPath: string, slPath: string, target: string)
    | PrintLL(path: string)
    | PrintPP(path: string)
    | Crash(failure: Failure)

  /** An exception that escapes `on_created`. */
  datatype Failure =
    /** `seconds_since_epoch - None`: a second PDF before any first one was timed. */
    | TypeError
    /** `dir_items.remove(src)` when the new file is not among the listed entries. */
    | ValueError
    /** An exception raised by the matching pipeline or the path helper. */
    | Raised(error: Error)

  /** `int(x)` on a float: truncation toward zero. */
  function Trunc(x: real): (r: int)
    ensures x >= 0.0 ==> r as real <= x < r as real + 1.0
    ensures x < 0.0 ==> r as real - 1.0 < x <= r as real
  {
    if x >= 0.0 then x.Floor else -((-x).Floor)
  }

  // ---------------------------------------------------------------- on_created's decision

  /** The branch `on_created` takes. */
  datatype Branch =
    | Arm            // one entry: the file is the packing-slip PDF
    | Pair           // two entries, within the wait time: dispatch the pair
    | Discard        // two entries, too late: keep only the new file, as the packing slip
    | Unexpected     // any other count: alert
    | NoPendingTime  // two entries while the stored time is still None

  /** The branch for `count` visible entries, the stored receive time and the clock reading `now`. */
  function Classify(count: nat, stored: Option<real>, now: real): Branch {
    if count == 1 then Arm
    else if count == 2 then
      if stored.None? then NoPendingTime
      else if Trunc(now) as real - stored.value <= WaitTime as real then Pair
      else Discard
    else Unexpected
  }

  /**
   * For a first PDF timed at whole second t, a second one pairs with it exactly
   * when the clock, truncated to seconds, reads at most t + 30: 30 seconds
   * later still pairs, 31 no longer does.
   */
  lemma PairWindow(t: int, now: real)
    ensures Classify(2, Some(t as real), now) == Pair <==> Trunc(now) <= t + WaitTime
    ensures Classify(2, Some(t as real), now) == Discard <==> Trunc(now) > t + WaitTime
  {
  }

  /**
   * The re-armed branch stores the float `time.time()` where the first branch
   * stores `int(time.time())`; for the non-negative readings of a clock that
   * counts from the epoch the fraction never changes the decision.
   */
  lemma StoredFractionIrrelevant(f: real, now: real)
    requires f >= 0.0
    ensures Classify(2, Some(f), now) == Classify(2, Some(Trunc(f) as real), now)
  {
    var n, k := Trunc(now), Trunc(f);
    if n as real - f <= WaitTime as real {
      assert n - k <= WaitTime;
    } else {
      assert n as real > f + WaitTime as real;
      assert n - k > WaitTime;
    }
  }

  /** The alert of the last branch: a fixed lead-in, the watched folder to clear, and a fixed warning. */
  function UnexpectedMessage(folderPath: string): (r: string)
    ensures |r| == 81 + |folderPath| + 35 && r[81..81 + |folderPath|] == folderPath
  {
    "Something unexpected happened." + " Please try again after deleting all contents of: '" +
    folderPath + "' (do not delete the folder itself)"
  }

  /** Different folders give different alerts: the alert tells which folder to clear. */
  lemma UnexpectedMessageNamesFolder(a: string, b: string)
    ensures UnexpectedMessage(a) == UnexpectedMessage(b) <==> a == b
  {
    if UnexpectedMessage(a) == UnexpectedMessage(b) {
      assert |a| == |b|;
      assert a == UnexpectedMessage(a)[81..81 + |a|];
    }
  }

  // ---------------------------------------------------------------- the folder

  /** `glob.glob(folderPath + "*")`: the paths of the visible entries. */
  function Globbed(folder: set<Name>, folderPath: string): set<string> {
    set n | n in Visible(folder) :: folderPath + n
  }

  /** The visible entry whose path is `src`, if any: what `dir_items.remove(src)` finds. */
  function Listed(folder: set<Name>, folderPath: string, src: string): (r: Option<Name>)
    ensures r.Some? ==> r.value in Visible(folder) && folderPath + r.value == src
  {
    if |folderPath| < |src| && src[..|folderPath|] == folderPath && src[|folderPath|..] in Visible(folder) then
      assert folderPath + src[|folderPath|..] == src;
      Some(src[|folderPath|..])
    else None
  }

  /** The new file is found exactly when its path is among the paths `glob` lists. */
  lemma ListedMeaning(folder: set<Name>, folderPath: string, src: string)
    ensures Listed(folder, folderPath, src).Some? <==> src in Globbed(folder, folderPath)
  {
    if src in Globbed(folder, folderPath) {
      var n :| n in Visible(folder) && folderPath + n == src;
      assert src[..|folderPath|] == folderPath && src[|folderPath|..] == n;
    }
  }

  /** What `empty_dir` leaves: `glob` skips hidden entries, so only they survive. */
  function Emptied(folder: set<Name>): (r: set<Name>)
    ensures r <= folder && DirLen(r) == 0
    ensures forall n :: n in folder && !IsVisible(n) ==> n in r
  {
    var r := set n | n in folder && !IsVisible(n);
    assert Visible(r) == {};
    r
  }

  /** Emptying twice is emptying once: the second `empty_dir` after a pair finds nothing to delete. */
  lemma EmptiedTwice(folder: set<Name>)
    ensures Emptied(Emptied(folder)) == Emptied(folder)
  {
  }

  /** The late branch leaves exactly one visible entry, the new file, and every hidden entry. */
  lemma KeepOnlyLeavesOne(folder: set<Name>, n: Name)
    requires n in Visible(folder)
    ensures DirLen(Emptied(folder) + {n}) == 1
    ensures Emptied(folder) + {n} <= folder
  {
    assert Visible(Emptied(folder) + {n}) == {n};
  }

  // ---------------------------------------------------------------- process_ps_and_sl

  /** `orders_info.values()`, in insertion order. */
  function Values(d: Dict<OrderInfo>): (r: seq<OrderInfo>)
    ensures |r| == |d| && forall i :: 0 <= i < |d| ==> r[i] == d[i].1
  {
    if d == [] then [] else [d[0].1] + Values(d[1..])
  }

  /** The name of an order's combined image in the (slash-terminated) directory d. */
  function CombinedName(d: string, orderId: string): string {
    d + orderId + ".png"
  }

  /** The first loop: one barcode paste per order. */
  function Pastes(os: seq<OrderInfo>): (r: seq<Action>)
    ensures |r| == |os|
  {
    if os == [] then []
    else
      var o := os[|os| - 1];
      Pastes(os[..|os| - 1]) + [PasteBarcodes(o.orderId, o.trackingNumber, o.psPath)]
  }

  /** The second loop: one combined image per order, in directory d. */
  function Combines(os: seq<OrderInfo>, d: string): (r: seq<Action>)
    ensures |r| == |os|
  {
    if os == [] then []
    else
      var o := os[|os| - 1];
      Combines(os[..|os| - 1], d) + [Combine(o.psPath, o.slPath, CombinedName(d, o.orderId))]
  }

  /** The third loop: per order, the combined image to the label printer, then the packing slip to the page printer. */
  function Prints(os: seq<OrderInfo>, d: string): (r: seq<Action>)
    ensures |r| == 2 * |os|
  {
    if os == [] then []
    else
      var o := os[|os| - 1];
      Prints(os[..|os| - 1], d) + [PrintLL(CombinedName(d, o.orderId)), PrintPP(o.psPath)]
  }

  /**
   * The three loops over the orders. The slash helper is called in the second
   * loop, so an empty directory raises its IndexError only when there is an order.
   */
  function JobActions(os: seq<OrderInfo>, dir: string): (r: seq<Action>)
  {
    Pastes(os) +
    if os == [] then []
    else
      match AppendSlash(dir)
      case Err(e) => [Crash(Raised(e))]
      case Ok(d) => Combines(os, d) + Prints(os, d)
  }

  /** The three directories `process_ps_and_sl` empties or makes first. */
  function Prepared(splitPsDir: string, splitSlDir: string, combinedDir: string): seq<Action> {
    [PrepareDir(splitPsDir), PrepareDir(splitSlDir), PrepareDir(combinedDir)]
  }

  /** What the job does once `get_orders_info` has returned (or raised): the actions, and whether it ran to the end. */
  function Outcome(info: Result<Dict<OrderInfo>, Error>, combinedDir: string): (r: (seq<Action>, bool)) {
    match info
    case Err(e) => ([Crash(Raised(e))], false)
    case Ok(res) =>
      var os := Values(res);
      (JobActions(os, combinedDir), os == [] || combinedDir != [])
  }

  /** `get_orders_info` on the pages the rasteriser makes of the two PDFs, each in its own directory. */
  function PairOrders(psPdf: string, slPdf: string, raster: (string, string) -> Dict<string>, ocr: string -> string,
                      splitPsDir: string, splitSlDir: string): Result<Dict<OrderInfo>, Error>
  {
    OrdersInfo(raster(psPdf, splitPsDir), raster(slPdf, splitSlDir), ocr, Tracking.ExtractTnum).1
  }

  /**
   * What the job does for order i of n, once the combined directory d ends in
   * a slash: paste at i, combine at n + i into `d + order id + ".png"`, and at
   * 2n + 2i and 2n + 2i + 1 print that same combined image, then the packing slip.
   */
  lemma {:induction false} JobActionsShape(os: seq<OrderInfo>, d: string)
    requires |d| > 0 && d[|d| - 1] == '/'
    ensures |JobActions(os, d)| == 4 * |os|
    ensures forall i :: 0 <= i < |os| ==> JobActions(os, d)[i] == PasteBarcodes(os[i].orderId, os[i].trackingNumber, os[i].psPath)
    ensures forall i :: 0 <= i < |os| ==> JobActions(os, d)[|os| + i] == Combine(os[i].psPath, os[i].slPath, d + os[i].orderId + ".png")
    ensures forall i :: 0 <= i < |os| ==> JobActions(os, d)[2 * |os| + 2 * i] == PrintLL(d + os[i].orderId + ".png")
    ensures forall i :: 0 <= i < |os| ==> JobActions(os, d)[2 * |os| + 2 * i + 1] == PrintPP(os[i].psPath)
  {
    JobActionsLayout(os, d);
    PastesAt(os);
    CombinesAt(os, d);
    PrintsAt(os, d);
  }

  /** With a directory that already ends in a slash, the job's actions are the three loops' actions, one after the other. */
  lemma JobActionsLayout(os: seq<OrderInfo>, d: string)
    requires |d| > 0 && d[|d| - 1] == '/'
    ensures JobActions(os, d) == Pastes(os) + Combines(os, d) + Prints(os, d)
  {
    AppendSlashKeeps(d);
  }

  lemma {:induction false} PastesAt(os: seq<OrderInfo>)
    ensures forall i :: 0 <= i < |os| ==> Pastes(os)[i] == PasteBarcodes(os[i].orderId, os[i].trackingNumber, os[i].psPath)
  {
    if os != [] {
      PastesAt(os[..|os| - 1]);
    }
  }

  lemma {:induction false} CombinesAt(os: seq<OrderInfo>, d: string)
    ensures forall i :: 0 <= i < |os| ==> Combines(os, d)[i] == Combine(os[i].psPath, os[i].slPath, CombinedName(d, os[i].orderId))
  {
    if os != [] {
      CombinesAt(os[..|os| - 1], d);
    }
  }

  lemma {:induction false} PrintsAt(os: seq<OrderInfo>, d: string)
    ensures forall i :: 0 <= i < |os| ==>
              Prints(os, d)[2 * i] == PrintLL(CombinedName(d, os[i].orderId)) && Prints(os, d)[2 * i + 1] == PrintPP(os[i].psPath)
  {
    if os != [] {
      PrintsAt(os[..|os| - 1], d);
    }
  }

  // ---------------------------------------------------------------- the handler

  /** `AmazonPDFHandler`'s class attributes, the watched folder and what the handler has done so far. */
  class Handler {
    /** The pending packing-slip PDF. */
    var psPdfPath: Option<string>
    /** When it arrived, in seconds since the epoch. */
    var psPdfReceiveTime: Option<real>
    /** The entries of the watched folder. */
    var folder: set<Name>
    /** Every action taken so far, oldest first. */
    var trace: seq<Action>

    /** `AMAZON_VP_DESTINATION_FOLDER`. */
    const folderPath: string
    /** `SPLIT_PS_PDF_TARGET`, `SPLIT_SL_PDF_TARGET` and `COMBINED_IMGS_TARGET`. */
    const splitPsDir: string
    const splitSlDir: string
    const combinedDir: string

    /** Both class attributes start as None, and they are only ever set together. */
    predicate Valid()
      reads this
    {
      psPdfPath.Some? <==> psPdfReceiveTime.Some?
    }

    /** The handler for the directories under the working directory `cwd`, watching a folder holding `contents`. */
    constructor(cwd: string, contents: set<Name>)
      ensures Valid()
      ensures psPdfPath == None && psPdfReceiveTime == None && folder == contents && trace == []
      ensures folderPath == cwd + "/" + "amazon_virtual_printer_target/"
      ensures splitPsDir == cwd + "/" + "split_ps_pdf_target/"
      ensures splitSlDir == cwd + "/" + "split_sl_pdf_target/"
      ensures combinedDir == cwd + "/" + "combined_pages/"
    {
      psPdfPath := None;
      psPdfReceiveTime := None;
      folder := contents;
      trace := [];
      folderPath := cwd + "/" + "amazon_virtual_printer_target/";
      splitPsDir := cwd + "/" + "split_ps_pdf_target/";
      splitSlDir := cwd + "/" + "split_sl_pdf_target/";
      combinedDir := cwd + "/" + "combined_pages/";
    }

    /** `empty_dir(AMAZON_VP_DESTINATION_FOLDER)`. */
    method EmptyDir()
      modifies this
      ensures folder == Emptied(old(folder))
      ensures psPdfPath == old(psPdfPath) && psPdfReceiveTime == old(psPdfReceiveTime) && trace == old(trace)
    {
      folder := Emptied(folder);
    }

    /** The first loop of `process_ps_and_sl`. */
    method PasteAll(os: seq<OrderInfo>)
      modifies this
      ensures trace == old(trace) + Pastes(os)
      ensures folder == old(folder) && psPdfPath == old(psPdfPath) && psPdfReceiveTime == old(psPdfReceiveTime)
    {
      for j := 0 to |os|
        invariant trace == old(trace) + Pastes(os[..j])
        invariant folder == old(folder) && psPdfPath == old(psPdfPath) && psPdfReceiveTime == old(psPdfReceiveTime)
      {
        assert os[..j + 1][..j] == os[..j];
        trace := trace + [PasteBarcodes(os[j].orderId, os[j].trackingNumber, os[j].psPath)];
      }
      assert os[..|os|] == os;
    }

    /** The second loop: the combined image of every order, named after its order id; ok is false on an IndexError. */
    method CombineAll(os: seq<OrderInfo>) returns (ok: bool, combined: seq<string>)
      modifies this
      ensures ok <==> os == [] || combinedDir != []
      ensures !ok ==> trace == old(trace) + [Crash(Raised(IndexOutOfRange))]
      ensures ok && os != [] ==>
                trace == old(trace) + Combines(os, AppendSlash(combinedDir).value) &&
                |combined| == |os| &&
                forall i :: 0 <= i < |os| ==> combined[i] == CombinedName(AppendSlash(combinedDir).value, os[i].orderId)
      ensures ok && os == [] ==> trace == old(trace)
      ensures folder == old(folder) && psPdfPath == old(psPdfPath) && psPdfReceiveTime == old(psPdfReceiveTime)
    {
      combined := [];
      for j := 0 to |os|
        invariant j > 0 ==> AppendSlash(combinedDir).Ok?
        invariant j > 0 ==> trace == old(trace) + Combines(os[..j], AppendSlash(combinedDir).value)
        invariant j == 0 ==> trace == old(trace)
        invariant |combined| == j
        invariant forall i :: 0 <= i < j ==> combined[i] == CombinedName(AppendSlash(combinedDir).value, os[i].orderId)
        invariant folder == old(folder) && psPdfPath == old(psPdfPath) && psPdfReceiveTime == old(psPdfReceiveTime)
      {
        assert os[..j + 1][..j] == os[..j];
        var d := AppendSlash(combinedDir);
        if d.Err? {
          trace := trace + [Crash(Raised(d.error))];
          return false, combined;
        }
        var target := d.value + os[j].orderId + ".png";
        trace := trace + [Combine(os[j].psPath, os[j].slPath, target)];
        combined := combined + [target];
      }
      assert os[..|os|] == os;
      ok := true;
    }

    /** The third loop: label printer, then page printer, order by order. */
    method PrintAll(os: seq<OrderInfo>, combined: seq<string>, ghost d: string)
      requires |combined| == |os| && forall i :: 0 <= i < |os| ==> combined[i] == CombinedName(d, os[i].orderId)
      modifies this
      ensures trace == old(trace) + Prints(os, d)
      ensures folder == old(folder) && psPdfPath == old(psPdfPath) && psPdfReceiveTime == old(psPdfReceiveTime)
    {
      for j := 0 to |os|
        invariant trace == old(trace) + Prints(os[..j], d)
        invariant folder == old(folder) && psPdfPath == old(psPdfPath) && psPdfReceiveTime == old(psPdfReceiveTime)
      {
        assert os[..j + 1][..j] == os[..j];
        trace := trace + [PrintLL(combined[j]), PrintPP(os[j].psPath)];
      }
      assert os[..|os|] == os;
    }

    /** The three loops over the orders, then the watched folder emptied; ok is false when an exception escapes. */
    method RunOrders(res: Dict<OrderInfo>) returns (ok: bool)
      modifies this
      ensures trace == old(trace) + Outcome(Ok(res), combinedDir).0 && ok == Outcome(Ok(res), combinedDir).1
      ensures folder == if ok then Emptied(old(folder)) else old(folder)
      ensures psPdfPath == old(psPdfPath) && psPdfReceiveTime == old(psPdfReceiveTime)
    {
      var os := Values(res);
      PasteAll(os);
      var combined;
      ok, combined := CombineAll(os);
      if !ok {
        return;
      }
      if os != [] {
        PrintAll(os, combined, AppendSlash(combinedDir).value);
      }
      EmptyDir();
    }

    /** `process_ps_and_sl(psPdf, slPdf)`; ok is false when an exception escapes it. */
    method ProcessPsAndSl(psPdf: string, slPdf: string, raster: (string, string) -> Dict<string>, ocr: string -> string)
      returns (ok: bool)
      modifies this
      ensures var outcome := Outcome(PairOrders(psPdf, slPdf, raster, ocr, splitPsDir, splitSlDir), combinedDir);
              trace == old(trace) + Prepared(splitPsDir, splitSlDir, combinedDir) + outcome.0 && ok == outcome.1
      ensures folder == if ok then Emptied(old(folder)) else old(folder)
      ensures psPdfPath == old(psPdfPath) && psPdfReceiveTime == old(psPdfReceiveTime)
    {
      trace := trace + Prepared(splitPsDir, splitSlDir, combinedDir);
      var ps := raster(psPdf, splitPsDir);
      var sl := raster(slPdf, splitSlDir);
      var slDict := new PageDict(sl);
      var info := GetOrdersInfo(ps, slDict, ocr);
      ok := FinishJob(info);
    }

    /** The rest of `process_ps_and_sl` once `get_orders_info` has returned or raised. */
    method FinishJob(info: Result<Dict<OrderInfo>, Error>) returns (ok: bool)
      modifies this
      ensures trace == old(trace) + Outcome(info, combinedDir).0 && ok == Outcome(info, combinedDir).1
      ensures folder == if ok then Emptied(old(folder)) else old(folder)
      ensures psPdfPath == old(psPdfPath) && psPdfReceiveTime == old(psPdfReceiveTime)
    {
      if info.Err? {
        trace := trace + [Crash(Raised(info.error))];
        return false;
      }
      ok := RunOrders(info.value);
    }

    /** The in-time branch: the pending PDF and the new one go to `process_ps_and_sl`, and the folder is emptied once more when it returns. */
    method DispatchPair(src: string, raster: (string, string) -> Dict<string>, ocr: string -> string)
      requires psPdfPath.Some?
      modifies this
      ensures var outcome := Outcome(PairOrders(old(psPdfPath).value, src, raster, ocr, splitPsDir, splitSlDir), combinedDir);
              trace == old(trace) + Prepared(splitPsDir, splitSlDir, combinedDir) + outcome.0 &&
              folder == (if outcome.1 then Emptied(old(folder)) else old(folder))
      ensures psPdfPath == old(psPdfPath) && psPdfReceiveTime == old(psPdfReceiveTime)
    {
      var ok := ProcessPsAndSl(psPdfPath.value, src, raster, ocr);
      if ok {
        EmptyDir();
        EmptiedTwice(old(folder));
      }
    }

    /** The last branch: the alert that asks for the watched folder to be cleared; nothing else changes. */
    method AlertUnexpected()
      modifies this
      ensures trace == old(trace) + [Alert(UnexpectedMessage(folderPath))]
      ensures folder == old(folder) && psPdfPath == old(psPdfPath) && psPdfReceiveTime == old(psPdfReceiveTime)
    {
      trace := trace + [Alert(UnexpectedMessage(folderPath))];
    }

    /**
     * The late branch: delete every listed entry but the new file, which becomes the
     * pending packing slip, received at `later`, the clock read once more (and not truncated).
     */
    method DiscardStale(src: string, later: real)
      modifies this
      ensures Listed(old(folder), folderPath, src).Some? ==>
                folder == Emptied(old(folder)) + {Listed(old(folder), folderPath, src).value} &&
                psPdfPath == Some(src) && psPdfReceiveTime == Some(later) && trace == old(trace)
      ensures Listed(old(folder), folderPath, src).None? ==>
                trace == old(trace) + [Crash(ValueError)] && folder == old(folder) &&
                psPdfPath == old(psPdfPath) && psPdfReceiveTime == old(psPdfReceiveTime)
    {
      var kept := Listed(folder, folderPath, src);
      if kept.None? {
        trace := trace + [Crash(ValueError)];
        return;
      }
      folder := Emptied(folder) + {kept.value};
      psPdfPath := Some(src);
      psPdfReceiveTime := Some(later);
    }

    /**
     * `on_created` for a new entry whose path is `src`, with the clock reading
     * `now`: branch on the count of visible entries, as `Classify` says. The
     * pending PDF is passed on as the packing slip and the new one as the label.
     * `later` is the second clock reading the late branch takes.
     */
    method OnCreated(src: string, now: real, later: real, raster: (string, string) -> Dict<string>, ocr: string -> string)
      requires Valid()
      modifies this
      ensures Valid()
      ensures Classify(DirLen(old(folder)), old(psPdfReceiveTime), now) == Arm ==>
                psPdfPath == Some(src) && psPdfReceiveTime == Some(Trunc(now) as real) &&
                folder == old(folder) && trace == old(trace)
      ensures Classify(DirLen(old(folder)), old(psPdfReceiveTime), now) == Pair ==>
                var outcome := Outcome(PairOrders(old(psPdfPath).value, src, raster, ocr, splitPsDir, splitSlDir), combinedDir);
                trace == old(trace) + Prepared(splitPsDir, splitSlDir, combinedDir) + outcome.0 &&
                folder == (if outcome.1 then Emptied(old(folder)) else old(folder)) &&
                psPdfPath == old(psPdfPath) && psPdfReceiveTime == old(psPdfReceiveTime)
      ensures Classify(DirLen(old(folder)), old(psPdfReceiveTime), now) == Discard ==>
                if Listed(old(folder), folderPath, src).Some? then
                  folder == Emptied(old(folder)) + {Listed(old(folder), folderPath, src).value} &&
                  psPdfPath == Some(src) && psPdfReceiveTime == Some(later) && trace == old(trace)
                else
                  trace == old(trace) + [Crash(ValueError)] && folder == old(folder) &&
                  psPdfPath == old(psPdfPath) && psPdfReceiveTime == old(psPdfReceiveTime)
      ensures Classify(DirLen(old(folder)), old(psPdfReceiveTime), now) == NoPendingTime ==>
                trace == old(trace) + [Crash(TypeError)] && folder == old(folder) &&
                psPdfPath == old(psPdfPath) && psPdfReceiveTime == old(psPdfReceiveTime)
      ensures Classify(DirLen(old(folder)), old(psPdfReceiveTime), now) == Unexpected ==>
                trace == old(trace) + [Alert(UnexpectedMessage(folderPath))] && folder == old(folder) &&
                psPdfPath == old(psPdfPath) && psPdfReceiveTime == old(psPdfReceiveTime)
    {
      match Classify(DirLen(folder), psPdfReceiveTime, now)
      case Arm =>
        psPdfReceiveTime := Some(Trunc(now) as real);
        psPdfPath := Some(src);
      case NoPendingTime =>
        trace := trace + [Crash(TypeError)];
      case Pair =>
        DispatchPair(src, raster, ocr);
      case Discard =>
        DiscardStale(src, later);
      case Unexpected =>
        AlertUnexpected();
    }
  }
}
