# Amazon packing-slip / shipping-label pairing, modelled in Dafny

The system watches the folder that a virtual printer saves into. Amazon's
seller portal prints two PDFs for one batch of orders: first the packing
slips (PS), then the shipping labels (SL). The watcher pairs the two files.
It reads an order id off every PS page. It finds the "order ID pages" that
close the SL document, reads the order ids they list, and reads a tracking
number off every remaining label page. It then joins every PS page to the
label page carrying the same order id and hands the orders to the
image-pasting, combining and printing stage.

The model covers two files:

- `utilities.py`. The modelled parts are:
  - the order-id grammar;
  - the PS `Order ID:` reader;
  - the three tracking-number grammars;
  - how the index pages are found;
  - how index pages are removed from the caller's page dict in place;
  - the PS↔SL join;
  - the path helpers.
- `amazon.py`. The modelled parts are the `on_created` state machine and the
  `process_ps_and_sl` job.

Files:

- `wrappers.dfy`: `Option`, `Result` and the `Error` kinds that stand for the
  exceptions the code raises.
- `scan.dfy`: the regular-expression building blocks. These are `\s` (the
  whitespace of Python's str patterns), ASCII `\d` and `\w`, whitespace removal, the tail slice `s[-n:]`, `re.search`
  (leftmost match), `re.finditer` (successive non-overlapping matches) and the
  backward search a greedy `.*` performs.
- `order_id.dfy`: `OID_LOOKS_LIKE_THIS` and `extract_oid_from_ps_img`'s pattern
  and slice.
- `tracking.dfy`: `extract_tnum_from_sl_text`. It covers:
  - the TRK, TRACKING and USPS patterns, with the `.{1,4}` and `.*`
    backtracking written out;
  - the whitespace removal, the tail slices and the `1ZO9A` fix.
- `dicts.dfy`: a Python dict as a sequence of (key, value) entries in
  insertion order, with `d[k]`, `d[k] = v`, `d.pop(k)` and
  `sorted(d.keys())`.
- `labels.dfy`: the SL side. It covers:
  - `all_pages_text`, `extract_oid_pages_text_from_sl_pages` and
    `extract_oids_from_sl_oid_pages`;
  - `oids_and_tnums_from_sl_pages`, whose caller-owned page dict is the
    `PageDict` class that pops in place.
- `orders.dfy`: `oids_from_ps_pages`, `k_from_v` and `get_orders_info`.
- `paths.dfy`: `append_forward_slash_if_needed` and `dir_len`.
- `watcher.dfy`: the handler class, its two class attributes, the watched
  folder as a set of entry names and a trace of outward actions.

How the model reads the code:

- **Regular expressions.** The patterns are hand-written scanners.
  - Each `\s*` and `[\s]{0,2}` is followed by a class that excludes
    whitespace, so a greedy scan gives the regex's own match.
  - The two places where the regex engine backtracks are modelled as
    searches. The TRK `.{1,4}` tries 4, 3, 2 and then 1 characters. The USPS
    `.*` (with `re.S`) takes the last place where 22 digits begin.
- **Exceptions.** A raised exception is an `Err` value:
  - the PS page's `match.start()` on `None` is `OrderIdNotFound`;
  - the tracking `Exception` is `TrackingNumberNotFound` with the page text;
  - `k_from_v`'s `ValueError` is `NoLabelForOrder`;
  - a missing dict key is `MissingKey`;
  - a list index out of range is `IndexOutOfRange`.

  In the watcher, an exception that escapes `on_created` is a `Crash` action
  that ends the event.
- **Parameters.** OCR (`image_to_string`), the rasteriser (`pdf_to_images`),
  the clock (`time.time()`) and the working directory are parameters.

Behaviours the code does not have, and so neither does the model:

- The code has no content probe to tell the PS from the SL. The first PDF is
  always the packing slip.
- The code does not scan backward for index pages. Every page on which the
  order-id pattern occurs anywhere counts as an index page. As many pages are
  then popped off the end of the dict.
- The code has no multi-resolution OCR voting. Every page is read once.
- The code does not detect duplicate SL order ids. `k_from_v` takes the first
  SL page in dict order.
- The unexpected-count branch does not clear the folder. It only shows an
  alert.

## Model

| member | source | states |
|---|---|---|
| Scan.IsSpace | utilities.py:243-266 | `\s` of a str pattern: the characters `str.isspace` accepts (ASCII 9-13 and 28-32, U+0085, U+00A0, and from U+1680 on the ones `Scan.IsWideSpace` lists) |
| Scan.IsWideSpace | utilities.py:243-266 | the whitespace from U+1680 on: U+1680, U+2000-200A, U+2028, U+2029, U+202F, U+205F and U+3000 |
| Scan.IsDigit | utilities.py:243-266 | `\d`, restricted to the ASCII digits 0-9 |
| Scan.IsWord | utilities.py:247 | `\w`, restricted to ASCII letters, digits and the underscore |
| Scan.LiteralAt | utilities.py:243-251 | a literal such as `TRK`, `TRACKING`, `#:` or `USPS` occurs at position i, all of it inside the text |
| Scan.FoldedAt | utilities.py:185 | a case-insensitive literal such as `[Oo][Rr][Dd][Ee][Rr]` or `[Ii][Dd]`: each position holds the lower- or the upper-case letter |
| Scan.RemoveWs | utilities.py:255 | `"".join(re.split(r"\s+", s))` is never longer than s; what it keeps is stated by `Scan.RemoveWsMeaning` |
| Scan.RemoveWsMeaning | utilities.py:255 | `"".join(re.split(r"\s+", s))` leaves no whitespace, keeps no character that was not in s and keeps every non-whitespace character of s |
| Scan.RemoveWsAppend | utilities.py:255 | removing whitespace distributes over concatenation |
| Scan.RemoveSpaces | utilities.py:325 | `replace(" ", "")` is never longer than its input; what it keeps is stated by `Scan.RemoveSpacesMeaning` |
| Scan.RemoveSpacesMeaning | utilities.py:325 | `replace(" ", "")` leaves no space and keeps every other character |
| Scan.RemoveSpacesIsRemoveWs | utilities.py:325 | on text whose only whitespace is the space, removing spaces removes all whitespace |
| Scan.Last | utilities.py:189 | `s[-n:]` has length min(n, \|s\|) and is the tail of s |
| Scan.SpaceEnd | utilities.py:185 | the greedy `[\s]*` stops at the end or at a non-space |
| Scan.SpacesUpTo | utilities.py:243 | the greedy `[\s]{0,2}` takes at most m spaces and stops early only at a non-space or the end |
| Scan.DigitRun | utilities.py:18 | `(\s*\d){n}` anchored at i: a match lies inside the text and is non-empty for n > 0 |
| Scan.DigitRunText | utilities.py:18 | a match of `(\s*\d){n}` holds exactly n digits once whitespace is removed, and ends on a digit |
| Scan.DigitRunOnDigits | utilities.py:18 | n digits in a row always match `(\s*\d){n}`, ending right after them |
| Scan.Search | utilities.py:186 | `re.search`: the leftmost position where the pattern matches, and None exactly when it matches nowhere |
| Scan.SearchFinds | utilities.py:186 | if the pattern matches at i and nowhere before i, the search returns i |
| Scan.FindAll | utilities.py:322 | `re.finditer`: every element is a match, the matches are in order and do not overlap, the first is leftmost, and the list is empty exactly when the pattern occurs nowhere |
| Scan.FindAllComplete | utilities.py:322 | `re.finditer` skips no match: the pattern matches nowhere in front of the first match, between the end of one match and the start of the next, or after the last |
| Scan.SearchBack | utilities.py:251 | the greedy `.*` gives back characters until the rest matches: it picks the last start in range, and fails only if none exists |
| Scan.SearchBackFinds | utilities.py:251 | if the rest matches at x and at no later start in range, the backtracking settles on x |
| Scan.DigitRunRoom | utilities.py:251 | n digits in front of a digit-free stretch that starts at q can only begin at q - n or earlier |
| Scan.SpaceEndBefore | utilities.py:251 | the greedy `\s*` stops at the latest at the next non-space |
| Scan.AllWordNoSpace | utilities.py:243 | a run of `\w` characters holds no whitespace |
| OrderId.OidAt | utilities.py:18 | `OID_LOOKS_LIKE_THIS` anchored at i: a match is non-empty and lies inside the text; its parts are stated by `OrderId.OidAtParts` and `OrderId.OidAtText` |
| OrderId.OidAtParts | utilities.py:18 | a match of `OID_LOOKS_LIKE_THIS` is three digit runs of 3, 7 and 7 digits separated by two hyphens |
| OrderId.OidAtText | utilities.py:18 | any match, with its whitespace removed, is in the canonical form `DDD-DDDDDDD-DDDDDDD`, is at least 19 characters long and ends on a digit |
| OrderId.OidAtNoSpace | utilities.py:18 | a match that contains no whitespace is exactly 19 characters in canonical form |
| OrderId.OidAtCanonical | utilities.py:18 | conversely, every canonical order id matches the pattern where it starts |
| OrderId.PsLabelEnd | utilities.py:185 | the `[Oo][Rr][Dd][Ee][Rr][\s]*[Ii][Dd]:[\s]*` prefix is at least 8 characters long and stops at a non-space |
| OrderId.PsOidAt | utilities.py:185 | a PS match is the label prefix followed by an order-id match, at least 27 characters long and ending on a digit |
| OrderId.ExtractPsOid | utilities.py:185-189 | reading the PS text fails only with OrderIdNotFound, and on success yields 19 characters |
| OrderId.ExtractPsOidNotFound | utilities.py:186-187 | reading fails exactly when the `Order ID:` pattern occurs nowhere in the text |
| OrderId.ExtractPsOidLeftmost | utilities.py:186-189 | the result is the last 19 characters of the leftmost match; when that order id is printed without spaces, it is exactly the order id, in canonical form |
| OrderId.ExtractPsOidRoundTrip | utilities.py:184-189 | the text `"Order ID: " + o + tail` reads back as o, for every canonical order id o and any tail |
| OrderId.PsLabelOfPrinted | utilities.py:185 | on a literal `Order ID: ` the prefix ends right after the label |
| OrderId.OidAtAdvances | utilities.py:322 | every order-id match is non-empty, so finditer's scan advances |
| OrderId.FindOids | utilities.py:322 | the order-id matches of a page are in order, do not overlap, are absent exactly when the pattern occurs nowhere, and skip no match: none in front of the first, between two consecutive ones or after the last |
| OrderId.IsOidPage | utilities.py:286-287 | `is_oid_page_text`; `OrderId.IsOidPageMeaning` states when it holds |
| OrderId.IsOidPageMeaning | utilities.py:286-287 | `is_oid_page_text` holds exactly when the pattern occurs somewhere, that is, exactly when finditer finds at least one match |
| OrderId.PageOids | utilities.py:322-326 | one order id per match, its spaces removed |
| OrderId.PageOidsShape | utilities.py:322-326 | every id read off an index page has no space and is canonical once whitespace is removed; it is canonical as it stands when the match's only whitespace is spaces |
| OrderId.RemoveWsOfRemoveSpaces | utilities.py:325 | removing spaces first does not change the whitespace-free text |
| OrderId.SpacelessOid | utilities.py:322-326 | removing the spaces from a match leaves an id with no space in it, and a match whose only whitespace is spaces becomes the canonical id |
| Tracking.ClassRunMeaning | utilities.py:243 | `[\d]{n}` / `[\w]{n}` matches at i exactly when the next n characters are in the class |
| Tracking.ClassRun | utilities.py:243 | `[\d]{n}` / `[\w]{n}` anchored at i: a match is exactly n characters long |
| Tracking.ClassRunText | utilities.py:243 | the n characters a `[\d]{n}` / `[\w]{n}` run covers are word characters (digits for `\d`) and hold no whitespace |
| Tracking.GroupsAt | utilities.py:243-247 | groups of `[\s]{0,2}` and a class run, one after the other: a match lies inside the text |
| Tracking.GroupsText | utilities.py:243 | a run of space-separated groups holds, once whitespace is removed, exactly the total of the group widths of word characters, all digits when every group is digits |
| Tracking.TrkGroupsStart | utilities.py:243 | `.{1,4}` skips 1 to 4 characters, none of them a newline, and the groups match after them |
| Tracking.TrkAt | utilities.py:243 | a TRK match is the literal, the skipped characters and the three groups |
| Tracking.UpsLabelEnd | utilities.py:247 | the `TRACKING[\s]{0,2}#:[\s]{0,2}` label spans at least 10 characters |
| Tracking.UpsAt | utilities.py:247 | a TRACKING match is the label followed by the six groups |
| Tracking.FixOcrConfusion | utilities.py:262 | `replace("1ZO9A", "1Z09A")` keeps the length and changes only `O`s, into `0`s |
| Tracking.FixOcrKeepsWord | utilities.py:262 | the fix keeps a word-character reading a word-character reading |
| Tracking.FixOcrWithoutO | utilities.py:262 | a reading with no `O` is left unchanged |
| Tracking.FixOcrPrefix | utilities.py:262 | a UPS number misread as `1ZO9A…` is corrected to `1Z09A…` |
| Tracking.UspsRun | utilities.py:251 | `(\s*\d){22}` anchored at i: a match is non-empty and lies inside the text |
| Tracking.UspsLabelEnd | utilities.py:251 | the `USPS[\s]{0,2}TRACKING[\s]{0,2}#` label spans at least 13 characters |
| Tracking.UspsAt | utilities.py:251 | a USPS match ends after a run of 22 digits |
| Tracking.UspsParts | utilities.py:251 | a USPS match is the label, then the `.*` up to the last place after it where 22 digits begin, then that digit run |
| Tracking.UspsInnerRun | utilities.py:264-266 | the inner `re.search(r"(\s*\d){22}")` on the matched text always finds a run, so `m.start()` never fails |
| Tracking.UspsDigits | utilities.py:266-268 | the reading is the leftmost 22-digit run of the matched text, with whitespace removed: 22 digits |
| Tracking.TrkReading | utilities.py:254-256 | the TRK reading is the three groups with whitespace removed: 12 digits |
| Tracking.UpsReading | utilities.py:259-262 | the TRACKING reading is the six groups with whitespace removed, then OCR-fixed: 18 word characters |
| Tracking.UspsReading | utilities.py:265-268 | the USPS reading is the leftmost 22-digit run inside the USPS match, with whitespace removed: 22 digits |
| Tracking.ExtractTnum | utilities.py:241-273 | the reader fails only with the exception that carries the page text |
| Tracking.ExtractTnumTrk | utilities.py:253-257 | when the TRK pattern occurs, the result is the reading of its leftmost match, whatever else is on the page |
| Tracking.ExtractTnumUps | utilities.py:258-263 | when the TRK pattern occurs nowhere and the TRACKING pattern does, the result is the reading of the leftmost TRACKING match |
| Tracking.ExtractTnumUsps | utilities.py:264-269 | when neither occurs and the USPS pattern does, the result is the reading of the leftmost USPS match |
| Tracking.ExtractTnumNotFound | utilities.py:253-273 | the reader fails exactly when none of the three patterns occurs anywhere on the page |
| Tracking.ExtractTnumShape | utilities.py:253-269 | every reading is 12 digits, 18 word characters or 22 digits |
| Tracking.TrkRoundTrip | utilities.py:242-257 | a label printed `TRK# dddd dddd dddd` reads back as the 12 digits, whatever follows |
| Tracking.TrkAtOnPrinted | utilities.py:243 | on a printed `TRK# ` label, the TRK match starts its groups right after the label and ends after the 12 digits |
| Tracking.UpsAtOnPrinted | utilities.py:247 | on a printed `TRACKING #:` label, the groups are matched where they are printed |
| Tracking.UpsRoundTrip | utilities.py:245-263 | a label printed `TRACKING #: ` with the six groups reads back as their concatenation, OCR-fixed, when no TRK pattern occurs on the page |
| Tracking.UspsRoundTrip | utilities.py:249-269 | a label printed `USPS TRACKING # ` with its 22 digits reads back as those digits when no digit follows them; neither other pattern can occur on such a page |
| Tracking.GroupsEndDigit | utilities.py:243-247 | a sequence of groups whose last group is a digit run ends on a digit |
| Tracking.TrkAtEndsOnDigit | utilities.py:243 | every TRK match ends on a digit |
| Tracking.UpsAtEndsOnDigit | utilities.py:247 | every TRACKING match ends on a digit |
| Tracking.UspsLabelDigits | utilities.py:249-251 | on a printed USPS label with a digit-free tail, the only digits are the 22 printed ones |
| Tracking.NoTrkLiteral | utilities.py:243 | before the end of the printed digits, `TRK` does not occur on a printed USPS label |
| Tracking.NoUpsLabel | utilities.py:247 | before the end of the printed digits, the TRACKING label `TRACKING[\s]{0,2}#:` does not occur: the printed `TRACKING` is followed by ` # ` |
| Tracking.NoTrkOnUspsLabel | utilities.py:243 | the TRK pattern occurs nowhere on a printed USPS label with a digit-free tail |
| Tracking.NoUpsOnUspsLabel | utilities.py:247 | the TRACKING pattern occurs nowhere on a printed USPS label with a digit-free tail |
| Tracking.UspsAtOnPrinted | utilities.py:251 | on a printed USPS label the match runs from the label to the end of the 22 digits |
| Tracking.UspsLabelOnPrinted | utilities.py:251 | on a literal `USPS TRACKING # ` the label ends at the `#` |
| Tracking.UspsLastRun | utilities.py:251 | behind the printed label, `.*` backtracks to the start of the 22 digits, the last place a 22-digit run begins |
| Tracking.UspsHeaderRun | utilities.py:266 | the inner search on the matched text starts at the space in front of the digits and ends after them |
| Tracking.UspsReadingOnPrinted | utilities.py:265-268 | the reading of the printed label's match is its 22 digits |
| Dicts.Keys | utilities.py:159 | `d.keys()` lists the keys in insertion order |
| Dicts.Get | utilities.py:163 | `d[k]`; `Dicts.GetMeaning` states what it finds |
| Dicts.GetMeaning | utilities.py:163 | `d[k]` is missing exactly when no entry has key k, and otherwise is the value of an entry with key k |
| Dicts.GetAt | utilities.py:205 | with distinct keys, looking up an entry's key gives that entry's value |
| Dicts.GetCons | utilities.py:163 | looking up in a dict with a new first entry |
| Dicts.GetSnoc | utilities.py:206 | a later entry never hides an earlier one with the same key |
| Dicts.Put | utilities.py:166 | `d[k] = v` appends a new key and overwrites an existing one in place; afterwards `d[k]` is v |
| Dicts.PutInPlace | utilities.py:166 | overwriting keeps every key at its position |
| Dicts.GetPut | utilities.py:235-236 | after `d[p] = v`, `d[k]` is v for k = p and unchanged otherwise |
| Dicts.Pop | utilities.py:227 | `d.pop(k)` raises a KeyError exactly when k is absent; otherwise it returns `d[k]` and removes k |
| Dicts.Without | utilities.py:227 | the dict without key k is never longer; `Dicts.WithoutMeaning` and `Dicts.WithoutKeeps` state what it keeps |
| Dicts.WithoutMeaning | utilities.py:227 | after removal no entry has key k; removing an absent key changes nothing |
| Dicts.WithoutKeeps | utilities.py:227 | removal keeps exactly the entries with another key |
| Dicts.WithoutDistinct | utilities.py:227 | removal keeps the keys distinct |
| Dicts.Insert | utilities.py:303 | inserting into an ascending list keeps it ascending and adds exactly that element |
| Dicts.Sort | utilities.py:303 | `sorted` returns an ascending permutation of its input |
| Dicts.SortedKeys | utilities.py:303 | `sorted(d.keys())` is an ascending permutation of the keys |
| Dicts.SortedPageNumbers | utilities.py:303 | for a dict of the pages 1..n (the rasteriser's numbering), the sorted keys are 1, 2, …, n |
| Labels.SortedKeyPresent | utilities.py:303-307 | every sorted key can be looked up in the dict |
| Labels.TextsOf | utilities.py:306-308 | one OCR text per listed key, in the listed order |
| Labels.PageTexts | utilities.py:297-310 | one text per page: as many texts as the dict has pages |
| Labels.PageTextsAt | utilities.py:303-308 | text j is the OCR of the page with the j-th smallest number |
| Labels.PageTextsNumbered | utilities.py:303-308 | for pages 1..n, the text at list index j is that of page j + 1, the correspondence line 233 relies on |
| Labels.AllPagesText | utilities.py:297-310 | the loop returns the texts sorted on page number |
| Labels.Filter | utilities.py:289-294 | the kept elements, in order: never more than the input; `Labels.FilterMembers` states which |
| Labels.FilterMembers | utilities.py:289-294 | the filter keeps exactly the elements the test accepts |
| Labels.FilterAppend | utilities.py:289-294 | the filter distributes over concatenation, so it keeps the order of its input |
| Labels.OidPages | utilities.py:286-294 | the index pages, never more than the pages; `Labels.OidPagesMembers` states which |
| Labels.OidPagesMembers | utilities.py:276-294 | a page is an index page exactly when it is among the pages and the order-id pattern occurs on it |
| Labels.OidPagesAppend | utilities.py:290-293 | the index pages of two runs of pages are those of each run, in order |
| Labels.TrailingOidPages | utilities.py:282-283 | when the index pages are exactly the last ones, as the labels PDF lays them out, they are that tail |
| Labels.ExtractOidPages | utilities.py:276-294 | the loop returns the index pages in page order |
| Labels.FlatMap | utilities.py:320-326 | the lists of each element concatenated in order; `Labels.FlatMapAppend` states that it distributes over concatenation |
| Labels.OidsOfPage | utilities.py:322-326 | the ids listed on one index page; `OrderId.PageOids` states their form |
| Labels.OidsOfPages | utilities.py:313-328 | the ids of every index page, page by page; `Labels.OidsOfPagesAppend` and `Labels.OidsOfPagesShape` state what they are |
| Labels.OidsOfPagesAppend | utilities.py:320-326 | the ids of two runs of index pages are those of each run, in order |
| Labels.OidsOfPagesShape | utilities.py:320-326 | every id read off the index pages has no space and is canonical once whitespace is removed |
| Labels.ExtractOids | utilities.py:313-328 | the nested loop returns every match of every index page, page by page, spaces removed |
| Labels.AppendPageOids | utilities.py:322-326 | the inner loop appends one id per match |
| Labels.OutsideGet | utilities.py:227 | popping a range of keys leaves every other key's value as it was |
| Labels.PopDown | utilities.py:225-228 | the pop loop on a dict value: `Labels.PopDownPresent`, `Labels.PopDownMissing` and `Labels.PopDownAll` state what it leaves |
| Labels.OutsideMissing | utilities.py:227 | popping a range of keys leaves none of them behind |
| Labels.PopDownPresent | utilities.py:226-227 | popping the top page, when present, is one step of the loop |
| Labels.PopDownMissing | utilities.py:227 | popping an absent page stops the loop with a KeyError and leaves the dict as it was |
| Labels.PopDownAll | utilities.py:225-228 | when the last `count` pages are present, the loop removes exactly those pages and nothing else |
| Labels.PyIndex | utilities.py:233-235 | `xs[i]` succeeds exactly for -\|xs\| ≤ i < \|xs\|, a negative index counting from the end; otherwise it is an IndexError |
| Labels.PageDict.constructor | utilities.py:211 | the caller's page dict, as passed in |
| Labels.PageDict.Pop | utilities.py:227 | `pop` in place: raises and changes nothing exactly when the key is absent; otherwise returns the value and removes the key |
| Labels.RemoveIndexPages | utilities.py:225-228 | the loop pops pages n, n-1, … off the caller's dict, and the same number of texts off the list, stopping at the first missing page |
| Labels.LabelTablesAbort | utilities.py:232-236 | an exception on an earlier label page is the exception of the whole loop |
| Labels.PairLabels | utilities.py:230-236 | the loop over the remaining pages builds both tables, or fails with the first page's error |
| Labels.LabelTables | utilities.py:230-236 | the loop over the remaining pages on dict values; `Labels.LabelTablesTable` states what the tables hold |
| Labels.LabelTablesLast | utilities.py:232-236 | the last page p adds `oids[p-1]` and the reading of `all_pages[p-1]` under its own page number |
| Labels.LabelTablesTable | utilities.py:232-236 | after a successful loop, every remaining page p maps to `oids[p-1]` in the first table and to the reading of `all_pages[p-1]` in the second |
| Labels.LabelTablesKeys | utilities.py:230-236 | every page in the order-id table is in the tracking-number table and in the remaining page dict |
| Labels.OidsAndTnums | utilities.py:211-238 | the whole function, for a given tracking-number reader: the caller's dict is left as `Labels.SlTables` says (pages 1..n-k on success), and both tables are returned or the first exception |
| Labels.SlTablesDone | utilities.py:220-238 | the four steps of the function (texts, index pages, pop loop, pairing loop) put together give `Labels.SlTables` |
| Labels.SlTables | utilities.py:220-238 | the whole function on dict values; `Labels.SlTablesLeft` and `Labels.SlTablesValues` state what it leaves and returns |
| Labels.PageNumberPresent | utilities.py:225-227 | every page 1..n of the rasteriser's numbering is in the dict |
| Labels.SlTablesLeft | utilities.py:220-236 | for pages 1..n with k index pages, the dict left behind is the pages 1..n-k, and the tables are read from it, from the first n-k texts and from the listed ids; it returns those texts and n-k |
| Labels.PopDownNumbered | utilities.py:225-227 | on pages 1..n the pop loop finds every key it pops and leaves the pages 1..n-k |
| Labels.SlTablesPopped | utilities.py:220-236 | once the last k pages are popped, the tables are read from what is left, the first n-k texts and the listed ids |
| Labels.LeftPageValues | utilities.py:230-236 | a page left after popping the top pages is one of the first ones, maps to its list's order id and to the reading of its own text |
| Labels.SlTablesValues | utilities.py:211-238 | for pages 1..n, every page p left behind gets `oids[p-1]` and the reading of its own OCR text, the headline promise of the function |
| Labels.SlTablesTexts | utilities.py:230-236 | the same promise with the tracking number stated on the (p-1)-th text of the page list |
| Labels.SlTablesKeys | utilities.py:220-238 | after a successful call, every order-id page has a tracking number and a path in the shrunken dict |
| Orders.PsPageOid | utilities.py:178-192 | `extract_oid_from_ps_img` as OCR followed by `Order ID:` reading; `OrderId.ExtractPsOid` states what it yields |
| Orders.PsOids | utilities.py:203-206 | a failure is the reading error of some PS page |
| Orders.PsOidsAbort | utilities.py:204-206 | a failure on an earlier page is the failure of the whole loop |
| Orders.PsOidsComplete | utilities.py:204-206 | the loop succeeds exactly when every PS page's order id can be read |
| Orders.PsOidsTable | utilities.py:203-208 | with distinct page numbers, the table has one entry per PS page, in order, holding that page's reading |
| Orders.OidsFromPsPages | utilities.py:195-208 | the loop computes that table |
| Orders.FirstKey | utilities.py:143-148 | `k_from_v` fails only with the `ValueError` |
| Orders.FirstKeyMeaning | utilities.py:143-148 | it fails exactly when no entry has the value; otherwise it returns the key of the first entry that has it |
| Orders.KFromV | utilities.py:143-148 | the early-return loop computes that key |
| Orders.Join | utilities.py:161-171 | the matching loop on dict values; `Orders.JoinRecords` and `Orders.JoinFailsOnlyForMissingLabel` state what it yields |
| Orders.JoinAbort | utilities.py:162-171 | a failure on an earlier PS page is the failure of the whole loop |
| Orders.JoinStep | utilities.py:163-171 | on consistent tables each PS page fails only when no SL page carries its order id |
| Orders.JoinFailsOnlyForMissingLabel | utilities.py:162-171 | on consistent tables the join fails only with the `ValueError`, and succeeds exactly when every PS order id is on some label |
| Orders.JoinLast | utilities.py:162-171 | the last PS page adds the record of its first matching label page under its own number |
| Orders.JoinRecords | utilities.py:161-171 | a successful join has, for each PS page in order, the record of that page and of the first label page with its order id |
| Orders.MatchOrders | utilities.py:159-171 | the loop computes the join |
| Orders.GetOrdersInfo | utilities.py:126-175 | the whole function: the SL dict shrinks in place, and the orders or the first exception are returned |
| Orders.TablesConsistent | utilities.py:151-168 | the tables the two readers build agree with the dicts the join looks them up in |
| Orders.SlConsistent | utilities.py:165-168 | every SL order-id page has a tracking number and a path |
| Orders.PsConsistent | utilities.py:159-167 | every PS table key is a PS page, with that page's reading |
| Orders.OrdersInfo | utilities.py:151-175 | the whole function on dict values; `Orders.OrdersInfoRecords` and `Orders.OrdersInfoTracking` state what it yields |
| Orders.OrdersInfoIs | utilities.py:151-171 | once both tables are read, the result is the join over the shrunken SL dict |
| Orders.OrdersInfoFails | utilities.py:151-171 | once both tables are read, the function fails only with the `ValueError`, and succeeds exactly when every PS page's order id is on some label |
| Orders.PagesOnLabels | utilities.py:162-164 | that condition, in terms of the PS pages' texts |
| Orders.OrdersInfoRecords | utilities.py:151-175 | a successful result holds one record per PS page, in order: the page, its path and order id, and the path and tracking number of the first label page with that id |
| Orders.OrdersInfoTracking | utilities.py:151-175 | for SL pages 1..n, every order's tracking number is the reading of the OCR text of the SL page its path names, and that page is the first SL page carrying the order id |
| Paths.AppendSlash | utilities.py:359-368 | the path ends in `/` and is unchanged or gains exactly one `/`; an empty path raises an IndexError |
| Paths.AppendSlashKeeps | utilities.py:363-364 | a path already ending in `/` is unchanged |
| Paths.AppendSlashAdds | utilities.py:365-366 | otherwise exactly one `/` is added |
| Paths.AppendSlashIdempotent | utilities.py:359-368 | applying it twice is applying it once |
| Paths.Visible | utilities.py:376 | the non-hidden entries: exactly those not starting with a dot |
| Paths.DirLen | utilities.py:371-377 | the count is at most the number of entries |
| Paths.DirLenHidden | utilities.py:376-377 | the count is zero exactly when every entry is hidden |
| Paths.DirLenAdd | utilities.py:375-377 | a new visible entry adds one; a new hidden one adds nothing |
| Watcher.Trunc | amazon.py:97 | `int(x)` truncates toward zero |
| Watcher.Classify | amazon.py:92-116 | the branch `on_created` takes; `Watcher.PairWindow` states the window |
| Watcher.PairWindow | amazon.py:96-103 | with two files, the second pairs exactly when the truncated clock is at most 30 s after the first; otherwise the stale branch is taken |
| Watcher.StoredFractionIrrelevant | amazon.py:111 | storing the float time instead of `int(time.time())` never changes the next decision |
| Watcher.UnexpectedMessage | amazon.py:113-116 | the alert has the watched folder between its fixed lead-in and its fixed warning |
| Watcher.UnexpectedMessageNamesFolder | amazon.py:113-116 | different folders give different alerts, so the alert tells which folder to clear |
| Watcher.Globbed | amazon.py:105 | `glob.glob(folder + "*")`: the paths of the visible entries; `Watcher.ListedMeaning` states what `remove` finds among them |
| Watcher.Listed | amazon.py:105-106 | the entry `dir_items.remove` finds is visible and has the new file's path |
| Watcher.ListedMeaning | amazon.py:105-106 | it is found exactly when the new file's path is among the paths `glob` lists |
| Watcher.Emptied | utilities.py:331-338 | `empty_dir` removes every visible entry and keeps every hidden one |
| Watcher.EmptiedTwice | amazon.py:102 | emptying the folder a second time changes nothing, so the `empty_dir` at line 102 after the one at line 150 leaves the same folder |
| Watcher.KeepOnlyLeavesOne | amazon.py:105-108 | the stale branch leaves exactly one visible entry, the new file |
| Watcher.Values | amazon.py:132 | `orders_info.values()` in insertion order |
| Watcher.CombinedName | amazon.py:140 | the combined image's path: the slash-terminated directory, then the order id, then `.png` |
| Watcher.Pastes | amazon.py:132-137 | one paste per order |
| Watcher.Combines | amazon.py:139-141 | one combine per order |
| Watcher.Prints | amazon.py:145-147 | two prints per order |
| Watcher.JobActions | amazon.py:132-147 | the three loops' actions; `Watcher.JobActionsShape` states them one by one |
| Watcher.Prepared | amazon.py:123-125 | the three `empty_or_make_new` calls, on the split-PS, split-SL and combined-image directories in that order |
| Watcher.Outcome | amazon.py:130-150 | the job's actions once the orders are read, or the crash; `Watcher.Handler.RunOrders` and `Watcher.Handler.ProcessPsAndSl` are proved against it |
| Watcher.PairOrders | amazon.py:127-130 | `get_orders_info` on the two rasterised PDFs; `Orders.OrdersInfoRecords` states what it yields |
| Watcher.JobActionsShape | amazon.py:132-147 | for n orders there are 4n actions: order i is pasted at i and combined at n + i, under its order id; its combined image is printed on the label printer at 2n + 2i and its PS on the page printer at 2n + 2i + 1 |
| Watcher.JobActionsLayout | amazon.py:132-147 | with a directory ending in a slash, the job's actions are all the pastes, then all the combines, then all the prints |
| Watcher.PastesAt | amazon.py:132-137 | action i of the first loop pastes order i's id and tracking number on its PS |
| Watcher.CombinesAt | amazon.py:139-141 | action i of the second loop combines order i's PS and SL into `<dir><order id>.png` |
| Watcher.PrintsAt | amazon.py:145-147 | actions 2i and 2i + 1 of the third loop print order i's combined image, then its PS |
| Watcher.Handler.constructor | amazon.py:30-33 | both class attributes empty, and the four directories under the working directory |
| Watcher.Handler.EmptyDir | amazon.py:150 | the folder is emptied of visible entries; nothing else changes |
| Watcher.Handler.PasteAll | amazon.py:132-137 | the loop appends one paste per order, in order |
| Watcher.Handler.CombineAll | amazon.py:139-142 | the loop appends one combine per order and stores each combined path on its order; an empty directory raises on the first order |
| Watcher.Handler.PrintAll | amazon.py:145-147 | the loop prints, per order, the stored combined path, then the PS |
| Watcher.Handler.RunOrders | amazon.py:132-150 | the three loops, then the folder emptied, unless an exception escapes |
| Watcher.Handler.ProcessPsAndSl | amazon.py:119-153 | the three directories are prepared, both PDFs are rasterised and matched, and the job runs on the orders or crashes with the matching error; the folder is emptied only on completion |
| Watcher.Handler.FinishJob | amazon.py:127-150 | an exception out of `get_orders_info` ends the job with that exception and leaves the folder alone; otherwise the paste, combine and print loops run and the folder is emptied when they reach the end |
| Watcher.Handler.DiscardStale | amazon.py:103-111 | every listed entry but the new file is deleted, and the new file becomes the pending PS, timed with a second, untruncated clock reading; if it is not listed, `remove` raises |
| Watcher.Handler.DispatchPair | amazon.py:97-102 | the in-time branch: the pair job runs on the pending PS and the new file, and the folder is emptied when the job gets to its end |
| Watcher.Handler.AlertUnexpected | amazon.py:112-116 | the alert naming the watched folder is shown and nothing else changes |
| Watcher.Handler.OnCreated | amazon.py:87-116 | for each branch: one file arms the pending PS with the truncated time; two files in time dispatch the pair; two files too late discard the stale one and store the second clock reading; a second file with no pending time raises a TypeError; any other count shows the alert that names the watched folder; the attributes stay set together |

## Left out

- OCR (`image_to_string`, `str_from_img`) is a parameter `ocr` from image path to text. `pdf_to_images` is a parameter `raster` from a PDF and a directory to a page dict. Neither can be modelled without the libraries behind them.
- Barcode generation, `paste_barcodes_on_ps`, `combine_ps_and_sl` and the two printers are actions in the trace. The images and the printer commands are not modelled. The `for_real` flag is not modelled.
- `empty_or_make_new`, `os.remove`, `os.mkdir`, `os.listdir` and `glob`: the watched folder is a set of entry names. The other directories are only named in `PrepareDir` actions. The order in which `glob` lists and deletes files is not modelled.
- Clock, working directory and separator: `time.time()` is a real parameter. `now` is the reading the decision uses (line 94 or 97); `later` is the one the late branch stores (line 111). `os.getcwd()` is a parameter. `os.sep` is `/`.
- `display_alert` is the action `Alert` holding the message, `UnexpectedMessage` of the watched folder. The `osascript` call and the `blocking` flag are not modelled.
- Logging, `timestamp()`, the log-file redirection, `AmazonWatcher.start`, the watchdog observer thread and the keep-alive loop are left out. They are I/O and concurrency. Because the observer thread is left out, so is what an escaping exception does to it: watchdog's dispatcher lets the exception end the observer thread, and then no later event is handled. The model records the exception as a `Crash` action and still accepts further `Watcher.Handler.OnCreated` calls.
- `Watcher.Handler.OnCreated` evaluates `dir_len` once per event. The code calls it twice (lines 92 and 96). The folder can change between the two calls only through a concurrent writer, which the model does not have.
- `Watcher.Handler`: the class attributes `ps_pdf_path` and `ps_pdf_receive_time` are fields of one handler instance. The static methods are its methods.
- `Watcher.Handler.CombineAll`: line 142 stores `combined_ps_and_sl_path` into each order dict. The model returns these paths in the sequence `combined`, which `PrintAll` reads. It does not mutate an `OrderInfo` value.
- `Labels.SlTables`, `Labels.OidsAndTnums` and `Orders.OrdersInfo` take the tracking-number reader as a parameter `read`. `Orders.GetOrdersInfo` and the watcher pass `Tracking.ExtractTnum`. The lemmas about the join hold for every reader.
- Exception messages are not modelled beyond their kind. `TrackingNumberNotFound` carries the page text, not the framed message. The Python exception classes are the `Error` constructors.
- Python's `\d` and `\w` match Unicode characters as well. The model's `\s` is the whitespace `str.isspace` accepts, which is what Python's `\s` matches; its `\d` and `\w` are ASCII:
  - `\d` is `0`-`9`;
  - `\w` is letters, digits and `_`.
- `Tracking.UpsRoundTrip` is stated for pages on which no TRK pattern occurs. The code tries the TRK pattern first, so on other pages the TRK reading wins. `Tracking.ExtractTnumTrk`, `Tracking.ExtractTnumUps` and `Tracking.ExtractTnumUsps` state that order.
- `Tracking.UspsRoundTrip` is stated for pages on which no digit follows the 22 printed ones: a later digit run would move the end of the `.*` match to it.
- `Orders.OrdersInfoFails`, `Orders.OrdersInfoRecords` and `Orders.TablesConsistent` require distinct PS page numbers. Every Python dict has distinct keys; the entry sequence that models it does not by itself.
- `Dicts.SortedPageNumbers` and `Labels.PageTextsNumbered` require the page dict to hold the pages 1..n. This is `pdf_to_images`'s numbering, which line 233 relies on.
