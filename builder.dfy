/**
 * `get_all_stock_positions`: read the screener page by page, turn every row
 * into a snapshot entry keyed by company name, then upsert every entry into
 * the table. Fetching and HTML parsing are outside the model: page `p` of
 * the screener is given as the already parsed rows `pages[p - 1]`, and a page
 * past the end of `pages` is an empty page.
 */
module Builder {
  import opened Wrappers
  import opened Records
  import opened PyText
  import opened CompanyId
  import opened Store
  import PyDict

  /** The loop stops before using the page whose number reaches this value. */
  const PageCeiling: nat := 22

  const ChartUrlPrefix: string := "https://in.tradingview.com/chart/aeQ9eazg/?symbol="

  /** One screener row as read from the page: the rank cell text, the
      company link's text and target, the all-time high, the published decline
      from the 52-week high, and the decline from the all-time high the watcher
      computes from the current price (floating point, rounded to two places). */
  datatype RawRow = RawRow(
    rankText: string,
    nameText: string,
    href: string,
    allTimeHigh: real,
    down52High: real,
    percentDownHigh: real)

  /** The exceptions that abort a cycle while a row is read. */
  datatype Error =
    | ZeroAllTimeHigh(name: string)   // ZeroDivisionError in the percentage
    | RankNotInteger(text: string)   // ValueError from int()

  /** The chart link: the template filled with the company id, where Python
      formats a missing id as the text `None`. */
  function ChartUrl(id: Option<string>): string {
    ChartUrlPrefix + match id case Some(s) => s case None => "None"
  }

  /** The company name, `company_tag.text.strip()`. */
  function NameOf(raw: RawRow): string {
    Strip(raw.nameText)
  }

  /** The rank label, `text.strip().rstrip('.')`. */
  function RankLabel(raw: RawRow): string {
    TrimDots(Strip(raw.rankText))
  }

  /** One row to its name and entry, failing as the source does: the division
      by the all-time high comes before the conversion of the rank. */
  function ParseRow(raw: RawRow): Result<(string, Entry), Error> {
    if raw.allTimeHigh == 0.0 then Err(ZeroAllTimeHigh(NameOf(raw)))
    else match ParseInt(RankLabel(raw))
      case None => Err(RankNotInteger(RankLabel(raw)))
      case Some(position) =>
        Ok((NameOf(raw), Entry(position, raw.down52High, raw.percentDownHigh,
                               ChartUrl(ExtractCompanyId(raw.href)),
                               IsGem(raw.percentDownHigh, raw.down52High))))
  }

  /** Page `p` (numbered from 1), empty past the end of the input. */
  function PageAt(pages: seq<seq<RawRow>>, p: int): seq<RawRow> {
    if 1 <= p <= |pages| then pages[p - 1] else []
  }

  /** The number of the last page used when the loop reaches page `p`: the
      loop stops at the first empty page or at the ceiling, whichever comes first. */
  function LastUsedFrom(pages: seq<seq<RawRow>>, p: nat): nat
    requires 1 <= p <= PageCeiling
    decreases PageCeiling - p
  {
    if |PageAt(pages, p)| == 0 || p == PageCeiling then p - 1
    else LastUsedFrom(pages, p + 1)
  }

  /** The number of pages the builder uses: at most 21. */
  function UsedPageCount(pages: seq<seq<RawRow>>): nat {
    LastUsedFrom(pages, 1)
  }

  /** The rows of pages 1 to `k`, in page order. */
  function RowsUpTo(pages: seq<seq<RawRow>>, k: nat): seq<RawRow> {
    if k == 0 then [] else RowsUpTo(pages, k - 1) + PageAt(pages, k)
  }

  /** Every row of the pages the builder uses, in page order. */
  function UsedRows(pages: seq<seq<RawRow>>): seq<RawRow> {
    RowsUpTo(pages, UsedPageCount(pages))
  }

  /** The rows read one after the other; the first row that cannot be read
      ends the cycle with its error. */
  function ParseRows(rows: seq<RawRow>): Result<seq<(string, Entry)>, Error> {
    MapAll(rows, ParseRow)
  }

  /** How one row is turned into its name and entry. The page loop and its
      proofs are written for any such reader; the builder's is `ParseRow`. */
  type RowReader = RawRow -> Result<(string, Entry), Error>

  /** `d` after the rows have been read into it in order, or the error of
      the first row that cannot be read. */
  function ReadInto(parse: RowReader, d: Snapshot, rows: seq<RawRow>): Result<Snapshot, Error>
    requires PyDict.Valid(d)
  {
    match MapAll(rows, parse)
      case Err(e) => Err(e)
      case Ok(items) => Ok(PyDict.SetAll(d, items))
  }

  /** The used rows read into `{}`. */
  function CollectWith(parse: RowReader, pages: seq<seq<RawRow>>): Result<Snapshot, Error> {
    ReadInto(parse, PyDict.Empty(), UsedRows(pages))
  }

  /** The snapshot `get_all_stock_positions` returns. */
  function Collect(pages: seq<seq<RawRow>>): Result<Snapshot, Error> {
    CollectWith(ParseRow, pages)
  }

  /** The page loop has reached page `p` with `acc`: every earlier page was
      non-empty and `acc` is what their rows give. */
  ghost predicate PagesRead(parse: RowReader, pages: seq<seq<RawRow>>, p: nat, acc: Snapshot) {
    && 1 <= p <= PageCeiling
    && (forall q | 1 <= q < p :: |PageAt(pages, q)| > 0)
    && ReadInto(parse, PyDict.Empty(), RowsUpTo(pages, p - 1)) == Ok(acc)
  }

  /** The inner `for row in rows` loop of the builder: each row is read and
      its entry assigned to its name; a row that cannot be read raises. */
  method ReadRows(parse: RowReader, acc: Snapshot, rows: seq<RawRow>) returns (r: Result<Snapshot, Error>)
    requires PyDict.Valid(acc)
    ensures r == ReadInto(parse, acc, rows)
  {
    var d := acc;
    var j := 0;
    while j < |rows|
      invariant 0 <= j <= |rows|
      invariant ReadInto(parse, acc, rows[..j]) == Ok(d)
    {
      ReadIntoStep(parse, acc, rows, j);
      var parsed := parse(rows[j]);
      if parsed.Err? {
        ReadIntoFailFast(parse, acc, rows, j + 1);
        return Err(parsed.error);
      }
      d := PyDict.Set(d, parsed.value.0, parsed.value.1);
      j := j + 1;
    }
    assert rows[..j] == rows;
    r := Ok(d);
  }

  /** Reading one more row: its error, or its entry assigned to its name. */
  lemma ReadIntoStep(parse: RowReader, acc: Snapshot, rows: seq<RawRow>, j: nat)
    requires PyDict.Valid(acc)
    requires j < |rows|
    ensures ReadInto(parse, acc, rows[..j]).Ok? ==>
      && PyDict.Valid(ReadInto(parse, acc, rows[..j]).value)
      && ReadInto(parse, acc, rows[..j + 1]) ==
           match parse(rows[j])
             case Err(e) => Err(e)
             case Ok(p) => Ok(PyDict.Set(ReadInto(parse, acc, rows[..j]).value, p.0, p.1))
  {
    assert rows[..j + 1] == rows[..j] + [rows[j]];
    if MapAll(rows[..j], parse).Ok? {
      var items := MapAll(rows[..j], parse).value;
      if parse(rows[j]).Ok? {
        MapAllSnoc(rows[..j], rows[j], parse, items);
        PyDict.SetAllSnoc(acc, items, parse(rows[j]).value.0, parse(rows[j]).value.1);
      } else {
        MapAllSnocErr(rows[..j], rows[j], parse);
      }
    }
  }

  /** After a row that cannot be read, the rest of the rows are not read. */
  lemma ReadIntoFailFast(parse: RowReader, acc: Snapshot, rows: seq<RawRow>, j: nat)
    requires PyDict.Valid(acc)
    requires j <= |rows|
    requires ReadInto(parse, acc, rows[..j]).Err?
    ensures ReadInto(parse, acc, rows) == ReadInto(parse, acc, rows[..j])
  {
    MapAllErrorPersists(rows[..j], rows, parse);
  }

  /** `get_all_stock_positions()`: build the snapshot from the pages, then
      upsert each of its entries in order. A row that fails aborts the cycle
      before anything is written. */
  method GetAllStockPositions(table: Table, pages: seq<seq<RawRow>>) returns (r: Result<Snapshot, Error>)
    modifies table
    ensures r == Collect(pages)
    ensures r.Ok? ==> PyDict.Valid(r.value)
    ensures r.Ok? ==> table.rows == UpsertAll(old(table.rows), r.value, r.value.keys)
    ensures r.Err? ==> table.rows == old(table.rows)
  {
    r := ReadPages(ParseRow, pages);
    if r.Ok? {
      UpsertEntries(table, r.value);
    }
  }

  /** The page loop of the builder: pages 1, 2, ... until an empty page or
      page 22, every row of each page read into one dict. */
  method ReadPages(parse: RowReader, pages: seq<seq<RawRow>>) returns (r: Result<Snapshot, Error>)
    ensures r == CollectWith(parse, pages)
  {
    var pageNum := 1;
    var acc: Snapshot := PyDict.Empty();
    PageLoopStart(parse, pages);
    while true
      invariant PagesRead(parse, pages, pageNum, acc)
      decreases PageCeiling - pageNum
    {
      var rows := PageAt(pages, pageNum);
      if |rows| == 0 || pageNum == PageCeiling {
        break;
      }
      var read := ReadPage(parse, pages, pageNum, acc);
      if read.Err? {
        return read;
      }
      acc := read.value;
      pageNum := pageNum + 1;
    }
    PageLoopEnd(parse, pages, pageNum, acc);
    r := Ok(acc);
  }

  /** One turn of the page loop: the rows of page `p` read into `acc`. */
  method ReadPage(parse: RowReader, pages: seq<seq<RawRow>>, p: nat, acc: Snapshot) returns (r: Result<Snapshot, Error>)
    requires PagesRead(parse, pages, p, acc)
    requires |PageAt(pages, p)| > 0 && p < PageCeiling
    ensures r.Err? ==> r == CollectWith(parse, pages)
    ensures r.Ok? ==> PagesRead(parse, pages, p + 1, r.value)
  {
    PageLoopNext(parse, pages, p, acc);
    r := ReadRows(parse, acc, PageAt(pages, p));
  }

  /** The closing loop of the builder: `INSERT OR REPLACE` for every entry of
      the snapshot, in its key order. */
  method UpsertEntries(table: Table, snap: Snapshot)
    requires PyDict.Valid(snap)
    modifies table
    ensures table.rows == UpsertAll(old(table.rows), snap, snap.keys)
  {
    var i := 0;
    while i < |snap.keys|
      invariant 0 <= i <= |snap.keys|
      invariant table.rows == UpsertAll(old(table.rows), snap, snap.keys[..i])
    {
      var name := snap.keys[i];
      UpsertAllStep(old(table.rows), snap, snap.keys, i);
      table.InsertOrReplace(name, snap.vals[name]);
      i := i + 1;
    }
    assert snap.keys[..i] == snap.keys;
  }

  /** Reading two runs of rows is reading the first and, if that succeeds,
      the second into its result. */
  lemma ReadIntoAppend(parse: RowReader, d: Snapshot, xs: seq<RawRow>, ys: seq<RawRow>)
    requires PyDict.Valid(d)
    ensures ReadInto(parse, d, xs + ys) ==
      match ReadInto(parse, d, xs) case Err(e) => Err(e) case Ok(d') => ReadInto(parse, d', ys)
  {
    MapAllAppend(xs, ys, parse);
    if MapAll(xs, parse).Ok? && MapAll(ys, parse).Ok? {
      PyDict.SetAllAppend(d, MapAll(xs, parse).value, MapAll(ys, parse).value);
    }
  }

  // ---- pagination ----

  /** Reading page `p` continues from the dict the earlier pages produced. */
  lemma ReadPageStep(parse: RowReader, pages: seq<seq<RawRow>>, p: nat, acc: Snapshot)
    requires 1 <= p
    requires ReadInto(parse, PyDict.Empty(), RowsUpTo(pages, p - 1)) == Ok(acc)
    ensures PyDict.Valid(acc)
    ensures ReadInto(parse, PyDict.Empty(), RowsUpTo(pages, p)) == ReadInto(parse, acc, PageAt(pages, p))
  {
    ReadIntoAppend(parse, PyDict.Empty(), RowsUpTo(pages, p - 1), PageAt(pages, p));
  }

  /** From page `p` on, the loop goes on through the non-empty pages and
      stops at the first empty one or at the ceiling. */
  lemma {:induction false} LastUsedFromSpec(pages: seq<seq<RawRow>>, p: nat)
    requires 1 <= p <= PageCeiling
    ensures p - 1 <= LastUsedFrom(pages, p) < PageCeiling
    ensures forall q | p <= q <= LastUsedFrom(pages, p) :: |PageAt(pages, q)| > 0
    ensures LastUsedFrom(pages, p) + 1 < PageCeiling ==> |PageAt(pages, LastUsedFrom(pages, p) + 1)| == 0
    decreases PageCeiling - p
  {
    if |PageAt(pages, p)| > 0 && p != PageCeiling {
      LastUsedFromSpec(pages, p + 1);
    }
  }

  /** The builder uses pages 1, 2, ... up to the last one before the first
      empty page, and never page 22 or beyond. */
  lemma UsedPagesSpec(pages: seq<seq<RawRow>>)
    ensures UsedPageCount(pages) < PageCeiling
    ensures forall p | 1 <= p <= UsedPageCount(pages) :: |PageAt(pages, p)| > 0
    ensures UsedPageCount(pages) + 1 < PageCeiling ==> |PageAt(pages, UsedPageCount(pages) + 1)| == 0
  {
    LastUsedFromSpec(pages, 1);
  }

  /** When every page up to `p` is non-empty and `p` is below the ceiling,
      page `p` is used. */
  lemma UsedPagesReach(pages: seq<seq<RawRow>>, p: nat)
    requires 1 <= p < PageCeiling
    requires forall q | 1 <= q <= p :: |PageAt(pages, q)| > 0
    ensures p <= UsedPageCount(pages)
  {
    UsedPagesSpec(pages);
  }

  /** Where the loop breaks, it has used exactly the pages before `p`. */
  lemma UsedPagesEnd(pages: seq<seq<RawRow>>, p: nat)
    requires 1 <= p <= PageCeiling
    requires forall q | 1 <= q < p :: |PageAt(pages, q)| > 0
    requires |PageAt(pages, p)| == 0 || p == PageCeiling
    ensures UsedPageCount(pages) == p - 1
  {
    UsedPagesSpec(pages);
  }

  /** A cycle that fails while reading page `p` fails with that error. */
  lemma CollectFailsAt(parse: RowReader, pages: seq<seq<RawRow>>, p: nat)
    requires 1 <= p < PageCeiling
    requires forall q | 1 <= q <= p :: |PageAt(pages, q)| > 0
    requires ReadInto(parse, PyDict.Empty(), RowsUpTo(pages, p)).Err?
    ensures CollectWith(parse, pages) == ReadInto(parse, PyDict.Empty(), RowsUpTo(pages, p))
  {
    UsedPagesReach(pages, p);
    RowsUpToPrefix(pages, p, UsedPageCount(pages));
    MapAllErrorPersists(RowsUpTo(pages, p), UsedRows(pages), parse);
  }

  /** A cycle whose loop breaks at page `p` has read the pages before it. */
  lemma CollectEndsAt(pages: seq<seq<RawRow>>, p: nat)
    requires 1 <= p <= PageCeiling
    requires forall q | 1 <= q < p :: |PageAt(pages, q)| > 0
    requires |PageAt(pages, p)| == 0 || p == PageCeiling
    ensures UsedRows(pages) == RowsUpTo(pages, p - 1)
  {
    UsedPagesEnd(pages, p);
  }

  /** The loop starts at page 1 with `{}`. */
  lemma PageLoopStart(parse: RowReader, pages: seq<seq<RawRow>>)
    ensures PagesRead(parse, pages, 1, PyDict.Empty())
  {
    assert RowsUpTo(pages, 0) == [];
  }

  /** One more non-empty page extends the run of non-empty pages. */
  lemma PagesNonEmptyNext(pages: seq<seq<RawRow>>, p: nat)
    requires forall q | 1 <= q < p :: |PageAt(pages, q)| > 0
    requires |PageAt(pages, p)| > 0
    ensures forall q | 1 <= q < p + 1 :: |PageAt(pages, q)| > 0
  {
  }

  /** Reading a non-empty page below the ceiling either fails with the
      error of the whole cycle or brings the loop to the next page. */
  lemma PageLoopNext(parse: RowReader, pages: seq<seq<RawRow>>, p: nat, acc: Snapshot)
    requires PagesRead(parse, pages, p, acc)
    requires |PageAt(pages, p)| > 0 && p < PageCeiling
    ensures PyDict.Valid(acc)
    ensures ReadInto(parse, acc, PageAt(pages, p)).Err? ==>
      ReadInto(parse, acc, PageAt(pages, p)) == CollectWith(parse, pages)
    ensures ReadInto(parse, acc, PageAt(pages, p)).Ok? ==>
      PagesRead(parse, pages, p + 1, ReadInto(parse, acc, PageAt(pages, p)).value)
  {
    ReadPageStep(parse, pages, p, acc);
    var next := ReadInto(parse, acc, PageAt(pages, p));
    if next.Err? {
      CollectFailsAt(parse, pages, p);
    } else {
      PagesNonEmptyNext(pages, p);
    }
  }

  /** Where the loop breaks, the dict it holds is the cycle's snapshot. */
  lemma PageLoopEnd(parse: RowReader, pages: seq<seq<RawRow>>, p: nat, acc: Snapshot)
    requires PagesRead(parse, pages, p, acc)
    requires |PageAt(pages, p)| == 0 || p == PageCeiling
    ensures PyDict.Valid(acc)
    ensures CollectWith(parse, pages) == Ok(acc)
  {
    ReadPageStep(parse, pages, p, acc);
    CollectEndsAt(pages, p);
  }

  /** The rows of the first `k` pages come first among those of the first `m`. */
  lemma {:induction false} RowsUpToPrefix(pages: seq<seq<RawRow>>, k: nat, m: nat)
    requires k <= m
    ensures RowsUpTo(pages, k) <= RowsUpTo(pages, m)
    decreases m
  {
    if k < m {
      RowsUpToPrefix(pages, k, m - 1);
    }
  }

  // ---- the rows, one after the other ----

  /** A row that can be read gives the stripped name and an entry whose gem
      flag is the classifier's verdict on the row's two declines. */
  lemma ParseRowSpec(raw: RawRow)
    ensures ParseRow(raw).Ok? <==> raw.allTimeHigh != 0.0 && ParseInt(RankLabel(raw)).Some?
    ensures raw.allTimeHigh == 0.0 ==> ParseRow(raw) == Err(ZeroAllTimeHigh(NameOf(raw)))
    ensures raw.allTimeHigh != 0.0 && ParseInt(RankLabel(raw)).None? ==>
      ParseRow(raw) == Err(RankNotInteger(RankLabel(raw)))
    ensures ParseRow(raw).Ok? ==>
      var (name, e) := ParseRow(raw).value;
      && name == NameOf(raw)
      && e.position == ParseInt(RankLabel(raw)).value
      && e.gem == IsGem(e.percentDownHigh, e.down52High)
      && e.down52High == raw.down52High && e.percentDownHigh == raw.percentDownHigh
      && e.companyUrl == ChartUrl(ExtractCompanyId(raw.href))
  {
  }

  /** A row whose rank cell reads `str(n)` followed by any full stops, with
      any whitespace around, and whose all-time high is not zero, is read
      with position `n`. */
  lemma ParseRowRank(raw: RawRow, n: int, pre: string, dots: string, post: string)
    requires raw.rankText == pre + Decimal(n) + dots + post
    requires AllSpace(pre) && AllDots(dots) && AllSpace(post)
    requires raw.allTimeHigh != 0.0
    ensures ParseRow(raw).Ok? && ParseRow(raw).value.1.position == n
  {
    RankLabelPadded(n, pre, dots, post);
  }

  /** A screener link `/company/<id>/...` becomes the chart link for `<id>`. */
  lemma ChartUrlOfCompanyLink(id: string, rest: string)
    requires |id| > 0 && SlashFree(id)
    ensures ChartUrl(ExtractCompanyId("/company/" + id + "/" + rest)) == ChartUrlPrefix + id
  {
    var url := "/company/" + id + "/" + rest;
    assert url[0..|id| + 10] == Marker + id + "/";
    ExtractFindsLeftmost(url, 0, id);
  }

  /** Every entry carries the classifier's verdict on its own two declines. */
  ghost predicate Classified(s: Snapshot) {
    forall n | n in s.vals :: s.vals[n].gem == IsGem(s.vals[n].percentDownHigh, s.vals[n].down52High)
  }

  /** Reading rows into an empty dict succeeds exactly when every row can be read. */
  lemma AddRowsOutcome(rows: seq<RawRow>)
    ensures ReadInto(ParseRow, PyDict.Empty(), rows).Ok? <==> forall i | 0 <= i < |rows| :: ParseRow(rows[i]).Ok?
  {
    MapAllOutcome(rows, ParseRow);
  }

  /** The item read from row `i` is that row's stripped name and its entry. */
  lemma ItemsOfRows(rows: seq<RawRow>)
    requires ParseRows(rows).Ok?
    ensures forall i | 0 <= i < |rows| ::
      && ParseRow(rows[i]).Ok?
      && ParseRows(rows).value[i] == ParseRow(rows[i]).value
      && ParseRows(rows).value[i].0 == NameOf(rows[i])
  {
    MapAllOutcome(rows, ParseRow);
    forall i | 0 <= i < |rows| ensures ParseRow(rows[i]).Ok? ==> ParseRow(rows[i]).value.0 == NameOf(rows[i]) {
      ParseRowSpec(rows[i]);
    }
  }

  /** The names read are exactly the stripped names of the rows. */
  lemma AddRowsNames(rows: seq<RawRow>, n: string)
    requires ReadInto(ParseRow, PyDict.Empty(), rows).Ok?
    ensures n in ReadInto(ParseRow, PyDict.Empty(), rows).value.vals <==> exists i | 0 <= i < |rows| :: NameOf(rows[i]) == n
  {
    var items := ParseRows(rows).value;
    ItemsOfRows(rows);
    PyDict.SetAllKeys(PyDict.Empty(), items);
    PyDict.ItemKeysSpec(items, n);
  }

  /** A name holds the entry of the last row that carries it. */
  lemma AddRowsLastWins(rows: seq<RawRow>, i: nat)
    requires ReadInto(ParseRow, PyDict.Empty(), rows).Ok?
    requires i < |rows|
    requires forall j | i < j < |rows| :: NameOf(rows[j]) != NameOf(rows[i])
    ensures ParseRow(rows[i]).Ok?
    ensures NameOf(rows[i]) in ReadInto(ParseRow, PyDict.Empty(), rows).value.vals
    ensures ReadInto(ParseRow, PyDict.Empty(), rows).value.vals[NameOf(rows[i])] == ParseRow(rows[i]).value.1
  {
    var items := ParseRows(rows).value;
    ItemsOfRows(rows);
    PyDict.SetAllLastWins(PyDict.Empty(), items, i);
  }

  /** Every entry read carries the classifier's verdict on its own declines. */
  lemma AddRowsClassified(rows: seq<RawRow>)
    requires ReadInto(ParseRow, PyDict.Empty(), rows).Ok?
    ensures Classified(ReadInto(ParseRow, PyDict.Empty(), rows).value)
  {
    var snap := ReadInto(ParseRow, PyDict.Empty(), rows).value;
    forall n | n in snap.vals
      ensures snap.vals[n].gem == IsGem(snap.vals[n].percentDownHigh, snap.vals[n].down52High)
    {
      AddRowsNames(rows, n);
      var i :| 0 <= i < |rows| && NameOf(rows[i]) == n;
      var k := LastWith(rows, i);
      AddRowsLastWins(rows, k);
      ParseRowSpec(rows[k]);
    }
  }

  /** What `get_all_stock_positions` returns. It succeeds exactly when every
      used row can be read. Its names are those of the used rows; each holds
      the entry of the LAST row carrying it; each gem flag is the classifier's. */
  lemma CollectSpec(pages: seq<seq<RawRow>>)
    ensures Collect(pages).Ok? <==> forall i | 0 <= i < |UsedRows(pages)| :: ParseRow(UsedRows(pages)[i]).Ok?
    ensures Collect(pages).Ok? ==>
      var rows := UsedRows(pages);
      var snap := Collect(pages).value;
      && (forall n :: n in snap.vals <==> exists i | 0 <= i < |rows| :: NameOf(rows[i]) == n)
      && (forall i | 0 <= i < |rows| && (forall j | i < j < |rows| :: NameOf(rows[j]) != NameOf(rows[i])) ::
            snap.vals[NameOf(rows[i])] == ParseRow(rows[i]).value.1)
      && Classified(snap)
  {
    var rows := UsedRows(pages);
    AddRowsOutcome(rows);
    if Collect(pages).Ok? {
      forall n ensures n in Collect(pages).value.vals <==> exists i | 0 <= i < |rows| :: NameOf(rows[i]) == n {
        AddRowsNames(rows, n);
      }
      forall i | 0 <= i < |rows| && (forall j | i < j < |rows| :: NameOf(rows[j]) != NameOf(rows[i]))
        ensures Collect(pages).value.vals[NameOf(rows[i])] == ParseRow(rows[i]).value.1
      {
        AddRowsLastWins(rows, i);
      }
      AddRowsClassified(rows);
    }
  }

  /** The last row carrying the same name as row `i`. */
  lemma {:induction false} LastWith(rows: seq<RawRow>, i: nat) returns (k: nat)
    requires i < |rows|
    ensures i <= k < |rows| && NameOf(rows[k]) == NameOf(rows[i])
    ensures forall j | k < j < |rows| :: NameOf(rows[j]) != NameOf(rows[k])
    decreases |rows| - i
  {
    if j :| i < j < |rows| && NameOf(rows[j]) == NameOf(rows[i]) {
      k := LastWith(rows, j);
    } else {
      k := i;
    }
  }
}
