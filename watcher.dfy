/**
 * The watcher's main loop: one snapshot is taken at start-up, then every
 * hour a fresh one is taken and compared with the one kept. One turn of the
 * loop is modelled; the hour's sleep between turns is not.
 */
module Watcher {
  import opened Wrappers
  import opened Records
  import opened Store
  import opened Builder
  import opened Detector
  import PyDict

  /** What one turn of the loop produces: the promotion it reports, the gem
      log lines written, the chart link opened in the browser, and the
      snapshot kept for the next turn. */
  datatype Turn = Turn(event: Option<Event>, gems: seq<GemNote>, chart: Option<string>, next: Snapshot)

  /** `if company:` is Python truthiness: a report whose company name is the
      empty string counts as no report. */
  predicate Reported(ev: Option<Event>) {
    ev.Some? && ev.value.name != ""
  }

  /** The snapshot kept for the next turn: replaced by the current one only
      when a promotion was reported. */
  function NextPrevious(prev: Snapshot, cur: Snapshot, ev: Option<Event>): Snapshot {
    if Reported(ev) then cur else prev
  }

  /** The link the browser is pointed at: the reported company's chart. */
  function OpenedLink(ev: Option<Event>): Option<string> {
    if Reported(ev) then Some(ev.value.after.companyUrl) else None
  }

  /** One turn of `while True:` — build the current snapshot, compare it
      with the kept one, react to a report. An exception while building
      ends the program, which is the `Err` outcome here. */
  method RunTurn(table: Table, previous: Snapshot, pages: seq<seq<RawRow>>) returns (r: Result<Turn, Error>)
    modifies table
    ensures r.Ok? <==> Collect(pages).Ok?
    ensures r.Err? ==> r.error == Collect(pages).error && table.rows == old(table.rows)
    ensures r.Ok? ==>
      var cur := Collect(pages).value;
      && PyDict.Valid(cur)
      && r.value.event == Detect(previous, cur)
      && r.value.gems == GemLog(previous, cur, Visited(previous, cur))
      && r.value.chart == OpenedLink(Detect(previous, cur))
      && r.value.next == NextPrevious(previous, cur, Detect(previous, cur))
      && table.rows == ApplyUpdates(UpsertAll(old(table.rows), cur, cur.keys), previous, cur, Visited(previous, cur))
  {
    var current := GetAllStockPositions(table, pages);
    if current.Err? {
      return Err(current.error);
    }
    var cur := current.value;
    var ev, gems := CheckForPositionChange(table, previous, cur);
    var next := previous;
    var chart := None;
    if ev.Some? && ev.value.name != "" {
      chart := Some(ev.value.after.companyUrl);
      next := cur;
    }
    r := Ok(Turn(ev, gems, chart, next));
  }

  /** A turn that reports nothing keeps the old snapshot, so a company that
      climbs one place per hour is compared against its old rank each hour
      until the accumulated climb passes the rule. */
  lemma QuietTurnKeepsSnapshot(prev: Snapshot, cur: Snapshot)
    requires PyDict.Valid(cur)
    requires forall k | 0 <= k < |cur.keys| :: !Qualifies(prev, cur, cur.keys[k])
    ensures NextPrevious(prev, cur, Detect(prev, cur)) == prev
    ensures OpenedLink(Detect(prev, cur)) == None
  {
    DetectSpec(prev, cur);
  }

  /** A turn that reports a named company replaces the kept snapshot with
      the current one and opens that company's chart. */
  lemma ReportRotates(prev: Snapshot, cur: Snapshot, k: nat)
    requires PyDict.Valid(cur)
    requires k < |cur.keys| && cur.keys[k] != ""
    requires Qualifies(prev, cur, cur.keys[k])
    requires forall m | 0 <= m < k :: !Qualifies(prev, cur, cur.keys[m])
    ensures NextPrevious(prev, cur, Detect(prev, cur)) == cur
    ensures OpenedLink(Detect(prev, cur)) == Some(cur.vals[cur.keys[k]].companyUrl)
  {
    DetectFindsFirst(prev, cur, k);
  }

  /** A report for a company whose name is empty is dropped by the
      truthiness test: the kept snapshot stays and no chart is opened. */
  lemma EmptyNameIsNotReported(prev: Snapshot, cur: Snapshot, e: Entry, e': Entry)
    ensures NextPrevious(prev, cur, Some(Event("", e, e'))) == prev
    ensures OpenedLink(Some(Event("", e, e'))) == None
  {
  }

  /** Comparing a snapshot with itself — the turn right after start-up when
      the screener has not moved — reports nothing and keeps the snapshot. */
  lemma UnchangedScreenerIsQuiet(s: Snapshot)
    requires PyDict.Valid(s)
    ensures Detect(s, s) == None
    ensures NextPrevious(s, s, Detect(s, s)) == s
  {
    NoSelfPromotion(s);
  }
}
