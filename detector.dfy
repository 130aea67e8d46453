/**
 * `check_for_position_change`: walk the current snapshot in its key order;
 * for every company the previous snapshot also holds, log it when it is a
 * gem, rewrite its row with the `UPDATE`, and stop at the first one the
 * promotion rule accepts, returning its name and both entries.
 */
module Detector {
  import opened Wrappers
  import opened Records
  import opened Store
  import PyDict

  /** What the detector returns: `(company, previous_positions[company], details)`. */
  datatype Event = Event(name: string, before: Entry, after: Entry)

  /** One line of the gem log: the company and its decline from the all-time high. */
  datatype GemNote = GemNote(name: string, percentDownHigh: real)

  /** The company at a key of the current snapshot is held by the previous
      snapshot, and the promotion rule accepts its old and new rank. */
  predicate Qualifies(prev: Snapshot, cur: Snapshot, n: string)
    requires n in cur.vals
  {
    n in prev.vals && Promoted(prev.vals[n].position, cur.vals[n].position)
  }

  /** The index of the first key at or after `i` that qualifies. */
  function FirstFrom(prev: Snapshot, cur: Snapshot, i: nat): (r: Option<nat>)
    requires PyDict.Valid(cur)
    requires i <= |cur.keys|
    ensures r.Some? ==> i <= r.value < |cur.keys| && Qualifies(prev, cur, cur.keys[r.value])
    decreases |cur.keys| - i
  {
    if i == |cur.keys| then None
    else if Qualifies(prev, cur, cur.keys[i]) then Some(i)
    else FirstFrom(prev, cur, i + 1)
  }

  /** The detector's verdict. */
  function Detect(prev: Snapshot, cur: Snapshot): Option<Event>
    requires PyDict.Valid(cur)
  {
    match FirstFrom(prev, cur, 0)
      case None => None
      case Some(k) =>
        var n := cur.keys[k];
        Some(Event(n, prev.vals[n], cur.vals[n]))
  }

  /** The keys the loop visits before it returns: all of them, or those up
      to and including the company it reports. */
  function Visited(prev: Snapshot, cur: Snapshot): (v: seq<string>)
    requires PyDict.Valid(cur)
    ensures v <= cur.keys
    ensures forall i | 0 <= i < |v| :: v[i] in cur.vals
  {
    match FirstFrom(prev, cur, 0)
      case None => cur.keys
      case Some(k) => cur.keys[..k + 1]
  }

  /** The table after the `UPDATE` has run for each of `names` that the
      previous snapshot holds, in order. */
  function ApplyUpdates(rows: map<string, Row>, prev: Snapshot, cur: Snapshot, names: seq<string>): map<string, Row>
    requires forall i | 0 <= i < |names| :: names[i] in cur.vals
  {
    if |names| == 0 then rows
    else
      var n := names[|names| - 1];
      var before := ApplyUpdates(rows, prev, cur, names[..|names| - 1]);
      if n in prev.vals then UpdateRow(before, n, cur.vals[n]) else before
  }

  /** The gem log lines written while `names` are visited. */
  function GemLog(prev: Snapshot, cur: Snapshot, names: seq<string>): seq<GemNote>
    requires forall i | 0 <= i < |names| :: names[i] in cur.vals
  {
    if |names| == 0 then []
    else
      var n := names[|names| - 1];
      var before := GemLog(prev, cur, names[..|names| - 1]);
      if n in prev.vals && cur.vals[n].gem then before + [GemNote(n, cur.vals[n].percentDownHigh)]
      else before
  }

  /** `check_for_position_change(previous_positions, current_positions)`,
      with the gem log lines it writes returned as `gems`. */
  method CheckForPositionChange(table: Table, prev: Snapshot, cur: Snapshot)
    returns (ev: Option<Event>, gems: seq<GemNote>)
    requires PyDict.Valid(cur)
    modifies table
    ensures ev == Detect(prev, cur)
    ensures gems == GemLog(prev, cur, Visited(prev, cur))
    ensures table.rows == ApplyUpdates(old(table.rows), prev, cur, Visited(prev, cur))
  {
    gems := [];
    var i := 0;
    while i < |cur.keys|
      invariant 0 <= i <= |cur.keys|
      invariant FirstFrom(prev, cur, 0) == FirstFrom(prev, cur, i)
      invariant gems == GemLog(prev, cur, cur.keys[..i])
      invariant table.rows == ApplyUpdates(old(table.rows), prev, cur, cur.keys[..i])
    {
      var promoted;
      promoted, gems := VisitKey(table, prev, cur, i, gems, old(table.rows));
      if promoted {
        DetectAt(prev, cur, i);
        var company := cur.keys[i];
        return Some(Event(company, prev.vals[company], cur.vals[company])), gems;
      }
      i := i + 1;
    }
    DetectNone(prev, cur);
    ev := None;
  }

  /** One turn of the loop, for the key at index `i`: for a company the
      previous snapshot holds, write its gem line, run its `UPDATE` and test
      the promotion rule on its old and new rank. */
  method VisitKey(table: Table, prev: Snapshot, cur: Snapshot, i: nat, gems: seq<GemNote>, ghost start: map<string, Row>)
    returns (promoted: bool, gems': seq<GemNote>)
    requires PyDict.Valid(cur)
    requires i < |cur.keys|
    requires gems == GemLog(prev, cur, cur.keys[..i])
    requires table.rows == ApplyUpdates(start, prev, cur, cur.keys[..i])
    modifies table
    ensures promoted == Qualifies(prev, cur, cur.keys[i])
    ensures gems' == GemLog(prev, cur, cur.keys[..i + 1])
    ensures table.rows == ApplyUpdates(start, prev, cur, cur.keys[..i + 1])
  {
    var company := cur.keys[i];
    var details := cur.vals[company];
    VisitStep(start, prev, cur, i);
    gems' := gems;
    promoted := false;
    if company in prev.vals {
      var oldPosition := prev.vals[company].position;
      var newPosition := details.position;
      if details.gem {
        gems' := gems' + [GemNote(company, details.percentDownHigh)];
      }
      table.UpdatePositions(company, details);
      promoted := oldPosition > newPosition && oldPosition - newPosition >= 2 && newPosition < 20;
    }
  }

  /** Visiting one more key: its gem line, its `UPDATE` and its test. */
  lemma VisitStep(rows: map<string, Row>, prev: Snapshot, cur: Snapshot, i: nat)
    requires PyDict.Valid(cur)
    requires i < |cur.keys|
    ensures var n := cur.keys[i];
      GemLog(prev, cur, cur.keys[..i + 1]) ==
        if n in prev.vals && cur.vals[n].gem then GemLog(prev, cur, cur.keys[..i]) + [GemNote(n, cur.vals[n].percentDownHigh)]
        else GemLog(prev, cur, cur.keys[..i])
    ensures var n := cur.keys[i];
      ApplyUpdates(rows, prev, cur, cur.keys[..i + 1]) ==
        if n in prev.vals then UpdateRow(ApplyUpdates(rows, prev, cur, cur.keys[..i]), n, cur.vals[n])
        else ApplyUpdates(rows, prev, cur, cur.keys[..i])
  {
    PrefixOfPrefix(cur.keys, i);
  }

  /** The loop returns at index `i` when that is the first qualifying key. */
  lemma DetectAt(prev: Snapshot, cur: Snapshot, i: nat)
    requires PyDict.Valid(cur)
    requires FirstFrom(prev, cur, 0) == Some(i)
    ensures i < |cur.keys| && cur.keys[i] in prev.vals
    ensures Detect(prev, cur) == Some(Event(cur.keys[i], prev.vals[cur.keys[i]], cur.vals[cur.keys[i]]))
    ensures Visited(prev, cur) == cur.keys[..i + 1]
  {
  }

  /** The loop runs to the end when no key qualifies. */
  lemma DetectNone(prev: Snapshot, cur: Snapshot)
    requires PyDict.Valid(cur)
    requires FirstFrom(prev, cur, 0) == None
    ensures Detect(prev, cur) == None
    ensures Visited(prev, cur) == cur.keys[..|cur.keys|]
  {
  }

  // ---- the verdict ----

  /** The search from `i` finds the first qualifying key at or after `i`. */
  lemma {:induction false} FirstFromSpec(prev: Snapshot, cur: Snapshot, i: nat)
    requires PyDict.Valid(cur)
    requires i <= |cur.keys|
    ensures FirstFrom(prev, cur, i).None? ==>
      forall k | i <= k < |cur.keys| :: !Qualifies(prev, cur, cur.keys[k])
    ensures FirstFrom(prev, cur, i).Some? ==>
      var k := FirstFrom(prev, cur, i).value;
      && i <= k < |cur.keys|
      && Qualifies(prev, cur, cur.keys[k])
      && forall m | i <= m < k :: !Qualifies(prev, cur, cur.keys[m])
    decreases |cur.keys| - i
  {
    if i < |cur.keys| && !Qualifies(prev, cur, cur.keys[i]) {
      FirstFromSpec(prev, cur, i + 1);
    }
  }

  /** The detector reports nothing exactly when no company of the current
      snapshot is held by the previous one with a rank change the promotion
      rule accepts; otherwise it reports the first such company in the
      current snapshot's order, with its previous and current entry. */
  lemma DetectSpec(prev: Snapshot, cur: Snapshot)
    requires PyDict.Valid(cur)
    ensures Detect(prev, cur).None? <==>
      forall k | 0 <= k < |cur.keys| :: !Qualifies(prev, cur, cur.keys[k])
    ensures Detect(prev, cur).Some? ==>
      var ev := Detect(prev, cur).value;
      && ev.name in prev.vals && ev.name in cur.vals
      && ev.before == prev.vals[ev.name] && ev.after == cur.vals[ev.name]
      && Promoted(ev.before.position, ev.after.position)
      && exists k | 0 <= k < |cur.keys| ::
           && cur.keys[k] == ev.name
           && forall m | 0 <= m < k :: !Qualifies(prev, cur, cur.keys[m])
  {
    FirstFromSpec(prev, cur, 0);
  }

  /** Conversely, the first qualifying company is the one reported. */
  lemma DetectFindsFirst(prev: Snapshot, cur: Snapshot, k: nat)
    requires PyDict.Valid(cur)
    requires k < |cur.keys|
    requires Qualifies(prev, cur, cur.keys[k])
    requires forall m | 0 <= m < k :: !Qualifies(prev, cur, cur.keys[m])
    ensures Detect(prev, cur) == Some(Event(cur.keys[k], prev.vals[cur.keys[k]], cur.vals[cur.keys[k]]))
  {
    FirstFromSpec(prev, cur, 0);
  }

  /** A snapshot compared with itself reports nothing: no rank moved. */
  lemma NoSelfPromotion(s: Snapshot)
    requires PyDict.Valid(s)
    ensures Detect(s, s) == None
  {
    DetectSpec(s, s);
    forall k | 0 <= k < |s.keys| ensures !Qualifies(s, s, s.keys[k]) {
      NoPromotionInPlace(s.vals[s.keys[k]].position);
    }
  }

  /** The loop visits every key when nothing is reported and stops right
      after the reported company otherwise. */
  lemma VisitedSpec(prev: Snapshot, cur: Snapshot)
    requires PyDict.Valid(cur)
    ensures Detect(prev, cur).None? ==> Visited(prev, cur) == cur.keys
    ensures Detect(prev, cur).Some? ==>
      |Visited(prev, cur)| > 0 && Visited(prev, cur)[|Visited(prev, cur)| - 1] == Detect(prev, cur).value.name
  {
  }

  // ---- the updates ----

  /** The loop visits each company once. */
  lemma VisitedDistinct(prev: Snapshot, cur: Snapshot)
    requires PyDict.Valid(cur)
    ensures forall i, j | 0 <= i < j < |Visited(prev, cur)| :: Visited(prev, cur)[i] != Visited(prev, cur)[j]
  {
    var v := Visited(prev, cur);
    assert forall i | 0 <= i < |v| :: v[i] == cur.keys[i];
  }

  /** Each visited company the previous snapshot holds gets its row
      rewritten once, with `old_position` read from the row as it stood;
      no other row changes and no row is added. */
  lemma {:induction false} ApplyUpdatesEffect(rows: map<string, Row>, prev: Snapshot, cur: Snapshot, names: seq<string>)
    requires forall i | 0 <= i < |names| :: names[i] in cur.vals
    requires forall i, j | 0 <= i < j < |names| :: names[i] != names[j]
    ensures ApplyUpdates(rows, prev, cur, names).Keys == rows.Keys
    ensures forall n | n in rows && n in names && n in prev.vals ::
      ApplyUpdates(rows, prev, cur, names)[n] == UpdatedRow(rows[n], cur.vals[n])
    ensures forall n | n in rows && (n !in names || n !in prev.vals) ::
      ApplyUpdates(rows, prev, cur, names)[n] == rows[n]
  {
    if |names| > 0 {
      var init := names[..|names| - 1];
      var last := names[|names| - 1];
      ApplyUpdatesEffect(rows, prev, cur, init);
      assert last !in init by {
        forall i | 0 <= i < |init| ensures init[i] != last {
          assert init[i] == names[i];
        }
      }
      assert forall n | n in names :: n in init || n == last;
    }
  }

  /** The rows a whole cycle leaves for the current snapshot's companies:
      the builder writes every entry with NULL old and new positions, then
      each visited company the previous snapshot holds is rewritten with
      `old_position` and `new_position` both equal to its current rank,
      since the row it reads was written in the same cycle. Other rows are
      untouched. */
  lemma CycleRows(rows: map<string, Row>, prev: Snapshot, cur: Snapshot)
    requires PyDict.Valid(cur)
    ensures
      var after := ApplyUpdates(UpsertAll(rows, cur, cur.keys), prev, cur, Visited(prev, cur));
      && after.Keys == rows.Keys + cur.vals.Keys
      && (forall n | n in Visited(prev, cur) && n in prev.vals ::
            after[n] == UpdatedRow(FreshRow(cur.vals[n]), cur.vals[n])
            && after[n].oldPosition == after[n].newPosition == Some(cur.vals[n].position))
      && (forall n | n in cur.vals && (n !in Visited(prev, cur) || n !in prev.vals) ::
            after[n] == FreshRow(cur.vals[n]))
      && (forall n | n in rows && n !in cur.vals :: after[n] == rows[n])
  {
    var upserted := UpsertAll(rows, cur, cur.keys);
    UpsertSnapshot(rows, cur);
    VisitedDistinct(prev, cur);
    ApplyUpdatesEffect(upserted, prev, cur, Visited(prev, cur));
  }

  // ---- the gem log ----

  /** The gem log lists exactly the visited companies that both snapshots
      hold and whose current entry is a gem, each with its current decline
      from the all-time high. */
  lemma {:induction false} GemLogSpec(prev: Snapshot, cur: Snapshot, names: seq<string>)
    requires forall i | 0 <= i < |names| :: names[i] in cur.vals
    ensures |GemLog(prev, cur, names)| <= |names|
    ensures forall g | g in GemLog(prev, cur, names) ::
      && g.name in names && g.name in prev.vals && cur.vals[g.name].gem
      && g.percentDownHigh == cur.vals[g.name].percentDownHigh
    ensures forall n | n in names && n in prev.vals && cur.vals[n].gem ::
      GemNote(n, cur.vals[n].percentDownHigh) in GemLog(prev, cur, names)
  {
    if |names| > 0 {
      var init := names[..|names| - 1];
      GemLogSpec(prev, cur, init);
      assert forall n | n in names :: n in init || n == names[|names| - 1];
    }
  }

  // ---- an example ----

  /** Two companies, A at rank 6 and B at rank 30, become A at 3 and B at 29:
      A moved up three places into the top nineteen and is reported; B moved
      one place and, being visited after A, is never looked at. */
  lemma ScenarioPromotion(a: Entry, b: Entry, a': Entry, b': Entry)
    requires a.position == 6 && b.position == 30 && a'.position == 3 && b'.position == 29
    ensures
      var prev := PyDict.Dict(["A", "B"], map["A" := a, "B" := b]);
      var cur := PyDict.Dict(["A", "B"], map["A" := a', "B" := b']);
      && PyDict.Valid(cur)
      && Detect(prev, cur) == Some(Event("A", a, a'))
      && Visited(prev, cur) == ["A"]
  {
    var prev := PyDict.Dict(["A", "B"], map["A" := a, "B" := b]);
    var cur := PyDict.Dict(["A", "B"], map["A" := a', "B" := b']);
    assert "A" != "B";
    DetectFindsFirst(prev, cur, 0);
  }
}
