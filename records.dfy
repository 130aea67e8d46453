/**
 * The watcher's records: one company's attributes in a snapshot, one row of
 * the `stock_positions` table, and the two rules applied to them (the "gem"
 * classifier and the promotion rule).
 */
module Records {
  import opened Wrappers
  import PyDict

  /** The value stored under a company's name in one cycle's snapshot. */
  datatype Entry = Entry(
    position: int,          // rank on the screener, from the row's number cell
    down52High: real,       // the screener's own "down from 52w high" figure
    percentDownHigh: real,  // the decline from all-time high, computed by the watcher
    companyUrl: string,     // chart link built from the company id
    gem: bool)

  /** A snapshot: company name to entry, in the order names were first seen. */
  type Snapshot = PyDict.Dict<string, Entry>

  /** One row of `stock_positions`, without its timestamp columns.
      `None` is SQL NULL; `gem` holds the integer 0 or 1. */
  datatype Row = Row(
    position: int,
    down52High: real,
    percentDownHigh: real,
    companyUrl: string,
    gem: int,
    oldPosition: Option<int>,
    newPosition: Option<int>)

  /** The classifier: a company is a gem when the freshly computed decline
      from its all-time high is strictly greater than the published one. */
  predicate IsGem(percentDownHigh: real, down52High: real) {
    percentDownHigh > down52High
  }

  /** Equal figures are not a gem, and the rule is asymmetric. */
  lemma GemIsStrict(a: real, b: real)
    ensures !IsGem(a, a)
    ensures IsGem(a, b) ==> !IsGem(b, a)
    ensures IsGem(a, b) <==> a - b > 0.0
  {
  }

  /** The promotion rule applied to a company's previous and current rank. */
  predicate Promoted(oldPosition: int, newPosition: int) {
    oldPosition > newPosition && oldPosition - newPosition >= 2 && newPosition < 20
  }

  /** The first conjunct of the rule is implied by the second. */
  lemma PromotionRule(oldPosition: int, newPosition: int)
    ensures Promoted(oldPosition, newPosition) <==> oldPosition - newPosition >= 2 && newPosition < 20
  {
  }

  /** The boundary cases: one place up is noise, two places up into the top
      nineteen is an event, a large move that ends at 20 or below is not. */
  lemma PromotionExamples()
    ensures !Promoted(5, 4)
    ensures Promoted(5, 3)
    ensures !Promoted(25, 22)
    ensures !Promoted(21, 20) && Promoted(21, 19)
  {
  }

  /** A company whose rank did not change is never promoted. */
  lemma NoPromotionInPlace(p: int)
    ensures !Promoted(p, p)
  {
  }
}
