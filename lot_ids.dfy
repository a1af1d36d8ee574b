// utils/generateLotId.js: quality lot identifiers drawn from the
// QUALITY_LOT_ID counter document, rendered "LOT-" and six or more
// digits. models/Counter.js is not part of this model; the counter is
// the store's `lotCounter`.
module LotIds {
  import opened Common
  import Store

  const Prefix: string := "LOT-"

  /** The counter after `$inc: { seq: 1 }` with upsert: an absent counter
      document is created holding 1. */
  function Next(counter: Option<nat>): (n: nat)
    ensures counter.None? ==> n == 1
    ensures counter.Some? ==> n == counter.value + 1
  {
    if counter.None? then 1 else counter.value + 1
  }

  /** `LOT-${seq.toString().padStart(6, "0")}`: the prefix, then the
      counter in decimal, zero-padded to six digits and never cut. */
  function LotId(n: nat): (r: string)
    ensures |r| == |Prefix| + (if |Decimal(n)| >= 6 then |Decimal(n)| else 6)
    ensures r[..|Prefix|] == Prefix
    ensures AllDigits(r[|Prefix|..]) && DigitsValue(r[|Prefix|..]) == n
  {
    var digits := PadStart(Decimal(n), 6);
    PaddedRoundTrip(n, 6);
    assert (Prefix + digits)[..|Prefix|] == Prefix;
    assert (Prefix + digits)[|Prefix|..] == digits;
    Prefix + digits
  }

  /** generateLotId: one increment of the counter per call, and the id of
      the new counter value. */
  method GenerateLotId(db: Store.Db) returns (id: string)
    modifies db`lotCounter
    ensures db.lotCounter == Some(Next(old(db.lotCounter)))
    ensures id == LotId(Next(old(db.lotCounter)))
  {
    var n := Next(db.lotCounter);
    db.lotCounter := Some(n);
    id := LotId(n);
  }

  /** Different counter values give different ids. */
  lemma LotIdInjective(m: nat, n: nat)
    requires LotId(m) == LotId(n)
    ensures m == n
  {
    assert LotId(m)[|Prefix|..] == LotId(n)[|Prefix|..];
  }

  /** Counters of a million and more keep all their digits. */
  lemma LargeCountersNotTruncated(n: nat)
    requires n >= 1_000_000
    ensures |LotId(n)| > |Prefix| + 6
  {
    assert Pow10(6) == 1_000_000;
    if |Decimal(n)| <= 6 {
      DecimalBound(n, |Decimal(n)|);
    }
  }

  /** A number of at most k digits is below 10^k. */
  lemma {:induction false} DecimalBound(n: nat, k: nat)
    requires |Decimal(n)| <= k
    ensures n < Pow10(k)
    decreases n
  {
    if n >= 10 {
      assert |Decimal(n)| == |Decimal(n / 10)| + 1;
      DecimalBound(n / 10, k - 1);
    }
  }

  /** The counter only grows, so successive calls never repeat an id:
      every id issued after counter value c has a larger number. */
  lemma SuccessiveCallsDistinct(counter: Option<nat>, calls: nat)
    ensures LotId(Next(Iterate(counter, calls + 1))) != LotId(Next(counter))
  {
    IterateGrows(counter, calls + 1);
    if LotId(Next(Iterate(counter, calls + 1))) == LotId(Next(counter)) {
      LotIdInjective(Next(Iterate(counter, calls + 1)), Next(counter));
    }
  }

  /** The counter after `k` calls. */
  function Iterate(counter: Option<nat>, k: nat): Option<nat>
  {
    if k == 0 then counter else Some(Next(Iterate(counter, k - 1)))
  }

  lemma {:induction false} IterateGrows(counter: Option<nat>, k: nat)
    requires k >= 1
    ensures Iterate(counter, k).Some? && Iterate(counter, k).value >= Next(counter)
    ensures Next(Iterate(counter, k)) > Next(counter)
  {
    if k > 1 {
      IterateGrows(counter, k - 1);
    }
  }
}
