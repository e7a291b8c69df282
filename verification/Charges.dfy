/** What GitHub charges a batched standings read, query by query. */
module Charges {
  const STANDINGS_BATCH: nat := 50
  const REVIEW_BATCH: nat := 150
  const DECLARATIONS: nat := 27
  const REVIEW_CONNECTIONS: nat := 54

  /** A hundredth of the connection requests, rounded, and never less than one point. */
  function Points(requests: nat): nat {
    if (requests + 50) / 100 > 1 then (requests + 50) / 100 else 1
  }

  function Min(a: nat, b: nat): nat { if a <= b then a else b }

  /** The queries from `start` on: each reads at most `batch`, the first with the declarations. */
  function Batched(count: nat, start: nat, batch: nat, each: nat): nat
    requires batch > 0
    decreases if start < count then count - start else 0
  {
    if start >= count then 0
    else
      Points(each * Min(count - start, batch) + (if start == 0 then DECLARATIONS else 0))
      + Batched(count, start + batch, batch, each)
  }

  function StandingsCharge(count: nat): nat { Batched(count, 0, STANDINGS_BATCH, 1) }

  function ReviewCharge(count: nat): nat { Batched(count, 0, REVIEW_BATCH, REVIEW_CONNECTIONS) }

  function CeilDiv(n: nat, d: nat): nat
    requires d > 0
  {
    (n + d - 1) / d
  }

  /** A standings read costs one point per query, whatever the declarations add. */
  lemma StandingsChargeIsOnePerBatch(count: nat)
    ensures StandingsCharge(count) == CeilDiv(count, STANDINGS_BATCH)
  {
    StandingsFrom(count, 0);
  }

  lemma {:induction false} StandingsFrom(count: nat, start: nat)
    ensures Batched(count, start, STANDINGS_BATCH, 1)
      == if start >= count then 0 else CeilDiv(count - start, STANDINGS_BATCH)
    decreases if start < count then count - start else 0
  {
    if start < count {
      StandingsFrom(count, start + STANDINGS_BATCH);
    }
  }

  /** The rounding of a review read: within half a point a query of the connections it makes. */
  lemma ReviewChargeIsRounded(count: nat)
    requires count > 0
    ensures var exact := REVIEW_CONNECTIONS * count + DECLARATIONS;
      var slack := 50 * CeilDiv(count, REVIEW_BATCH);
      exact - slack < 100 * ReviewCharge(count) <= exact + slack
  {
    ReviewFrom(count, 0);
  }

  lemma PointsRound(requests: nat)
    requires requests >= 50
    ensures requests - 50 < 100 * Points(requests) <= requests + 50
  {
  }

  /** What a review read costs, to the point: 81 for every full query, and for what is left over the
      hundredth of its connections, halves rounded up; the declarations weigh on the first alone. */
  lemma ReviewChargeIsExact(count: nat)
    ensures var full, left := count / REVIEW_BATCH, count % REVIEW_BATCH;
      var rest := ReviewCharge(count) - 81 * full;
      var requests := REVIEW_CONNECTIONS * left + (if full == 0 then DECLARATIONS else 0);
      if left == 0 then rest == 0 else requests - 50 < 100 * rest <= requests + 50
  {
    if count > 0 {
      ReviewExactFrom(count, 0);
    }
  }

  lemma {:induction false} ReviewExactFrom(count: nat, start: nat)
    requires start < count && start % REVIEW_BATCH == 0
    ensures var full, left := (count - start) / REVIEW_BATCH, (count - start) % REVIEW_BATCH;
      var rest := Batched(count, start, REVIEW_BATCH, REVIEW_CONNECTIONS) - 81 * full;
      var requests := REVIEW_CONNECTIONS * left + (if full == 0 && start == 0 then DECLARATIONS else 0);
      if left == 0 then rest == 0 else requests - 50 < 100 * rest <= requests + 50
    decreases count - start
  {
    var now := count - start;
    if now > REVIEW_BATCH {
      ReviewExactFrom(count, start + REVIEW_BATCH);
      assert now / REVIEW_BATCH == 1 + (now - REVIEW_BATCH) / REVIEW_BATCH;
      assert now % REVIEW_BATCH == (now - REVIEW_BATCH) % REVIEW_BATCH;
    } else {
      assert Batched(count, start + REVIEW_BATCH, REVIEW_BATCH, REVIEW_CONNECTIONS) == 0;
      PointsRound(REVIEW_CONNECTIONS * now + (if start == 0 then DECLARATIONS else 0));
    }
  }

  lemma OneBatchMore(left: nat)
    requires left > REVIEW_BATCH
    ensures CeilDiv(left, REVIEW_BATCH) == 1 + CeilDiv(left - REVIEW_BATCH, REVIEW_BATCH)
  {
  }

  lemma OneBatch(left: nat)
    requires 0 < left <= REVIEW_BATCH
    ensures CeilDiv(left, REVIEW_BATCH) == 1
  {
  }

  lemma {:induction false} ReviewFrom(count: nat, start: nat)
    requires start < count
    ensures var exact := REVIEW_CONNECTIONS * (count - start) + (if start == 0 then DECLARATIONS else 0);
      var slack := 50 * CeilDiv(count - start, REVIEW_BATCH);
      exact - slack < 100 * Batched(count, start, REVIEW_BATCH, REVIEW_CONNECTIONS) <= exact + slack
    decreases count - start
  {
    var left := count - start;
    var read := Min(left, REVIEW_BATCH);
    PointsRound(REVIEW_CONNECTIONS * read + (if start == 0 then DECLARATIONS else 0));
    if left > REVIEW_BATCH {
      ReviewFrom(count, start + REVIEW_BATCH);
      OneBatchMore(left);
    } else {
      OneBatch(left);
      assert Batched(count, start + REVIEW_BATCH, REVIEW_BATCH, REVIEW_CONNECTIONS) == 0;
    }
  }

  /** Reading more change requests never costs less. */
  lemma ReviewChargeIsMonotone(fewer: nat, more: nat)
    requires fewer <= more
    ensures ReviewCharge(fewer) <= ReviewCharge(more)
  {
    MonotoneFrom(fewer, more, 0);
  }

  lemma {:induction false} MonotoneFrom(fewer: nat, more: nat, start: nat)
    requires fewer <= more
    ensures Batched(fewer, start, REVIEW_BATCH, REVIEW_CONNECTIONS)
         <= Batched(more, start, REVIEW_BATCH, REVIEW_CONNECTIONS)
    decreases if start < more then more - start else 0
  {
    if start < more {
      MonotoneFrom(fewer, more, start + REVIEW_BATCH);
    }
  }
}
