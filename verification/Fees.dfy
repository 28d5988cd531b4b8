/** Fee arithmetic of the broadcaster: ceiling bumps in basis points, the merge of a fresh
    estimate with the fees of an earlier submission at the same nonce, and the choice among
    EIP-1559 fees, a legacy gas price and no fees at all.  Fees are wei amounts. */
module Fees {
  import opened Text

  const FEE_BUMP_BPS_PER_ATTEMPT := 1500
  const REPLACEMENT_BUMP_BPS := 1500

  datatype Snapshot = Snapshot(maxFee: Option<nat>, maxPriority: Option<nat>, gasPrice: Option<nat>)

  const EMPTY := Snapshot(None, None, None)

  datatype Kind = Eip1559 | Legacy | NoFees

  datatype FeeResult = FeeResult(kind: Kind, overrides: Snapshot, snapshot: Snapshot)

  /** What the two RPC fee queries answered. */
  datatype Estimate = EstimateFailed | Estimated(maxFee: Option<nat>, maxPriority: Option<nat>)
  datatype GasPrice = GasPriceFailed | GasPriceIs(wei: nat)

  function MulDivCeil(value: nat, numerator: nat, denominator: nat): nat
    requires denominator > 0
  {
    (value * numerator + denominator - 1) / denominator
  }

  function MaxPresent(values: seq<Option<nat>>): (r: Option<nat>)
    ensures r.None? <==> forall i :: 0 <= i < |values| ==> values[i].None?
    ensures r.Some? ==> r in values && forall i :: 0 <= i < |values| && values[i].Some? ==> values[i].value <= r.value
  {
    if values == [] then None
    else
      var rest := MaxPresent(values[1..]);
      assert values == [values[0]] + values[1..];
      if values[0].None? then rest
      else if rest.None? || values[0].value > rest.value then values[0]
      else rest
  }

  function ReplacementBump(value: nat): nat {
    MulDivCeil(value, 10000 + REPLACEMENT_BUMP_BPS, 10000)
  }

  function AttemptBump(value: nat, attempt: int): nat {
    if attempt <= 0 then value
    else MulDivCeil(value, 10000 + FEE_BUMP_BPS_PER_ATTEMPT * attempt, 10000)
  }

  function BumpAttempt(value: Option<nat>, attempt: int): Option<nat> {
    if value.None? then None else Some(AttemptBump(value.value, attempt))
  }

  function BumpReplacement(value: Option<nat>): Option<nat> {
    if value.None? then None else Some(ReplacementBump(value.value))
  }

  /** `mergeFeeEstimateWithPrevious`; a missing previous submission is the empty snapshot. */
  function Merge(current: Snapshot, previous: Snapshot, attempt: int): Snapshot {
    if current.gasPrice.Some? || previous.gasPrice.Some? then
      Snapshot(None, None, MaxPresent([BumpAttempt(current.gasPrice, attempt), BumpReplacement(previous.gasPrice)]))
    else
      var maxFee := MaxPresent([BumpAttempt(current.maxFee, attempt), BumpReplacement(previous.maxFee)]);
      var maxPriority := MaxPresent([BumpAttempt(current.maxPriority, attempt), BumpReplacement(previous.maxPriority)]);
      if maxFee.Some? && maxPriority.Some? then Snapshot(maxFee, maxPriority, None) else EMPTY
  }

  /** `feeOverrideResultFromSnapshot` */
  function ResultFromSnapshot(s: Snapshot): FeeResult {
    if s.maxFee.Some? && s.maxPriority.Some? then
      var overrides := Snapshot(s.maxFee, s.maxPriority, None);
      FeeResult(Eip1559, overrides, overrides)
    else if s.gasPrice.Some? then
      var overrides := Snapshot(None, None, s.gasPrice);
      FeeResult(Legacy, overrides, overrides)
    else
      FeeResult(NoFees, EMPTY, EMPTY)
  }

  function OrEmpty(previous: Option<Snapshot>): Snapshot {
    if previous.None? then EMPTY else previous.value
  }

  /** `viemFeeOverrideResultForAttempt` */
  function ResultForAttempt(
    estimate: Estimate, gasPrice: GasPrice, attempt: int, previous: Option<Snapshot>, forceEstimate: bool
  ): FeeResult
  {
    if attempt <= 0 && previous.None? && !forceEstimate then
      ResultFromSnapshot(EMPTY)
    else if estimate.Estimated? && estimate.maxFee.Some? && estimate.maxPriority.Some? then
      ResultFromSnapshot(Merge(Snapshot(estimate.maxFee, estimate.maxPriority, None), OrEmpty(previous), attempt))
    else if gasPrice.GasPriceIs? then
      ResultFromSnapshot(Merge(Snapshot(None, None, Some(gasPrice.wei)), OrEmpty(previous), attempt))
    else if previous.Some? then
      ResultFromSnapshot(Merge(EMPTY, previous.value, attempt))
    else
      ResultFromSnapshot(EMPTY)
  }

  // ---------------------------------------------------------------- exact ceilings

  /** The bump is the least integer that reaches the scaled value: an exact ceiling. */
  lemma CeilingIsExact(value: nat, numerator: nat, denominator: nat, q: nat)
    requires denominator > 0
    ensures MulDivCeil(value, numerator, denominator) * denominator >= value * numerator
    ensures q * denominator >= value * numerator ==> q >= MulDivCeil(value, numerator, denominator)
  {
    var p := value * numerator;
    var r := (p + denominator - 1) / denominator;
    assert r * denominator + (p + denominator - 1) % denominator == p + denominator - 1;
    if q < r {
      MulMonotone(q + 1, r, denominator);
      assert (q + 1) * denominator == q * denominator + denominator;
    }
  }

  lemma MulMonotone(a: nat, b: nat, c: nat)
    requires a <= b
    ensures a * c <= b * c
  {
    assert (b - a) * c >= 0;
    assert (b - a) * c == b * c - a * c;
  }

  lemma CeilingMonotone(a: nat, b: nat, numerator: nat, denominator: nat)
    requires a <= b && denominator > 0
    ensures MulDivCeil(a, numerator, denominator) <= MulDivCeil(b, numerator, denominator)
  {
    MulMonotone(a, b, numerator);
    CeilingIsExact(b, numerator, denominator, 0);
    CeilingIsExact(a, numerator, denominator, MulDivCeil(b, numerator, denominator));
  }

  lemma BumpsMonotone(a: nat, b: nat, attempt: int)
    requires a <= b
    ensures ReplacementBump(a) <= ReplacementBump(b)
    ensures AttemptBump(a, attempt) <= AttemptBump(b, attempt)
  {
    CeilingMonotone(a, b, 10000 + REPLACEMENT_BUMP_BPS, 10000);
    if attempt > 0 {
      CeilingMonotone(a, b, 10000 + FEE_BUMP_BPS_PER_ATTEMPT * attempt, 10000);
    }
  }

  // ---------------------------------------------------------------- shape and order

  predicate IsLegacy(s: Snapshot) {
    s.gasPrice.Some? && s.maxFee.None? && s.maxPriority.None?
  }

  /** Both EIP-1559 fields, no gas price, and the priority fee at most the max fee. */
  predicate IsEip1559(s: Snapshot) {
    s.gasPrice.None? && s.maxFee.Some? && s.maxPriority.Some? && s.maxPriority.value <= s.maxFee.value
  }

  predicate WellFormed(s: Snapshot) {
    s == EMPTY || IsLegacy(s) || IsEip1559(s)
  }

  predicate OrderedEstimate(e: Estimate) {
    e.Estimated? && e.maxFee.Some? && e.maxPriority.Some? ==> e.maxPriority.value <= e.maxFee.value
  }

  lemma MergeWellFormed(current: Snapshot, previous: Snapshot, attempt: int)
    requires WellFormed(current) && WellFormed(previous)
    ensures WellFormed(Merge(current, previous, attempt))
  {
    if IsEip1559(current) {
      BumpsMonotone(current.maxPriority.value, current.maxFee.value, attempt);
    }
    if IsEip1559(previous) {
      BumpsMonotone(previous.maxPriority.value, previous.maxFee.value, attempt);
    }
    var r := Merge(current, previous, attempt);
    if r.maxPriority.Some? {
      var fees := [BumpAttempt(current.maxFee, attempt), BumpReplacement(previous.maxFee)];
      var tips := [BumpAttempt(current.maxPriority, attempt), BumpReplacement(previous.maxPriority)];
      var i :| 0 <= i < 2 && tips[i] == r.maxPriority;
      assert fees[i].Some? && fees[i].value >= tips[i].value;
    }
  }

  /** Whatever the two queries answered, the result is exactly one of EIP-1559, legacy and
      none, the overrides and the ledger snapshot agree, and well-formed inputs give fees
      that keep the priority fee within the max fee. */
  lemma ResultIsValid(estimate: Estimate, gasPrice: GasPrice, attempt: int, previous: Option<Snapshot>, force: bool)
    ensures var r := ResultForAttempt(estimate, gasPrice, attempt, previous, force);
            && r.overrides == r.snapshot
            && (r.kind == NoFees <==> r.snapshot == EMPTY)
            && (r.kind == Legacy <==> IsLegacy(r.snapshot))
            && (r.kind == Eip1559 <==>
                  r.snapshot.maxFee.Some? && r.snapshot.maxPriority.Some? && r.snapshot.gasPrice.None?)
    ensures OrderedEstimate(estimate) && WellFormed(OrEmpty(previous)) ==>
              WellFormed(ResultForAttempt(estimate, gasPrice, attempt, previous, force).snapshot)
  {
    if OrderedEstimate(estimate) && WellFormed(OrEmpty(previous)) {
      if estimate.Estimated? && estimate.maxFee.Some? && estimate.maxPriority.Some? {
        MergeWellFormed(Snapshot(estimate.maxFee, estimate.maxPriority, None), OrEmpty(previous), attempt);
      }
      if gasPrice.GasPriceIs? {
        MergeWellFormed(Snapshot(None, None, Some(gasPrice.wei)), OrEmpty(previous), attempt);
      }
      MergeWellFormed(EMPTY, OrEmpty(previous), attempt);
    }
  }

  // ---------------------------------------------------------------- replacements

  /** Fees a transaction can be sent with. */
  predicate Priced(s: Snapshot) {
    IsLegacy(s) || IsEip1559(s)
  }

  /** The most a transaction pays per gas, and the part of it that goes to the block
      builder; a legacy gas price plays both roles. */
  function Cap(s: Snapshot): nat
    requires Priced(s)
  {
    if s.gasPrice.Some? then s.gasPrice.value else s.maxFee.value
  }

  function Tip(s: Snapshot): nat
    requires Priced(s)
  {
    if s.gasPrice.Some? then s.gasPrice.value else s.maxPriority.value
  }

  /** `next` raises both fees of `prev` by at least the exact ceiling of the replacement bump. */
  predicate Replaces(prev: Snapshot, next: Snapshot) {
    && Priced(prev) && Priced(next)
    && Cap(next) >= ReplacementBump(Cap(prev))
    && Tip(next) >= ReplacementBump(Tip(prev))
  }

  /** The estimate that ends up being used is a legacy gas price. */
  predicate LegacyEstimate(estimate: Estimate, gasPrice: GasPrice) {
    !(estimate.Estimated? && estimate.maxFee.Some? && estimate.maxPriority.Some?) && gasPrice.GasPriceIs?
  }

  /** The excluded case: an EIP-1559 record meets a legacy gas price below its bumped max fee. */
  predicate Downgrade(estimate: Estimate, gasPrice: GasPrice, attempt: int, prev: Snapshot)
    requires Priced(prev)
  {
    IsEip1559(prev) && LegacyEstimate(estimate, gasPrice)
        && AttemptBump(gasPrice.wei, attempt) < ReplacementBump(Cap(prev))
  }

  /** An attempt's factor in basis points: 15 percent more for each earlier attempt. */
  function Factor(attempt: int): nat {
    if attempt <= 0 then 10000 else 10000 + 1500 * attempt
  }

  /** `fee` is the least amount that reaches `target` ten-thousandths. */
  predicate LeastReaching(fee: nat, target: nat) {
    fee * 10000 >= target && (fee > 0 ==> (fee - 1) * 10000 < target)
  }

  lemma BumpsAreLeast(value: nat, attempt: int)
    ensures LeastReaching(AttemptBump(value, attempt), value * Factor(attempt))
    ensures LeastReaching(ReplacementBump(value), value * 11500)
  {
    var bump, replacement := AttemptBump(value, attempt), ReplacementBump(value);
    CeilingIsExact(value, 11500, 10000, if replacement > 0 then replacement - 1 else 0);
    if attempt > 0 {
      CeilingIsExact(value, Factor(attempt), 10000, if bump > 0 then bump - 1 else 0);
    }
  }

  /** `fee` is the least amount that reaches the current value scaled by the attempt's factor
      and 1.15 times the earlier one, as far as they are there. */
  predicate BestBid(fee: nat, current: Option<nat>, earlier: Option<nat>, attempt: int) {
    && (current.Some? || earlier.Some?)
    && (current.Some? ==> fee * 10000 >= current.value * Factor(attempt))
    && (earlier.Some? ==> fee * 10000 >= earlier.value * 11500)
    && (fee > 0 ==>
          || (current.Some? && (fee - 1) * 10000 < current.value * Factor(attempt))
          || (earlier.Some? && (fee - 1) * 10000 < earlier.value * 11500))
  }

  lemma MaxIsBestBid(current: Option<nat>, earlier: Option<nat>, attempt: int)
    requires current.Some? || earlier.Some?
    ensures var r := MaxPresent([BumpAttempt(current, attempt), BumpReplacement(earlier)]);
            r.Some? && BestBid(r.value, current, earlier, attempt)
  {
    var bids := [BumpAttempt(current, attempt), BumpReplacement(earlier)];
    assert bids[0] == BumpAttempt(current, attempt) && bids[1] == BumpReplacement(earlier);
    if current.Some? {
      BumpsAreLeast(current.value, attempt);
    }
    if earlier.Some? {
      BumpsAreLeast(earlier.value, attempt);
    }
  }

  lemma NothingToBid(attempt: int)
    ensures MaxPresent([BumpAttempt(None, attempt), BumpReplacement(None)]) == None
  {
  }

  predicate FullEstimate(estimate: Estimate) {
    estimate.Estimated? && estimate.maxFee.Some? && estimate.maxPriority.Some?
  }

  /** What the queries say about the three fee fields: a full EIP-1559 estimate, or else the
      gas price. */
  function Quoted(estimate: Estimate, gasPrice: GasPrice): Snapshot {
    if FullEstimate(estimate) then Snapshot(estimate.maxFee, estimate.maxPriority, None)
    else if gasPrice.GasPriceIs? then Snapshot(None, None, Some(gasPrice.wei))
    else EMPTY
  }

  lemma MergeIsBestBid(current: Snapshot, earlier: Snapshot, attempt: int)
    requires WellFormed(earlier) && (current == EMPTY || current.gasPrice.Some? != current.maxFee.Some?)
    requires current.maxFee.Some? == current.maxPriority.Some?
    ensures var r := Merge(current, earlier, attempt);
            if current.gasPrice.Some? || earlier.gasPrice.Some? then
              r.gasPrice.Some? && r.maxFee.None? && r.maxPriority.None?
              && BestBid(r.gasPrice.value, current.gasPrice, earlier.gasPrice, attempt)
            else if current.maxFee.Some? || earlier.maxFee.Some? then
              r.gasPrice.None? && r.maxFee.Some? && r.maxPriority.Some?
              && BestBid(r.maxFee.value, current.maxFee, earlier.maxFee, attempt)
              && BestBid(r.maxPriority.value, current.maxPriority, earlier.maxPriority, attempt)
            else r == EMPTY
  {
    if current.gasPrice.Some? || earlier.gasPrice.Some? {
      MaxIsBestBid(current.gasPrice, earlier.gasPrice, attempt);
    } else if current.maxFee.Some? || earlier.maxFee.Some? {
      MaxIsBestBid(current.maxFee, earlier.maxFee, attempt);
      MaxIsBestBid(current.maxPriority, earlier.maxPriority, attempt);
    } else {
      NothingToBid(attempt);
    }
  }

  /** The result for every answer of the queries and every earlier submission: legacy exactly
      if the earlier fees are legacy or only a gas price was quoted, EIP-1559 exactly if not
      legacy and there is a full estimate or earlier EIP-1559 fees, none exactly if there is
      neither a quote nor an earlier submission; and every fee is the least that covers both.
      Nothing is queried for a first attempt without earlier fees that does not insist. */
  lemma ResultIsExact(estimate: Estimate, gasPrice: GasPrice, attempt: int, previous: Option<Snapshot>, force: bool)
    requires WellFormed(OrEmpty(previous))
    ensures var r := ResultForAttempt(estimate, gasPrice, attempt, previous, force);
            var quoted, earlier := Quoted(estimate, gasPrice), OrEmpty(previous);
            if attempt <= 0 && previous.None? && !force then r.kind == NoFees
            else
              && (r.kind == Legacy <==> quoted.gasPrice.Some? || earlier.gasPrice.Some?)
              && (r.kind == NoFees <==> quoted == EMPTY && earlier == EMPTY)
              && (r.kind == Legacy ==>
                    r.snapshot.gasPrice.Some?
                    && BestBid(r.snapshot.gasPrice.value, quoted.gasPrice, earlier.gasPrice, attempt))
              && (r.kind == Eip1559 ==>
                    && r.snapshot.maxFee.Some? && r.snapshot.maxPriority.Some?
                    && BestBid(r.snapshot.maxFee.value, quoted.maxFee, earlier.maxFee, attempt)
                    && BestBid(r.snapshot.maxPriority.value, quoted.maxPriority, earlier.maxPriority, attempt))
  {
    if !(attempt <= 0 && previous.None? && !force) {
      MergeIsBestBid(Quoted(estimate, gasPrice), OrEmpty(previous), attempt);
    }
  }

  /** The first send at a fresh nonce: exactly the estimate, or else exactly the gas price, or
      else no fees; later attempts scale them by exactly 1.15, 1.30, 1.45 and so on. */
  lemma FreshResultIsExact(estimate: Estimate, gasPrice: GasPrice, attempt: int, force: bool)
    requires force || attempt > 0
    ensures var r := ResultForAttempt(estimate, gasPrice, attempt, None, force);
            && (r.kind == Eip1559 <==> FullEstimate(estimate))
            && (r.kind == Legacy <==> !FullEstimate(estimate) && gasPrice.GasPriceIs?)
            && (r.kind == NoFees <==> !FullEstimate(estimate) && gasPrice.GasPriceFailed?)
            && (r.kind == Eip1559 ==>
                  && r.snapshot.maxFee.Some? && r.snapshot.maxPriority.Some?
                  && LeastReaching(r.snapshot.maxFee.value, estimate.maxFee.value * Factor(attempt))
                  && LeastReaching(r.snapshot.maxPriority.value, estimate.maxPriority.value * Factor(attempt)))
            && (r.kind == Legacy ==>
                  r.snapshot.gasPrice.Some?
                  && LeastReaching(r.snapshot.gasPrice.value, gasPrice.wei * Factor(attempt)))
            && (attempt <= 0 && r.kind == Eip1559 ==>
                  r.snapshot == Snapshot(estimate.maxFee, estimate.maxPriority, None))
            && (attempt <= 0 && r.kind == Legacy ==> r.snapshot == Snapshot(None, None, Some(gasPrice.wei)))
  {
    ResultIsExact(estimate, gasPrice, attempt, None, force);
    ResultIsValid(estimate, gasPrice, attempt, None, force);
  }

  /** Over an unresolved earlier submission the new fees replace it, also when every query
      fails, exactly outside the excluded case. */
  lemma ReplacementIsEnough(estimate: Estimate, gasPrice: GasPrice, attempt: int, prev: Snapshot, force: bool)
    requires Priced(prev) && OrderedEstimate(estimate)
    ensures Priced(ResultForAttempt(estimate, gasPrice, attempt, Some(prev), force).snapshot)
    ensures Replaces(prev, ResultForAttempt(estimate, gasPrice, attempt, Some(prev), force).snapshot)
            <==> !Downgrade(estimate, gasPrice, attempt, prev)
  {
    ResultIsValid(estimate, gasPrice, attempt, Some(prev), force);
    if IsEip1559(prev) {
      BumpsMonotone(Tip(prev), Cap(prev), attempt);
      if LegacyEstimate(estimate, gasPrice) {
        var values := [Some(AttemptBump(gasPrice.wei, attempt)), None];
        assert values[0].Some?;
      } else if gasPrice.GasPriceFailed?
          && !(estimate.Estimated? && estimate.maxFee.Some? && estimate.maxPriority.Some?) {
        MergeKeepsPrevious(EMPTY, prev, attempt);
      } else {
        MergeKeepsPrevious(Snapshot(estimate.maxFee, estimate.maxPriority, None), prev, attempt);
      }
    } else {
      if estimate.Estimated? && estimate.maxFee.Some? && estimate.maxPriority.Some? {
        MergeKeepsPrevious(Snapshot(estimate.maxFee, estimate.maxPriority, None), prev, attempt);
      } else if gasPrice.GasPriceIs? {
        MergeKeepsPrevious(Snapshot(None, None, Some(gasPrice.wei)), prev, attempt);
      } else {
        MergeKeepsPrevious(EMPTY, prev, attempt);
      }
    }
  }

  lemma MergeKeepsPrevious(current: Snapshot, prev: Snapshot, attempt: int)
    requires Priced(prev) && WellFormed(current)
    requires IsEip1559(prev) ==> current.gasPrice.None?
    ensures Replaces(prev, Merge(current, prev, attempt))
  {
    MergeWellFormed(current, prev, attempt);
    if IsLegacy(prev) {
      var prices := [BumpAttempt(current.gasPrice, attempt), BumpReplacement(prev.gasPrice)];
      assert prices[1].Some?;
    } else {
      var fees := [BumpAttempt(current.maxFee, attempt), BumpReplacement(prev.maxFee)];
      var tips := [BumpAttempt(current.maxPriority, attempt), BumpReplacement(prev.maxPriority)];
      assert fees[1].Some? && tips[1].Some?;
    }
  }

  /** The excluded case does lose fees: a record at 100 wei followed by a gas price of 1 wei. */
  lemma DowngradeLosesFees()
    ensures var prev := Snapshot(Some(100), Some(10), None);
            var next := ResultForAttempt(EstimateFailed, GasPriceIs(1), 0, Some(prev), true).snapshot;
            next == Snapshot(None, None, Some(1)) && Priced(next) && Cap(next) < Cap(prev) && Tip(next) < Tip(prev)
  {
    var values := [Some(1), None];
    assert values[0].Some?;
    assert MaxPresent(values) == Some(1);
  }

  function Pow(base: nat, e: nat): nat {
    if e == 0 then 1 else base * Pow(base, e - 1)
  }

  /** One bump in lowest terms, and strict growth of positive fees. */
  lemma BumpGrows(value: nat)
    ensures ReplacementBump(value) * 10000 >= value * 11500
    ensures value > 0 ==> ReplacementBump(value) > value
  {
    CeilingIsExact(value, 11500, 10000, 0);
  }
}
