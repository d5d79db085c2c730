/** What the pool's operations promise, stated over the transition functions of module Pool. */
module PoolProperties {
  import opened Pool

  /** A pool created with positive reserves and a fee configuration in range is in good
      standing: its nominal product is exactly the product of the reserves and nothing has
      been earned yet. */
  lemma InitValid(reserveX: real, reserveY: real, fee: real, lpShare: real)
    requires reserveX > 0.0 && reserveY > 0.0
    requires 0.0 <= fee < 1.0 && 0.0 <= lpShare <= 1.0
    ensures Valid(Init(reserveX, reserveY, fee, lpShare))
    ensures Init(reserveX, reserveY, fee, lpShare).k == reserveX * reserveY
    ensures Init(reserveX, reserveY, fee, lpShare).lpEarnings == 0.0
  {
  }

  /** The curve output puts the pool back on the curve: the new input reserve times what is
      left of the output reserve is exactly k. It fails exactly when the new input reserve
      is zero. */
  lemma CurveOutputOnCurve(k: real, inputWithFee: real, inputReserve: real, outputReserve: real)
    ensures var r := CurveOutput(k, inputWithFee, inputReserve, outputReserve);
            && (r.Ok? <==> inputReserve + inputWithFee != 0.0)
            && (r.Err? ==> r.error == ZeroDivision)
            && (r.Ok? ==> (inputReserve + inputWithFee) * (outputReserve - r.value) == k)
  {
    var n := inputReserve + inputWithFee;
    if n != 0.0 {
      assert n * (k / n) == k;
    }
  }

  /** The price is the reserve ratio: price times reserveX gives reserveY. It fails exactly
      when reserveX is zero. */
  lemma PriceIsRatio(s: State)
    ensures Price(s).Ok? <==> s.reserveX != 0.0
    ensures Price(s).Err? ==> Price(s).error == ZeroDivision
    ensures Price(s).Ok? ==> Price(s).value * s.reserveX == s.reserveY
  {
  }

  /** Any label other than exactly "X" or "Y" is rejected before anything changes. */
  lemma SwapRejectsUnknownToken(s: State, amount: real, token: string)
    requires token != "X" && token != "Y"
    ensures Swap(s, amount, token) == (s, Err(InvalidToken))
  {
  }

  /** The comparison is case-sensitive: the lower-case labels are rejected too. */
  lemma SwapIsCaseSensitive(s: State, amount: real)
    ensures Swap(s, amount, "x") == (s, Err(InvalidToken))
    ensures Swap(s, amount, "y") == (s, Err(InvalidToken))
  {
    assert "x" != "X" && "x" != "Y" by { assert "x"[0] != "X"[0] && "x"[0] != "Y"[0]; }
    assert "y" != "X" && "y" != "Y" by { assert "y"[0] != "X"[0] && "y"[0] != "Y"[0]; }
  }

  /** No swap changes the nominal product, the fee rate or the LP share. Every accepted
      label credits the LPs with exactly amount * fee * lpShare, even when the division
      then fails; a rejected label credits nothing. */
  lemma SwapCreditsLp(s: State, amount: real, token: string)
    ensures Swap(s, amount, token).0.k == s.k
    ensures Swap(s, amount, token).0.fee == s.fee
    ensures Swap(s, amount, token).0.lpShare == s.lpShare
    ensures Swap(s, amount, token).0.lpEarnings == s.lpEarnings
              + (if token == "X" || token == "Y" then amount * s.fee * s.lpShare else 0.0)
  {
  }

  /** How a swap with an accepted label is put together. Its result is the curve output at
      the reserves as they were BEFORE the fee was distributed. When that succeeds, both
      reserves have been topped up by TopUp (decided by reserveX < reserveY before the swap,
      whichever token comes in), then the input is added to the input side and the output
      taken from the other. When it fails, the fee has still been distributed. */
  lemma SwapShape(s: State, amount: real, token: string)
    requires token == "X" || token == "Y"
    ensures token == "X" ==> Swap(s, amount, token).1 == CurveOutput(s.k, amount * (1.0 - s.fee), s.reserveX, s.reserveY)
    ensures token == "Y" ==> Swap(s, amount, token).1 == CurveOutput(s.k, amount * (1.0 - s.fee), s.reserveY, s.reserveX)
    ensures Swap(s, amount, token).1.Ok? && token == "X" ==>
              && Swap(s, amount, token).0.reserveX == s.reserveX + TopUp(s, amount * s.fee) + amount
              && Swap(s, amount, token).0.reserveY == s.reserveY + TopUp(s, amount * s.fee) - Swap(s, amount, token).1.value
    ensures Swap(s, amount, token).1.Ok? && token == "Y" ==>
              && Swap(s, amount, token).0.reserveX == s.reserveX + TopUp(s, amount * s.fee) - Swap(s, amount, token).1.value
              && Swap(s, amount, token).0.reserveY == s.reserveY + TopUp(s, amount * s.fee) + amount
    ensures Swap(s, amount, token).1.Err? ==> Swap(s, amount, token).0 == DistributeFee(s, amount * s.fee)
  {
    if token == "X" {
      SwapXShape(s, amount);
    } else {
      SwapYShape(s, amount);
    }
  }

  /** SwapShape for X coming in. */
  lemma SwapXShape(s: State, amount: real)
    ensures Swap(s, amount, "X").1 == CurveOutput(s.k, amount * (1.0 - s.fee), s.reserveX, s.reserveY)
    ensures Swap(s, amount, "X").1.Ok? ==>
              && Swap(s, amount, "X").0.reserveX == s.reserveX + TopUp(s, amount * s.fee) + amount
              && Swap(s, amount, "X").0.reserveY == s.reserveY + TopUp(s, amount * s.fee) - Swap(s, amount, "X").1.value
    ensures Swap(s, amount, "X").1.Err? ==> Swap(s, amount, "X").0 == DistributeFee(s, amount * s.fee)
  {
  }

  /** SwapShape for Y coming in. */
  lemma SwapYShape(s: State, amount: real)
    ensures Swap(s, amount, "Y").1 == CurveOutput(s.k, amount * (1.0 - s.fee), s.reserveY, s.reserveX)
    ensures Swap(s, amount, "Y").1.Ok? ==>
              && Swap(s, amount, "Y").0.reserveX == s.reserveX + TopUp(s, amount * s.fee) - Swap(s, amount, "Y").1.value
              && Swap(s, amount, "Y").0.reserveY == s.reserveY + TopUp(s, amount * s.fee) + amount
    ensures Swap(s, amount, "Y").1.Err? ==> Swap(s, amount, "Y").0 == DistributeFee(s, amount * s.fee)
  {
    assert "Y" != "X" by { assert "Y"[0] != "X"[0]; }
  }

  /** A swap whose fee-adjusted input reserve is zero fails with a division by zero, but
      only after the fee has been distributed: the LPs are credited and the top-up stays. */
  lemma SwapZeroDivision(s: State, amount: real, token: string)
    requires token == "X" || token == "Y"
    requires var inR := if token == "X" then s.reserveX else s.reserveY;
             inR + amount * (1.0 - s.fee) == 0.0
    ensures Swap(s, amount, token).1 == Err(ZeroDivision)
    ensures Swap(s, amount, token).0 == DistributeFee(s, amount * s.fee)
  {
  }

  /** The product of non-negative reals is non-negative. */
  lemma ProductNonNegative(a: real, b: real)
    requires a >= 0.0 && b >= 0.0
    ensures a * b >= 0.0
  {
  }

  /** a / b < c / d for positive denominators when a * d < c * b. */
  lemma QuotientLess(a: real, b: real, c: real, d: real)
    requires b > 0.0 && d > 0.0
    requires a * d < c * b
    ensures a / b < c / d
  {
    assert a / b == (a * d) / (b * d);
    assert c / d == (c * b) / (b * d);
  }

  /** The fee arithmetic of one swap: the fee-adjusted input is positive and at most the
      input, and the top-up and the LP credit are non-negative. */
  lemma FeeParts(amount: real, fee: real, lpShare: real)
    requires amount > 0.0 && 0.0 <= fee < 1.0 && 0.0 <= lpShare <= 1.0
    ensures 0.0 < amount * (1.0 - fee) <= amount
    ensures amount * fee * (1.0 - lpShare) / 2.0 >= 0.0
    ensures amount * fee * lpShare >= 0.0
  {
    ProductNonNegative(amount, fee);
    ProductNonNegative(amount * fee, 1.0 - lpShare);
    ProductNonNegative(amount * fee, lpShare);
    assert amount - amount * (1.0 - fee) == amount * fee;
  }

  /** The top-up is never negative when the fee collected is not and the LP share is at most 1. */
  lemma TopUpNonNegative(s: State, feeCollected: real)
    requires feeCollected >= 0.0 && s.lpShare <= 1.0
    ensures TopUp(s, feeCollected) >= 0.0
  {
    ProductNonNegative(feeCollected, 1.0 - s.lpShare);
  }

  /** The arithmetic of one swap into a pool in good standing, for a positive input and a
      positive input-side reserve inR: the fee parts are in range, and the curve output
      exists and puts the pool on the curve. */
  lemma SwapArithmetic(s: State, amount: real, inR: real, outR: real)
    requires Valid(s) && amount > 0.0 && inR > 0.0
    ensures 0.0 < amount * (1.0 - s.fee) <= amount && TopUp(s, amount * s.fee) >= 0.0
    ensures amount * s.fee * s.lpShare >= 0.0
    ensures CurveOutput(s.k, amount * (1.0 - s.fee), inR, outR).Ok?
    ensures (inR + amount * (1.0 - s.fee)) * (outR - CurveOutput(s.k, amount * (1.0 - s.fee), inR, outR).value) == s.k
  {
    FeeParts(amount, s.fee, s.lpShare);
    TopUpNonNegative(s, amount * s.fee);
    CurveOutputOnCurve(s.k, amount * (1.0 - s.fee), inR, outR);
  }

  /** b is positive when a positive a times b is positive. */
  lemma PositiveFactor(a: real, b: real, c: real)
    requires a > 0.0 && c > 0.0 && a * b == c
    ensures b > 0.0
  {
    if b <= 0.0 {
      ProductNonNegative(a, -b);
      assert false;
    }
  }

  /** A positive factor can be cancelled from a strict inequality. */
  lemma FactorLess(a: real, b: real, c: real)
    requires a > 0.0 && a * b < a * c
    ensures b < c
  {
    if b >= c {
      ProductNonNegative(a, b - c);
      assert false;
    }
  }

  /** The product of positive reals grows with each factor. */
  lemma ProductMonotone(a: real, b: real, c: real, d: real)
    requires a >= b > 0.0 && c >= d > 0.0
    ensures a * c >= b * d
  {
    ProductNonNegative(a - b, c);
    ProductNonNegative(b, c - d);
    assert a * c - b * d == (a - b) * c + b * (c - d);
  }

  /** One side of a swap on the curve: with positive reserves covering k, a positive
      fee-adjusted input w no larger than the full input, a non-negative top-up t, and an
      output that puts inR + w and outR - out on the curve, the output is strictly between
      0 and outR, and the new reserves inR' and outR' are positive and still cover k. */
  lemma CurveStep(k: real, inR: real, outR: real, w: real, amount: real, t: real,
                  out: real, inR': real, outR': real)
    requires inR > 0.0 && outR > 0.0 && k > 0.0 && inR * outR >= k
    requires 0.0 < w <= amount && t >= 0.0
    requires (inR + w) * (outR - out) == k
    requires inR' == inR + t + amount && outR' == outR + t - out
    ensures 0.0 < out < outR
    ensures inR' > 0.0 && outR' > 0.0
    ensures inR' * outR' >= k && outR' * inR' >= k
  {
    var n := inR + w;
    var m := outR - out;
    PositiveFactor(n, m, k);
    assert n * outR == inR * outR + w * outR;
    ProductNonNegative(w, outR);
    assert w * outR > 0.0 by { PositiveFactor(outR, w, w * outR); }
    FactorLess(n, m, outR);
    ProductMonotone(inR', n, outR', m);
    assert outR' * inR' == inR' * outR';
  }

  /** CurveStep read on states, for X coming in: s' is s after the top-up t, the input and
      the output, with the configuration kept and the LP earnings not lowered. */
  lemma XInStep(s: State, amount: real, w: real, t: real, out: real, s': State)
    requires Valid(s) && 0.0 < w <= amount && t >= 0.0
    requires (s.reserveX + w) * (s.reserveY - out) == s.k
    requires s'.reserveX == s.reserveX + t + amount && s'.reserveY == s.reserveY + t - out
    requires s'.k == s.k && s'.fee == s.fee && s'.lpShare == s.lpShare && s'.lpEarnings >= s.lpEarnings
    ensures 0.0 < out < s.reserveY
    ensures Valid(s')
  {
    CurveStep(s.k, s.reserveX, s.reserveY, w, amount, t, out, s'.reserveX, s'.reserveY);
  }

  /** XInStep with the roles of the reserves exchanged, for Y coming in. */
  lemma YInStep(s: State, amount: real, w: real, t: real, out: real, s': State)
    requires Valid(s) && 0.0 < w <= amount && t >= 0.0
    requires (s.reserveY + w) * (s.reserveX - out) == s.k
    requires s'.reserveX == s.reserveX + t - out && s'.reserveY == s.reserveY + t + amount
    requires s'.k == s.k && s'.fee == s.fee && s'.lpShare == s.lpShare && s'.lpEarnings >= s.lpEarnings
    ensures 0.0 < out < s.reserveX
    ensures Valid(s')
  {
    assert s.reserveY * s.reserveX == s.reserveX * s.reserveY;
    CurveStep(s.k, s.reserveY, s.reserveX, w, amount, t, out, s'.reserveY, s'.reserveX);
  }

  /** With a positive input into a pool in good standing, the swap succeeds, its output is
      strictly between 0 and the output-side reserve before the swap, and the pool stays in
      good standing: both reserves positive and their product still at least k. */
  lemma SwapPreservesValid(s: State, amount: real, token: string)
    requires Valid(s) && amount > 0.0
    requires token == "X" || token == "Y"
    ensures Swap(s, amount, token).1.Ok?
    ensures 0.0 < Swap(s, amount, token).1.value < (if token == "X" then s.reserveY else s.reserveX)
    ensures Valid(Swap(s, amount, token).0)
    ensures Swap(s, amount, token).0.k == s.k && Swap(s, amount, token).0.fee == s.fee
    ensures Swap(s, amount, token).0.lpShare == s.lpShare
  {
    SwapCreditsLp(s, amount, token);
    if token == "X" {
      SwapXPreservesValid(s, amount);
    } else {
      SwapYPreservesValid(s, amount);
    }
  }

  /** SwapPreservesValid for X coming in. */
  lemma SwapXPreservesValid(s: State, amount: real)
    requires Valid(s) && amount > 0.0
    ensures Swap(s, amount, "X").1.Ok?
    ensures 0.0 < Swap(s, amount, "X").1.value < s.reserveY
    ensures Valid(Swap(s, amount, "X").0)
  {
    SwapXShape(s, amount);
    SwapCreditsLp(s, amount, "X");
    SwapArithmetic(s, amount, s.reserveX, s.reserveY);
    XInStep(s, amount, amount * (1.0 - s.fee), TopUp(s, amount * s.fee),
            Swap(s, amount, "X").1.value, Swap(s, amount, "X").0);
  }

  /** SwapPreservesValid for Y coming in. */
  lemma SwapYPreservesValid(s: State, amount: real)
    requires Valid(s) && amount > 0.0
    ensures Swap(s, amount, "Y").1.Ok?
    ensures 0.0 < Swap(s, amount, "Y").1.value < s.reserveX
    ensures Valid(Swap(s, amount, "Y").0)
  {
    SwapYShape(s, amount);
    SwapCreditsLp(s, amount, "Y");
    SwapArithmetic(s, amount, s.reserveY, s.reserveX);
    YInStep(s, amount, amount * (1.0 - s.fee), TopUp(s, amount * s.fee),
            Swap(s, amount, "Y").1.value, Swap(s, amount, "Y").0);
  }

  /** The arithmetic behind XSwapLowersPrice: adding t to both reserves, the input to x and
      taking a positive output from y lowers y / x, provided t is zero or x < y. */
  lemma RatioDrops(x: real, y: real, t: real, amount: real, out: real)
    requires x > 0.0 && y > 0.0 && amount > 0.0 && out > 0.0 && t >= 0.0
    requires x < y || t == 0.0
    ensures (y + t - out) / (x + t + amount) < y / x
  {
    var a, b := y + t - out, x + t + amount;
    assert (y - x) * t >= 0.0 by {
      if x < y {
        ProductNonNegative(y - x, t);
      }
    }
    assert x * out > 0.0;
    assert y * amount > 0.0;
    assert y * b - a * x == (y - x) * t + x * out + y * amount;
    QuotientLess(a, b, y, x);
  }

  /** Selling X into a pool in good standing strictly lowers the price of X in units of Y,
      with or without the top-up. */
  lemma XSwapLowersPrice(s: State, amount: real)
    requires Valid(s) && amount > 0.0
    ensures Price(Swap(s, amount, "X").0).Ok?
    ensures Price(Swap(s, amount, "X").0).value < Price(s).value
  {
    SwapPreservesValid(s, amount, "X");
    SwapXShape(s, amount);
    SwapArithmetic(s, amount, s.reserveX, s.reserveY);
    RatioDrops(s.reserveX, s.reserveY, TopUp(s, amount * s.fee), amount, Swap(s, amount, "X").1.value);
  }

  /** Because the top-up depends only on reserveX < reserveY, buying X with Y can LOWER the
      price of X: in a pool of 1 X and 10000 Y with the default fee and LP share, swapping
      in 1 Y adds more to reserveY (top-up plus input) than it gains back in price from
      the X it takes out. */
  lemma YSwapCanLowerPrice()
    ensures Valid(Init(1.0, 10000.0, DefaultFee, DefaultLpShare))
    ensures Price(Swap(Init(1.0, 10000.0, DefaultFee, DefaultLpShare), 1.0, "Y").0).Ok?
    ensures Price(Swap(Init(1.0, 10000.0, DefaultFee, DefaultLpShare), 1.0, "Y").0).value
              < Price(Init(1.0, 10000.0, DefaultFee, DefaultLpShare)).value
  {
    var s := Init(1.0, 10000.0, DefaultFee, DefaultLpShare);
    SwapYShape(s, 1.0);
    assert TopUp(s, 1.0 * s.fee) == 0.00075;
    var q := 10000.0 / 10000.997;
    assert CurveOutput(s.k, 1.0 * (1.0 - s.fee), s.reserveY, s.reserveX) == Ok(1.0 - q);
    var s' := Swap(s, 1.0, "Y").0;
    assert q > 0.9999;
    assert s'.reserveX == 1.00075 - (1.0 - q);
    assert s'.reserveY == 10001.00075;
    assert s'.reserveX > 1.00065;
    QuotientLess(s'.reserveY, s'.reserveX, 10000.0, 1.0);
  }

  /** The total input of the trades whose label swap accepts. */
  function AcceptedInput(trades: seq<Trade>): real
    decreases |trades|
  {
    if trades == [] then 0.0
    else
      var head := if trades[0].token == "X" || trades[0].token == "Y" then trades[0].amount else 0.0;
      head + AcceptedInput(trades[1..])
  }

  /** The LP credit of a sequence of trades: amount * fee * lpShare for each trade whose
      label swap accepts. */
  function LpCredit(trades: seq<Trade>, fee: real, lpShare: real): real
    decreases |trades|
  {
    if trades == [] then 0.0
    else
      var head := if trades[0].token == "X" || trades[0].token == "Y" then trades[0].amount * fee * lpShare else 0.0;
      head + LpCredit(trades[1..], fee, lpShare)
  }

  /** The LP credit is fee * lpShare times the accepted input. */
  lemma {:induction false} LpCreditIsProportional(trades: seq<Trade>, fee: real, lpShare: real)
    ensures LpCredit(trades, fee, lpShare) == fee * lpShare * AcceptedInput(trades)
    decreases |trades|
  {
    if trades != [] {
      LpCreditIsProportional(trades[1..], fee, lpShare);
      var a := if trades[0].token == "X" || trades[0].token == "Y" then trades[0].amount else 0.0;
      assert fee * lpShare * (a + AcceptedInput(trades[1..]))
          == a * fee * lpShare + fee * lpShare * AcceptedInput(trades[1..]);
    }
  }

  /** A sequence of swaps never changes the configuration, and the LPs have been credited
      exactly amount * fee * lpShare for each trade whose label was accepted. */
  lemma {:induction false} RunCreditsLp(s: State, trades: seq<Trade>)
    ensures Run(s, trades).k == s.k
    ensures Run(s, trades).fee == s.fee
    ensures Run(s, trades).lpShare == s.lpShare
    ensures Run(s, trades).lpEarnings == s.lpEarnings + LpCredit(trades, s.fee, s.lpShare)
    decreases |trades|
  {
    if trades != [] {
      var next := Swap(s, trades[0].amount, trades[0].token).0;
      SwapCreditsLp(s, trades[0].amount, trades[0].token);
      RunCreditsLp(next, trades[1..]);
      CreditStep(s, next, trades, Run(next, trades[1..]));
    }
  }

  /** The step of RunCreditsLp: when the first trade took s to next, crediting the LPs as a
      swap does, and the rest of the trades took next to r, crediting their LP credit, then
      r is s with the whole LP credit of the trades added. */
  lemma CreditStep(s: State, next: State, trades: seq<Trade>, r: State)
    requires trades != []
    requires next.k == s.k && next.fee == s.fee && next.lpShare == s.lpShare
    requires next.lpEarnings == s.lpEarnings
               + (if trades[0].token == "X" || trades[0].token == "Y" then trades[0].amount * s.fee * s.lpShare else 0.0)
    requires r.k == next.k && r.fee == next.fee && r.lpShare == next.lpShare
    requires r.lpEarnings == next.lpEarnings + LpCredit(trades[1..], next.fee, next.lpShare)
    ensures r.k == s.k && r.fee == s.fee && r.lpShare == s.lpShare
    ensures r.lpEarnings == s.lpEarnings + LpCredit(trades, s.fee, s.lpShare)
  {
    LpCreditHead(trades, s.fee, s.lpShare);
  }

  /** LpCredit unfolded once: the credit of the first trade plus that of the rest. */
  lemma LpCreditHead(trades: seq<Trade>, fee: real, lpShare: real)
    requires trades != []
    ensures LpCredit(trades, fee, lpShare)
              == (if trades[0].token == "X" || trades[0].token == "Y" then trades[0].amount * fee * lpShare else 0.0)
                 + LpCredit(trades[1..], fee, lpShare)
  {
  }

  /** The LP credit of trades with non-negative amounts is non-negative when the fee rate
      and the LP share are. */
  lemma {:induction false} LpCreditNonNegative(trades: seq<Trade>, fee: real, lpShare: real)
    requires 0.0 <= fee && 0.0 <= lpShare
    requires forall i :: 0 <= i < |trades| ==> trades[i].amount >= 0.0
    ensures LpCredit(trades, fee, lpShare) >= 0.0
    decreases |trades|
  {
    if trades != [] {
      ProductNonNegative(trades[0].amount, fee);
      ProductNonNegative(trades[0].amount * fee, lpShare);
      LpCreditNonNegative(trades[1..], fee, lpShare);
    }
  }

  /** LP earnings never decrease over trades with non-negative amounts. */
  lemma LpEarningsNeverDecrease(s: State, trades: seq<Trade>)
    requires 0.0 <= s.fee && 0.0 <= s.lpShare
    requires forall i :: 0 <= i < |trades| ==> trades[i].amount >= 0.0
    ensures Run(s, trades).lpEarnings >= s.lpEarnings
  {
    RunCreditsLp(s, trades);
    LpCreditNonNegative(trades, s.fee, s.lpShare);
  }

  /** A pool in good standing stays in good standing over any sequence of swaps with
      positive amounts, whatever labels they carry. */
  lemma {:induction false} RunPreservesValid(s: State, trades: seq<Trade>)
    requires Valid(s)
    requires forall i :: 0 <= i < |trades| ==> trades[i].amount > 0.0
    ensures Valid(Run(s, trades))
    decreases |trades|
  {
    if trades != [] {
      var t := trades[0];
      if t.token == "X" || t.token == "Y" {
        SwapPreservesValid(s, t.amount, t.token);
      } else {
        SwapRejectsUnknownToken(s, t.amount, t.token);
      }
      RunPreservesValid(Swap(s, t.amount, t.token).0, trades[1..]);
    }
  }
}
