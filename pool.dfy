/** The state of a two-reserve constant-product pool and the pure transitions that
    the TokenSwap class performs on it, one function per method of the class.
    Quantities are exact reals: the floating-point rounding of the original is not modelled. */
module Pool {

  /** Default swap fee rate and default share of each fee credited to liquidity providers. */
  const DefaultFee: real := 0.003
  const DefaultLpShare: real := 0.5

  /** Every field of a TokenSwap object. `k` is the nominal product fixed at creation. */
  datatype State = State(
    reserveX: real,
    reserveY: real,
    k: real,
    fee: real,
    lpShare: real,
    lpEarnings: real)

  /** The two ways a call can fail: an unrecognised token label (a ValueError in the
      original) and a division whose divisor is zero (a ZeroDivisionError). */
  datatype PoolError = InvalidToken | ZeroDivision

  datatype Result = Ok(value: real) | Err(error: PoolError)

  /** A pool in good standing: positive reserves, a positive nominal product that the
      reserves still cover, a fee rate in [0, 1), an LP share in [0, 1], and
      non-negative LP earnings. */
  predicate Valid(s: State) {
    && s.reserveX > 0.0
    && s.reserveY > 0.0
    && s.k > 0.0
    && s.reserveX * s.reserveY >= s.k
    && 0.0 <= s.fee < 1.0
    && 0.0 <= s.lpShare <= 1.0
    && s.lpEarnings >= 0.0
  }

  /** The freshly constructed pool. */
  function Init(reserveX: real, reserveY: real, fee: real, lpShare: real): State {
    State(reserveX, reserveY, reserveX * reserveY, fee, lpShare, 0.0)
  }

  /** The amount added to EACH reserve when a fee is distributed: half of the pool's
      part of the fee, but only when reserveX < reserveY at that moment; otherwise none. */
  function TopUp(s: State, feeCollected: real): real {
    if s.reserveX < s.reserveY then feeCollected * (1.0 - s.lpShare) / 2.0 else 0.0
  }

  /** distribute_fee: credit the LPs, then top up both reserves (or drop the pool's part). */
  function DistributeFee(s: State, feeCollected: real): State {
    var t := TopUp(s, feeCollected);
    s.(lpEarnings := s.lpEarnings + feeCollected * s.lpShare,
       reserveX := s.reserveX + t,
       reserveY := s.reserveY + t)
  }

  /** The output of the curve y = k / x: the point reached after `inputWithFee` is added to
      `inputReserve` lies on the curve, and the caller receives what separates `outputReserve`
      from it. Fails when the new input reserve is zero. */
  function CurveOutput(k: real, inputWithFee: real, inputReserve: real, outputReserve: real): Result {
    var newInputReserve := inputReserve + inputWithFee;
    if newInputReserve == 0.0 then Err(ZeroDivision)
    else Ok(outputReserve - k / newInputReserve)
  }

  /** get_output_amount: distributes the fee first (changing the state), then evaluates the
      curve at the reserves the caller passed in. The division fails after the fee was
      already distributed, so the failing call still returns the changed state. */
  function GetOutputAmount(s: State, amount: real, inputReserve: real, outputReserve: real): (State, Result) {
    var inputWithFee := amount * (1.0 - s.fee);
    var feeCollected := amount * s.fee;
    var s' := DistributeFee(s, feeCollected);
    (s', CurveOutput(s.k, inputWithFee, inputReserve, outputReserve))
  }

  /** swap: only the exact labels "X" and "Y" are accepted. The reserves are read before
      the fee is distributed; the input and output are applied to the topped-up reserves. */
  function Swap(s: State, amount: real, token: string): (State, Result) {
    if token == "X" then
      var (s', r) := GetOutputAmount(s, amount, s.reserveX, s.reserveY);
      if r.Err? then (s', r)
      else (s'.(reserveX := s'.reserveX + amount, reserveY := s'.reserveY - r.value), r)
    else if token == "Y" then
      var (s', r) := GetOutputAmount(s, amount, s.reserveY, s.reserveX);
      if r.Err? then (s', r)
      else (s'.(reserveY := s'.reserveY + amount, reserveX := s'.reserveX - r.value), r)
    else
      (s, Err(InvalidToken))
  }

  /** get_price: the price of X in units of Y, the reserve ratio. */
  function Price(s: State): Result {
    if s.reserveX == 0.0 then Err(ZeroDivision) else Ok(s.reserveY / s.reserveX)
  }

  /** One call of swap as issued by a caller of the pool. */
  datatype Trade = Trade(amount: real, token: string)

  /** The state after a sequence of swap calls, each applied to the state the previous left. */
  function Run(s: State, trades: seq<Trade>): State
    decreases |trades|
  {
    if trades == [] then s
    else Run(Swap(s, trades[0].amount, trades[0].token).0, trades[1..])
  }
}
