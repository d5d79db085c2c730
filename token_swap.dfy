/** The TokenSwap class: the pool object whose methods update its reserves and LP earnings
    in place. Each method is proved to leave exactly the state the matching function of
    module Pool describes. */
module Swapper {
  import opened Pool

  class TokenSwap {
    var reserveX: real
    var reserveY: real
    var k: real
    var fee: real
    var lpShare: real
    var lpEarnings: real

    /** The object's fields as a value. */
    function State(): Pool.State
      reads this
    {
      Pool.State(reserveX, reserveY, k, fee, lpShare, lpEarnings)
    }

    constructor (reserveX: real, reserveY: real, fee: real := DefaultFee, lpShare: real := DefaultLpShare)
      ensures State() == Init(reserveX, reserveY, fee, lpShare)
      ensures k == reserveX * reserveY && lpEarnings == 0.0
    {
      this.reserveX := reserveX;
      this.reserveY := reserveY;
      this.k := reserveX * reserveY;
      this.fee := fee;
      this.lpShare := lpShare;
      this.lpEarnings := 0.0;
    }

    method Swap(amount: real, token: string) returns (r: Result)
      modifies this
      ensures (State(), r) == Pool.Swap(old(State()), amount, token)
      ensures token != "X" && token != "Y" ==> r == Err(InvalidToken) && State() == old(State())
      ensures k == old(k) && fee == old(fee) && lpShare == old(lpShare)
    {
      if token == "X" {
        r := GetOutputAmount(amount, reserveX, reserveY);
        if r.Err? {
          return;
        }
        reserveX := reserveX + amount;
        reserveY := reserveY - r.value;
      } else if token == "Y" {
        r := GetOutputAmount(amount, reserveY, reserveX);
        if r.Err? {
          return;
        }
        reserveY := reserveY + amount;
        reserveX := reserveX - r.value;
      } else {
        r := Err(InvalidToken);
      }
    }

    method GetOutputAmount(amount: real, inputReserve: real, outputReserve: real) returns (r: Result)
      modifies this
      ensures (State(), r) == Pool.GetOutputAmount(old(State()), amount, inputReserve, outputReserve)
      ensures r.Ok? ==> (inputReserve + amount * (1.0 - fee)) * (outputReserve - r.value) == k
    {
      var inputWithFee := amount * (1.0 - fee);
      var feeCollected := amount * fee;
      DistributeFee(feeCollected);
      var newInputReserve := inputReserve + inputWithFee;
      if newInputReserve == 0.0 {
        r := Err(ZeroDivision);
      } else {
        var newOutputReserve := k / newInputReserve;
        r := Ok(outputReserve - newOutputReserve);
      }
      ghost var expected := Pool.GetOutputAmount(old(State()), amount, inputReserve, outputReserve);
      assert expected.1 == r && expected.0 == State();
    }

    method DistributeFee(feeCollected: real)
      modifies this
      ensures State() == Pool.DistributeFee(old(State()), feeCollected)
      ensures k == old(k) && fee == old(fee) && lpShare == old(lpShare)
      ensures lpEarnings == old(lpEarnings) + feeCollected * lpShare
      ensures reserveX - old(reserveX) == reserveY - old(reserveY) == TopUp(old(State()), feeCollected)
    {
      var lpPayment := feeCollected * lpShare;
      lpEarnings := lpEarnings + lpPayment;
      var reservePayment := feeCollected * (1.0 - lpShare);
      if reserveX < reserveY {
        reserveX := reserveX + reservePayment / 2.0;
        reserveY := reserveY + reservePayment / 2.0;
      }
    }

    function GetPrice(): (r: Result)
      reads this
      ensures r == Price(State())
      ensures r.Ok? ==> r.value * reserveX == reserveY
    {
      Price(State())
    }
  }

  /** The first trade a session of the original script could make: a pool of 10000 X and
      10000 Y with the default fee and LP share, then 1000 X swapped in. The reserves are
      equal when the fee is distributed, so nothing is topped up. */
  method ScriptFirstSwap() returns (output: real, reserveX: real, reserveY: real, lpEarnings: real)
    ensures output == 9970000.0 / 10997.0
    ensures reserveX == 11000.0
    ensures reserveY == 100000000.0 / 10997.0
    ensures lpEarnings == 1.5
  {
    var pool := new TokenSwap(10000.0, 10000.0);
    var r := pool.Swap(1000.0, "X");
    assert r == Ok(10000.0 - 100000000.0 / 10997.0);
    output := r.value;
    reserveX, reserveY, lpEarnings := pool.reserveX, pool.reserveY, pool.lpEarnings;
  }
}
