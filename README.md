# TokenSwap: a verified model of a constant-product pool

TokenSwap is a small automated market maker. It holds two reserves, X and Y, and a nominal
product `k = reserveX * reserveY` fixed when the pool is created. A swap charges a fee on the
input. It credits a share of that fee to the liquidity providers (LPs), and tops up both
reserves with half of the rest each when reserveX < reserveY; otherwise the pool's part of the
fee is dropped. It pays out what the curve `y = k / x` gives for the fee-adjusted input, then
adds the whole input to one reserve and takes the output from the other. The price is the
ratio reserveY / reserveX: the amount of Y one unit of X is worth, called "the price of X
in units of Y" throughout the model. The original prints this same value under the label
"Price of Y (in X)" (TokenSwap.py:50); the ratio itself is not inverted.

The model has three modules:

- `Pool` (pool.dfy) holds the pool state as a value and one pure transition function per
  method of the class: `Init`, `DistributeFee` with its `TopUp`, `CurveOutput`,
  `GetOutputAmount`, `Swap` and `Price`. `Run` applies a sequence of swap calls.
- `Swapper` (token_swap.dfy) holds the `TokenSwap` class. Its fields are updated in place by
  `Swap`, `GetOutputAmount` and `DistributeFee`, and each method is proved to leave exactly
  the state, and return exactly the result, that the matching `Pool` function describes.
- `PoolProperties` (properties.dfy) proves what the pool promises about those functions.

Quantities are exact reals. A failing call returns `Err`: `InvalidToken` for the ValueError
raised on an unknown label, and `ZeroDivision` for Python's ZeroDivisionError. The ordering of
the original is kept exactly, in four steps:

1. `swap` reads the reserves before anything changes.
2. `get_output_amount` distributes the fee. This may top up the reserve fields.
3. The output is computed from the reserves read in step 1.
4. The input and the output are applied to the topped-up fields.

Because the division comes after the fee distribution, a swap that divides by zero still
leaves the LP credit and the top-up in place. The model returns that changed state with the
error.

The code has no amount check, and the model adds none. Positivity of the input appears only
as a precondition of the lemmas that need it.

## Model

| member | source | states |
|---|---|---|
| Swapper.TokenSwap.constructor | TokenSwap.py:5-11 | the new object's fields are the given reserves, `k` = reserveX * reserveY, the given (or default 0.003 and 0.5) fee and LP share, and LP earnings 0 |
| Swapper.TokenSwap.Swap | TokenSwap.py:13-24 | the new fields and the result are those of `Pool.Swap` on the old fields; an unknown label returns `Err(InvalidToken)` with every field unchanged; `k`, fee and LP share never change |
| Swapper.TokenSwap.GetOutputAmount | TokenSwap.py:26-32 | the new fields and result are those of `Pool.GetOutputAmount`; a successful result puts inputReserve + fee-adjusted input and outputReserve - output on the curve (their product is `k`) |
| Swapper.TokenSwap.DistributeFee | TokenSwap.py:34-40 | LP earnings grow by exactly feeCollected * lpShare; both reserves grow by the same top-up, feeCollected * (1 - lpShare) / 2 when reserveX < reserveY and 0 otherwise; `k`, fee and LP share are unchanged |
| Swapper.TokenSwap.GetPrice | TokenSwap.py:42-43 | the price times reserveX is reserveY; a zero reserveX gives `Err(ZeroDivision)` |
| Swapper.ScriptFirstSwap | TokenSwap.py:69-73 | in the script's start pool (10000/10000, default fee and LP share), swapping in 1000 X pays out 9970000/10997 Y, leaves reserveX = 11000 (no top-up, since the reserves are equal) and reserveY = 100000000/10997, and credits 1.5 to the LPs |
| PoolProperties.InitValid | TokenSwap.py:5-11 | a pool created with positive reserves and fee settings in range is in good standing, with `k` the product of the reserves and nothing earned yet |
| PoolProperties.CurveOutputOnCurve | TokenSwap.py:30-32 | the curve output succeeds exactly when the new input reserve is non-zero, fails only with a division by zero, and puts the new input reserve and the remaining output reserve exactly on the curve |
| PoolProperties.PriceIsRatio | TokenSwap.py:42-43 | the price exists exactly when reserveX is non-zero and then times reserveX gives reserveY |
| PoolProperties.SwapRejectsUnknownToken | TokenSwap.py:13-23 | any label other than exactly "X" or "Y" fails with `InvalidToken` and leaves the state unchanged |
| PoolProperties.SwapIsCaseSensitive | TokenSwap.py:14-23 | the lower-case labels "x" and "y" are rejected as well |
| PoolProperties.SwapCreditsLp | TokenSwap.py:26-40 | no swap changes `k`, the fee or the LP share; an accepted label credits the LPs with exactly amount * fee * lpShare (even when the division then fails), a rejected one credits nothing |
| PoolProperties.SwapShape | TokenSwap.py:13-32 | the output is the curve output at the reserves read BEFORE the fee distribution, with the roles exchanged for "Y"; on success the new reserves are the old ones plus the top-up, plus the input on the input side and minus the output on the other; on failure the state is that after the fee distribution |
| PoolProperties.SwapXShape | TokenSwap.py:15-17 | SwapShape for X coming in: the output is the curve output at the pre-fee reserveX and reserveY; on success reserveX gains the top-up and the input, reserveY gains the top-up and loses the output |
| PoolProperties.SwapYShape | TokenSwap.py:19-21 | SwapShape for Y coming in, with the roles of the reserves exchanged; the top-up is still decided by reserveX < reserveY |
| PoolProperties.SwapZeroDivision | TokenSwap.py:26-31 | when the input-side reserve plus the fee-adjusted input is zero, the swap fails with a division by zero and leaves the state after the fee distribution |
| PoolProperties.TopUpNonNegative | TokenSwap.py:37-40 | the top-up is never negative for a non-negative fee and an LP share of at most 1 |
| PoolProperties.SwapArithmetic | TokenSwap.py:27-32 | for a positive input into a pool in good standing, the fee-adjusted input is positive and at most the input, the top-up and the LP credit are non-negative, and the curve output exists and lies on the curve |
| PoolProperties.CurveStep | TokenSwap.py:30-32 | a point on the curve reached by a positive fee-adjusted input pays out strictly between 0 and the output reserve, and adding the full input and any non-negative top-up keeps both reserves positive and their product at least `k` |
| PoolProperties.SwapPreservesValid | TokenSwap.py:13-40 | for a positive input into a pool in good standing, a swap on either label succeeds, pays out strictly between 0 and the output-side reserve, and keeps the pool in good standing (reserves positive, product at least the unchanged `k`, fee and LP share unchanged and in range, LP earnings non-negative) |
| PoolProperties.SwapXPreservesValid | TokenSwap.py:15-17 | SwapPreservesValid for X coming in |
| PoolProperties.SwapYPreservesValid | TokenSwap.py:19-21 | SwapPreservesValid for Y coming in |
| PoolProperties.XSwapLowersPrice | TokenSwap.py:15-17 | swapping a positive amount of X into a pool in good standing strictly lowers the price reserveY / reserveX, with or without the top-up |
| PoolProperties.YSwapCanLowerPrice | TokenSwap.py:37-40 | since the top-up depends only on reserveX < reserveY, swapping 1 Y into a pool of 1 X and 10000 Y also lowers the price of X |
| PoolProperties.LpCreditIsProportional | TokenSwap.py:35-36 | the LP credit of a sequence of trades is fee * lpShare times the total input of the accepted trades |
| PoolProperties.RunCreditsLp | TokenSwap.py:34-36 | over any sequence of swaps, `k`, the fee and the LP share never change and LP earnings grow by exactly the LP credit of the trades |
| PoolProperties.LpCreditNonNegative | TokenSwap.py:35-36 | the LP credit of trades with non-negative amounts is non-negative |
| PoolProperties.LpEarningsNeverDecrease | TokenSwap.py:35-36 | LP earnings never decrease over swaps with non-negative amounts |
| PoolProperties.RunPreservesValid | TokenSwap.py:13-40 | a pool in good standing stays in good standing over any sequence of swaps with positive amounts, whatever labels they carry |

## Left out

- `display_pool_status` and `plot_pool_state` (TokenSwap.py:45-66) only print and plot, so they are not modelled.
- The interactive session (TokenSwap.py:68-108) is console I/O: the menu, `input()`, `float()` parsing and the `ValueError` catch. `Run` over a sequence of `Trade`s stands for its repeated swap calls. `ScriptFirstSwap` stands for its start state and one swap.
- Floating-point arithmetic is not modelled: rounding, infinities, NaN and the `:.2f`/`:.5f` formatting. Every quantity is an exact real. A Python int (the script's initial reserves) and a float are both a `real`.
- Exceptions are modelled as `Err` results returned to the caller, not as control flow that unwinds the caller.
- Amount validation is left out because the code has none. Negative and zero amounts are accepted by every operation, as in the source.
