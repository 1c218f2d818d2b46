# Orange Bear: a Dafny model of the order-distribution calculator

Orange Bear is a small desktop app (Rust, iced). It splits a buying
position into a ladder of limit orders. The user types three amounts: a
position (capital), a start price and a dip price. They also pick a number
of rungs (`resolution`) on a slider and a distribution model, "Flat hat" or
"Pyramid". On submit the app parses and validates the form and commits it
as the current submission. From that submission one of two calculators
produces `resolution` pairs `(price, shares)`. The prices step down from the
start price towards the dip price by one floor-divided step.

- **Flat hat** (`flathat_calc`) buys the same number of shares on every
  rung. That number is the whole shares the position buys at the mid price
  `(start + dip) / 2`, split over the rungs.
- **Pyramid** (`pyramid_calc`) spends `position / res` of capital on every
  rung, so cheaper rungs get more shares. It then spends the capital left
  over by floor division one share at a time. A cursor starts on the
  cheapest rung and moves towards the dearest, wrapping around. The loop
  stops as soon as the leftover no longer pays for the rung under the
  cursor.

The model has five modules:

- `Ints` (`ints.dfy`): the `u32` range as a subset type. Every value the
  source stores in a `u32` has this type, so the verifier shows that each
  subtraction, product and division under a method's precondition stays in
  range and never divides by zero. A division by zero panics in every
  build of the source; a `u32` underflow or overflow panics in a debug
  build and wraps around in a release build.
- `Models` (`model.dfy`): the `Model` tag, its default, the `ALL` list and
  the labels.
- `Util` (`util.dfy`): the two calculators.
  - They are imperative methods, as in the source. The flat one pushes onto
    a local sequence in a `for` loop. The pyramid one does the same, then
    runs its `while` loop, which replaces the local sequence by one with
    the rung under the cursor holding one more share, and moves the cursor
    with wrap-around.
  - Each method is proved equal to a specification function: `FlatLadder`
    and `PyramidLadder`. The properties the calculators promise are then
    proved as lemmas about those functions: shape, prices, conservation of
    capital, round-robin spreading of the leftover, the worked example, and
    two counterexamples.
  - Both calculators are deterministic functions of their inputs, so
    calling one twice on the same inputs gives the same schedule.
- `Parse` (`parse.dfy`): `str::parse::<u32>` as the form uses it. This
  means an optional `+`, then one or more ASCII digits whose value is below
  2^32.
- `App` (`main.dfy`):
  - The form (`PreField`), the submission (`Field`), messages and errors.
  - The function `Validate`, which says what `loading_input` does with a
    form.
  - The class `Bear`, whose methods `LoadingInput` and `Update` change its
    fields in place as the source does. `Update` returns `panicked` for the
    `unwrap` on a failed submission.

## Model

| member | source | states |
|---|---|---|
| Models.DefaultIsFirstChoice | src/model/model.rs:2-5 | The default model is `FlatHat`, which is also the first entry of `ALL`. |
| Models.AllListsEachVariantOnce | src/model/model.rs:9-14 | `ALL` has two entries, contains every variant, and contains each variant exactly once. |
| Models.DisplayLabels | src/model/model.rs:21-23 | `FlatHat` displays as "Flat hat" and `Pyramid` as "Pyramid". The display is injective, so a label identifies its variant. |
| Parse.ParsedShape | src/main.rs:148-150 | A successful parse implies a non-empty input. Every character is a digit, except possibly a leading `+`. The result is the decimal value of the digits. |
| Parse.ParseShow | src/main.rs:148-150 | Round trip: every `u32` written in decimal parses back to itself, with or without a leading `+`. |
| Parse.ParseLeadingZero | src/main.rs:148-150 | A `u32` written with an extra leading zero still parses to itself. |
| Parse.ParseRejects | src/main.rs:148-150 | These are rejected: the empty text, a lone `+`, a double `+`, a `-` sign, and leading or trailing whitespace. |
| Parse.ParseBoundary | src/main.rs:148-150 | "4294967295" parses to 2^32-1. "4294967296" is rejected as out of range. |
| Util.StepDiff | src/util/util.rs:8 | Under `res >= 2 && dip <= start`, the step is defined and `res - 1` steps never exceed `start - dip`. |
| Util.LowestPrice | src/util/util.rs:8-10 | The cheapest rung's price lies between `dip` and `start`. |
| Util.Price | src/util/util.rs:10 | Rung `i`'s price `start - step * i` lies between the cheapest price and `start`, so it neither underflows nor falls below `dip`. Rung 0 is priced `start`. |
| Util.PricesNonIncreasing | src/util/util.rs:9-10 | Prices never rise with the rung index. |
| Util.PriceStep | src/util/util.rs:8-10 | Neighbouring rungs differ by exactly `step_diff`, so the prices form an arithmetic sequence. |
| Util.StepPositiveIff | src/util/util.rs:8 | The step is positive if and only if `start - dip >= res - 1`. |
| Util.LadderStrictIff | src/util/util.rs:8-10 | Prices strictly decrease if and only if `start - dip >= res - 1`. Otherwise every rung is priced `start`. |
| Util.FlathatCalc | src/util/util.rs:3-13 | Under its no-panic precondition, the loop returns exactly the `FlatLadder` schedule. |
| Util.FlatLadderShape | src/util/util.rs:5-11 | The flat schedule has `res` rungs. The first is at `start`, and rung `i` is at `start - step * i`. Prices are never below `dip` and never rise. Every rung holds `(position / ((start + dip) / 2)) / res` shares. |
| Util.FlatLadderCanOverspend | src/util/util.rs:5-11 | For `(10000, 100, 61, 5)` the flat schedule costs 10250, more than the position. |
| Util.FlatLadderExample | src/util/util.rs:3-13 | For `(10000, 100, 60, 5)` the schedule is 25 shares at 100, 90, 80, 70 and 60. |
| Util.PerStep | src/util/util.rs:17 | `res` times the per-rung capital never exceeds `position`. |
| Util.BaseRung | src/util/util.rs:21-22 | A base rung has a positive price at `Price(i)`. Its shares are the most whole shares the per-rung capital buys: they cost at most that capital, and one more share would cost more. |
| Util.BaseRungs | src/util/util.rs:20-25 | The base pass yields `res` rungs, all with positive prices. |
| Util.BaseSpentBound | src/util/util.rs:20-25 | No prefix of the base pass spends more than `position`. |
| Util.BaseStep | src/util/util.rs:20-25 | Base-pass turn `i` computes the rung's price and share count as the source does. Paying for the rung keeps `position_left` non-negative. |
| Util.Prev | src/util/util.rs:34-35 | The cursor moves one rung towards 0 and wraps from 0 to `end`, staying within the vector. |
| Util.Bump | src/util/util.rs:31-32 | Buying one more share on a rung raises the spend by that rung's price. Prices stay positive, and there is still room to add shares without overflow. |
| Util.RedistributeKeeps | src/util/util.rs:30-36 | The remainder loop keeps the length and every price and only adds shares. It conserves `Σ price * shares + position_left`. It stops with `position_left` below the price under the cursor. |
| Util.RedistributeStep | src/util/util.rs:30-36 | One iteration adds exactly one share to the rung under the cursor, pays its price, moves the cursor, and continues from that state. |
| Util.BaseHeadroom | src/util/util.rs:20-31 | After the base pass, spend is at most `position`. No later `+= 1` on a share count can overflow. |
| Util.PyramidCalc | src/util/util.rs:15-38 | Under its no-panic precondition, the base pass followed by the wrap-around loop returns exactly `PyramidLadder(...).rungs`. |
| Util.PyramidShape | src/util/util.rs:15-38 | The pyramid schedule has `res` rungs at the ladder prices, each with at least its base-pass shares. `Σ price * shares + leftover == position`, so spend is at most `position`. At exit the leftover is below the price under the cursor. |
| Util.RedistributeRounds | src/util/util.rs:30-36 | The loop gives out extra shares in full rounds, cheapest rung first. Starting from the round-robin shape, it ends in that shape. |
| Util.PyramidRounds | src/util/util.rs:27-36 | Every rung gains the same number `q` of extra shares. The rungs past the final cursor gain one more. |
| Util.PyramidSharesGrow | src/util/util.rs:20-36 | A cheaper rung never holds fewer shares than a dearer one, both after the base pass and in the final schedule. |
| Util.BaseRungExample | src/util/util.rs:20-25 | For `(10000, 100, 60, 5)`, rung `i` of the base pass is the floor share count of 2000 at price `100 - 10 * i`. |
| Util.BaseRungsExample | src/util/util.rs:20-25 | For `(10000, 100, 60, 5)`, the base pass buys 20, 22, 25, 28 and 33 shares at 100, 90, 80, 70 and 60. |
| Util.BaseSpentExample | src/util/util.rs:24 | That base pass spends 9920, so 80 is left over. |
| Util.PyramidLadderExample | src/util/util.rs:15-38 | For `(10000, 100, 60, 5)`, the leftover 80 buys one more share at 60, leaving 20. The loop stops at the 70 rung. The schedule is `(100,20),(90,22),(80,25),(70,28),(60,34)`. |
| Util.BaseRungPairExample | src/util/util.rs:20-25 | For `(230, 100, 10, 2)`, the base pass buys 1 share at 100 and 11 at 10. |
| Util.LeftoverCanStillBuyCheapest | src/util/util.rs:30-36 | For `(230, 100, 10, 2)`, the loop stops with leftover 10 at the 100 rung, although the cheapest rung costs 10. Only the rung under the cursor is compared. |
| App.Toggled | src/main.rs:106-107 | A toggle always changes the theme. |
| App.ToggleTwice | src/main.rs:105-108 | Toggling twice restores the theme. |
| App.Bear.constructor | src/main.rs:60-79 | Initial state: submission all zero with resolution 4, `FlatHat` and `integrity` false; an empty form with resolution 4 and `FlatHat`; Light theme. |
| App.Bear.LoadingInput | src/main.rs:145-164 | The result is `Ok` exactly when `Validate` accepts the form, and then `fields` is the validated submission. On an error it returns `Validate`'s error and `fields` is unchanged. Only `fields` may change. |
| App.Bear.Update | src/main.rs:89-111 | Each form message overwrites only its own form entries. Only `Submit` can change `fields`, and only on success. Only `ToggleTheme` changes the theme, and it flips it. `panicked` is true exactly on a `Submit` that fails validation. The invariant that a committed submission passed the check is kept. |
| App.ValidateNotIntegerIff | src/main.rs:148-150 | `NotIntegerError` if and only if one of the three texts fails to parse as `u32`. |
| App.ValidateValueErrorIff | src/main.rs:152-154 | `ValueError` if and only if all three parse, the position is 0, and start is not above dip. |
| App.ValidateAccepts | src/main.rs:157-163 | On success the submission holds the three parsed numbers, the form's resolution and model, and `integrity` true. It passes the check. |
| App.ValidateAcceptsZeroPosition | src/main.rs:152 | A zero position with start above dip is accepted. |
| App.ValidateAcceptsInvertedRange | src/main.rs:152 | A positive position with start below dip is accepted, although neither calculator can take such a range. |
| App.ValidateAcceptsZeroPrices | src/main.rs:152 | Zero start and dip prices are accepted, although both calculators would then divide by zero. |
| App.ValidateAcceptsOneRung | src/main.rs:160 | `loading_input` never checks the resolution, so a resolution of 1 is accepted although the step computation divides by `res - 1`. The slider in src/view/container.rs:38 only offers 4 to 10, so the UI does not reach this case. |
| App.SubmitOnFreshAppPanics | src/main.rs:102-104 | Submitting the initial, empty form panics. |

Facts about the code that a reader might not expect:

- The value check at src/main.rs:152 is a conjunction. It rejects only a
  zero position whose start price is not above the dip price
  (`ValidateValueErrorIff`). A zero position, or a start price not above
  the dip price, on its own is accepted (`ValidateAcceptsZeroPosition`,
  `ValidateAcceptsInvertedRange`).
- Rung prices strictly decrease only when `start - dip >= res - 1`. The
  step is floor-divided and can be 0, and then every rung is priced `start`
  (`LadderStrictIff`).
- The remainder loop of `pyramid_calc` compares the leftover only with the
  price under the cursor. It can stop with a leftover that still pays for
  the cheapest rung (`LeftoverCanStillBuyCheapest`).
- The flat schedule can cost more than `position`
  (`FlatLadderCanOverspend`).

## Left out

- src/view/container.rs and src/view/style.rs: widget construction, layout and colours (float values). They are not part of this model.
- `main`, `title`, `theme()` and `view` in src/main.rs: toolkit entry points and rendering.
- The iced `Theme`: modelled only as the two values Light and Dark.
- The dispatch from the submitted `Model` to a calculator (`output_visual`): its body is not in the source files. The calculators are modelled on their own.
- Panics and wrap-around: each point where the calculators would panic is a `requires` (`LadderPre`, `FlatPre`, `PyramidPre`). These cover division by zero, which panics in every build, and `u32` underflow and overflow, which panic in a debug build. The release-build wrap-around on underflow or overflow is not modelled. The `try_into().unwrap()` of `res - 1` cannot fail once `res >= 2`. The `unwrap` in `update` is the `panicked` result. The process end that follows a panic is not modelled.
- `str::parse::<u32>` is the Rust standard library, not part of this model. `ParseU32` models its documented result as a function, not its byte loop.
- The slider's range (4 to 10, src/view/container.rs:38) is set in the view code, which is not modelled, so `SliderChange` accepts any `u32`.
- `Vec` and `String` ownership, cloning and borrowing are not modelled. Vectors and strings are values, so the in-place `push` and `distrib_vec[tail].1 += 1` are modelled as rebuilding a local sequence; no other reference to the vector exists in the source, so no aliasing is lost.
