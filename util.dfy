/** The order-distribution calculators of `src/util/util.rs`.

    Both turn `(position, start, dip, res)` into `res` rungs of `(price,
    shares)`, the prices stepping down from `start` towards `dip` by the same
    floor-divided step. `FlathatCalc` buys the same number of shares on every
    rung; `PyramidCalc` spends the same capital on every rung and then hands
    the capital stranded by floor division back out, one share at a time,
    walking a wrap-around cursor from the cheapest rung towards the dearest.

    All arithmetic is `u32`: each method is written with `u32` locals, so the
    verifier shows that under the stated preconditions nothing underflows,
    overflows or divides by zero. */
module Util {
  import opened Ints

  /** One rung of the ladder, the source's `(u32, u32)` pair. */
  datatype Tranche = Tranche(price: u32, shares: u32)

  // ---------------------------------------------------------------------
  // Arithmetic helpers

  /** Floor division: `a / b` whole `b`s fit in `a`, one more does not. */
  lemma DivMulLe(a: nat, b: nat)
    requires b > 0
    ensures (a / b) * b <= a < (a / b + 1) * b
  {
    assert (a / b + 1) * b == (a / b) * b + b;
  }

  lemma DivLe(a: nat, b: nat)
    requires b > 0
    ensures a / b <= a
  {
    var q := a / b;
    DivMulLe(a, b);
    MulMono(q, 1, b);
    assert q <= q * b <= a;
  }

  lemma MulSucc(p: nat, s: nat)
    ensures p * (s + 1) == p * s + p
  {
  }

  lemma MulMono(a: nat, i: nat, j: nat)
    requires i <= j
    ensures a * i <= a * j
  {
    assert a * j == a * i + a * (j - i);
  }

  // ---------------------------------------------------------------------
  // The price ladder shared by both calculators

  /** What both calculators need of their inputs before the first division:
      `res - 1` must be a divisor and `start - dip` must not underflow. */
  predicate LadderPre(start: u32, dip: u32, res: u32)
  {
    2 <= res && dip <= start
  }

  /** `step_diff`: the floor-divided price decrement between neighbouring
      rungs; `res - 1` steps of it never overshoot the whole range. */
  function StepDiff(start: u32, dip: u32, res: u32): (d: u32)
    requires LadderPre(start, dip, res)
    ensures d * (res - 1) <= start - dip
  {
    DivMulLe(start - dip, res - 1);
    (start - dip) / (res - 1)
  }

  /** The price of the last, cheapest rung. */
  function LowestPrice(start: u32, dip: u32, res: u32): (p: u32)
    requires LadderPre(start, dip, res)
    ensures dip <= p <= start
  {
    var span := StepDiff(start, dip, res) * (res - 1);
    assert span <= start - dip;
    start - span
  }

  /** The price of rung `i`, `start - step_diff * i`: it lies between the
      cheapest rung's price and `start`, never below `dip`. */
  function Price(start: u32, dip: u32, res: u32, i: int): (p: u32)
    requires LadderPre(start, dip, res) && 0 <= i < res
    ensures LowestPrice(start, dip, res) <= p <= start
    ensures i == 0 ==> p == start
  {
    var d := StepDiff(start, dip, res);
    MulMono(d, i, res - 1);
    var drop := d * i;
    assert drop <= d * (res - 1) <= start - dip;
    assert LowestPrice(start, dip, res) == start - d * (res - 1);
    start - drop
  }

  /** Prices never rise along the ladder. */
  lemma PricesNonIncreasing(start: u32, dip: u32, res: u32, i: int, j: int)
    requires LadderPre(start, dip, res) && 0 <= i <= j < res
    ensures Price(start, dip, res, j) <= Price(start, dip, res, i)
  {
    MulMono(StepDiff(start, dip, res), i, j);
  }

  /** Neighbouring rungs differ by exactly `step_diff`. */
  lemma PriceStep(start: u32, dip: u32, res: u32, i: int)
    requires LadderPre(start, dip, res) && 0 <= i < res - 1
    ensures Price(start, dip, res, i) - Price(start, dip, res, i + 1) == StepDiff(start, dip, res)
  {
    var d := StepDiff(start, dip, res);
    assert d * (i + 1) == d * i + d;
  }

  /** The step is positive exactly when the range `start - dip` holds at
      least `res - 1` units. */
  lemma StepPositiveIff(start: u32, dip: u32, res: u32)
    requires LadderPre(start, dip, res)
    ensures StepDiff(start, dip, res) > 0 <==> start - dip >= res - 1
  {
    var d := StepDiff(start, dip, res);
    DivMulLe(start - dip, res - 1);
    if d > 0 {
      MulMono(res - 1, 1, d);
    }
  }

  /** The ladder descends strictly exactly when the range `start - dip`
      holds at least `res - 1` units; a narrower range gives every rung the
      price `start`. */
  lemma LadderStrictIff(start: u32, dip: u32, res: u32)
    requires LadderPre(start, dip, res)
    ensures (forall i :: 0 <= i < res - 1 ==> Price(start, dip, res, i + 1) < Price(start, dip, res, i))
        <==> start - dip >= res - 1
    ensures start - dip < res - 1 ==> forall i :: 0 <= i < res ==> Price(start, dip, res, i) == start
  {
    StepPositiveIff(start, dip, res);
    forall i | 0 <= i < res - 1
      ensures Price(start, dip, res, i) - Price(start, dip, res, i + 1) == StepDiff(start, dip, res)
    {
      PriceStep(start, dip, res, i);
    }
    if start - dip < res - 1 {
      assert Price(start, dip, res, 1) == Price(start, dip, res, 0);
    }
  }

  // ---------------------------------------------------------------------
  // flathat_calc

  /** What `flathat_calc` needs to run without a panic: the ladder's
      preconditions, no overflow in `start + dip`, and a non-zero mid price
      to divide `position` by. */
  predicate FlatPre(start: u32, dip: u32, res: u32)
  {
    LadderPre(start, dip, res) && start + dip < U32_LIMIT && (start + dip) / 2 > 0
  }

  /** `share_per_step`: the whole shares `position` buys at the mid price,
      split evenly over the rungs. */
  function FlatShares(position: u32, start: u32, dip: u32, res: u32): u32
    requires FlatPre(start, dip, res)
  {
    DivLe(position, (start + dip) / 2);
    DivLe(position / ((start + dip) / 2), res);
    (position / ((start + dip) / 2)) / res
  }

  /** The schedule `flathat_calc` returns: rung `i` at `Price(i)` with
      `FlatShares` shares. */
  function FlatLadder(position: u32, start: u32, dip: u32, res: u32): seq<Tranche>
    requires FlatPre(start, dip, res)
  {
    seq(res, i requires 0 <= i < res =>
      Tranche(Price(start, dip, res, i), FlatShares(position, start, dip, res)))
  }

  /** `flathat_calc`: builds the schedule by pushing one rung per step. */
  method FlathatCalc(position: u32, start: u32, dip: u32, res: u32) returns (distrib: seq<Tranche>)
    requires FlatPre(start, dip, res)
    ensures distrib == FlatLadder(position, start, dip, res)
  {
    distrib := [];
    var sharePerStep := FlatShares(position, start, dip, res);
    var stepDiff := StepDiff(start, dip, res);
    for i := 0 to res
      invariant distrib == FlatLadder(position, start, dip, res)[..i]
    {
      FlatStep(position, start, dip, res, i);
      distrib := distrib + [Tranche(start - stepDiff * i, sharePerStep)];
    }
  }

  /** One push of `FlathatCalc`: rung `i` is priced `start - StepDiff * i`. */
  lemma FlatStep(position: u32, start: u32, dip: u32, res: u32, i: nat)
    requires FlatPre(start, dip, res) && i < res
    ensures Price(start, dip, res, i) == start - StepDiff(start, dip, res) * i
    ensures var r := FlatLadder(position, start, dip, res);
      r[..i + 1] == r[..i] + [Tranche(Price(start, dip, res, i), FlatShares(position, start, dip, res))]
  {
    var r := FlatLadder(position, start, dip, res);
    assert r[..i + 1] == r[..i] + [r[i]];
  }

  /** The shape the flat schedule promises: `res` rungs, the first at
      `start`, prices stepping down by `StepDiff` and never below `dip`, and
      the same share count on every rung. */
  lemma FlatLadderShape(position: u32, start: u32, dip: u32, res: u32)
    requires FlatPre(start, dip, res)
    ensures var r := FlatLadder(position, start, dip, res);
      && |r| == res
      && r[0].price == start
      && (forall i :: 0 <= i < res ==> r[i].price == start - StepDiff(start, dip, res) * i)
      && (forall i :: 0 <= i < res ==> dip <= r[i].price)
      && (forall i, j :: 0 <= i <= j < res ==> r[j].price <= r[i].price)
      && (forall i :: 0 <= i < res ==> r[i].shares == (position / ((start + dip) / 2)) / res)
  {
    var r := FlatLadder(position, start, dip, res);
    forall i, j | 0 <= i <= j < res
      ensures r[j].price <= r[i].price
    {
      PricesNonIncreasing(start, dip, res, i, j);
    }
  }

  /** `Σ price * shares` over a schedule: the capital it spends. */
  function Spent(v: seq<Tranche>): nat
  {
    if v == [] then 0 else Spent(v[..|v| - 1]) + v[|v| - 1].price * v[|v| - 1].shares
  }

  /** The flat schedule is not bounded by `position`: floor division in
      `step_diff` keeps the rungs above `dip`, so their average price can
      exceed the mid price that sized the share count. */
  lemma FlatLadderCanOverspend()
    ensures FlatPre(100, 61, 5)
    ensures Spent(FlatLadder(10000, 100, 61, 5)) == 10250 > 10000
  {
    var r := FlatLadder(10000, 100, 61, 5);
    assert r == [Tranche(100, 25), Tranche(91, 25), Tranche(82, 25), Tranche(73, 25), Tranche(64, 25)];
    var r4, r3, r2, r1 := r[..4], r[..3], r[..2], r[..1];
    assert r4[..3] == r3 && r3[..2] == r2 && r2[..1] == r1 && r1[..0] == [];
    assert Spent(r1) == 2500;
    assert Spent(r2) == 2500 + 2275;
    assert Spent(r3) == 4775 + 2050;
    assert Spent(r4) == 6825 + 1825;
    assert Spent(r) == 8650 + 1600;
  }

  /** The flat schedule for `(10000, 100, 60, 5)`. */
  lemma FlatLadderExample()
    ensures FlatPre(100, 60, 5)
    ensures FlatLadder(10000, 100, 60, 5)
         == [Tranche(100, 25), Tranche(90, 25), Tranche(80, 25), Tranche(70, 25), Tranche(60, 25)]
  {
  }

  // ---------------------------------------------------------------------
  // Facts about Spent

  lemma {:induction false} SpentAppend(v: seq<Tranche>, t: Tranche)
    ensures Spent(v + [t]) == Spent(v) + t.price * t.shares
  {
    assert (v + [t])[..|v|] == v;
  }

  /** One rung's cost never exceeds the schedule's. */
  lemma {:induction false} TermLeSpent(v: seq<Tranche>, k: nat)
    requires k < |v|
    ensures v[k].price * v[k].shares <= Spent(v)
  {
    if k < |v| - 1 {
      TermLeSpent(v[..|v| - 1], k);
    }
  }

  /** Replacing one rung changes the cost by the difference of the two rungs. */
  lemma {:induction false} SpentUpdate(v: seq<Tranche>, k: nat, t: Tranche)
    requires k < |v|
    ensures Spent(v[k := t]) + v[k].price * v[k].shares == Spent(v) + t.price * t.shares
  {
    var w := v[k := t];
    if k == |v| - 1 {
      assert w[..|w| - 1] == v[..|v| - 1];
    } else {
      assert w[..|w| - 1] == v[..|v| - 1][k := t];
      SpentUpdate(v[..|v| - 1], k, t);
    }
  }

  // ---------------------------------------------------------------------
  // pyramid_calc

  /** What `pyramid_calc` needs to run without a panic: the ladder's
      preconditions and no rung priced 0 (line 22 divides by the price). */
  predicate PyramidPre(start: u32, dip: u32, res: u32)
  {
    LadderPre(start, dip, res) && LowestPrice(start, dip, res) > 0
  }

  /** Every rung of `v` has a positive price. */
  predicate Priced(v: seq<Tranche>)
  {
    forall i :: 0 <= i < |v| ==> v[i].price > 0
  }

  /** `position_per_step`: the capital each rung gets in the base pass;
      `res` rungs of it never exceed `position`. */
  function PerStep(position: u32, res: u32): (c: u32)
    requires 2 <= res
    ensures c * res <= position
  {
    DivLe(position, res);
    DivMulLe(position, res);
    position / res
  }

  /** Base-pass rung `i`: `position / res` of capital spent at `Price(i)`. */
  function BaseRung(position: u32, start: u32, dip: u32, res: u32, i: int): (t: Tranche)
    requires PyramidPre(start, dip, res) && 0 <= i < res
    ensures t.price == Price(start, dip, res, i) > 0
    ensures t.price * t.shares <= PerStep(position, res) < t.price * (t.shares + 1)
  {
    var price := Price(start, dip, res, i);
    var capital := PerStep(position, res);
    var shares := capital / price;
    DivLe(capital, price);
    DivMulLe(capital, price);
    assert shares * price == price * shares && (shares + 1) * price == price * (shares + 1);
    Tranche(price, shares)
  }

  /** The schedule after the base pass (lines 20-25). */
  function BaseRungs(position: u32, start: u32, dip: u32, res: u32): (r: seq<Tranche>)
    requires PyramidPre(start, dip, res)
    ensures |r| == res && Priced(r)
  {
    seq(res, i requires 0 <= i < res => BaseRung(position, start, dip, res, i))
  }

  /** A schedule whose every rung costs at most `c` costs at most `|v| * c`. */
  lemma {:induction false} SpentAtMost(v: seq<Tranche>, c: nat)
    requires forall i :: 0 <= i < |v| ==> v[i].price * v[i].shares <= c
    ensures Spent(v) <= |v| * c
  {
    if v != [] {
      var n := |v| - 1;
      SpentAtMost(v[..n], c);
      assert n * c + c == |v| * c;
    }
  }

  /** So no prefix of the base pass spends more than `position`. */
  lemma BaseSpentBound(position: u32, start: u32, dip: u32, res: u32, k: nat)
    requires PyramidPre(start, dip, res) && k <= res
    ensures Spent(BaseRungs(position, start, dip, res)[..k]) <= position
  {
    var c := PerStep(position, res);
    var v := BaseRungs(position, start, dip, res)[..k];
    assert forall i :: 0 <= i < |v| ==> v[i].price * v[i].shares <= c;
    SpentAtMost(v, c);
    MulMono(c, k, res);
  }

  /** The state of the remainder loop when it stops: the rungs, the leftover
      capital `position_left` and the cursor `tail`. */
  datatype Pass = Pass(rungs: seq<Tranche>, left: u32, tail: nat)

  /** The cursor's move: one rung towards index 0, wrapping from 0 to `end`. */
  function Prev(tail: nat, end: nat): (t: nat)
    requires tail <= end
    ensures t <= end
    ensures t == tail - 1 || (tail == 0 && t == end)
  {
    if tail == 0 then end else tail - 1
  }

  /** Room for every rung to gain as many more shares as the leftover
      could still pay for at a price of 1 without leaving `u32`. */
  predicate Headroom(v: seq<Tranche>, left: nat)
  {
    forall i :: 0 <= i < |v| ==> v[i].shares + left < U32_LIMIT
  }

  /** One more share on rung `k`, paid for out of `left`: prices stay
      positive, the headroom is kept, and the spend grows by the price. */
  lemma Bump(v: seq<Tranche>, left: u32, k: nat)
    requires k < |v| && Priced(v) && Headroom(v, left) && v[k].price <= left
    ensures var w := v[k := Tranche(v[k].price, v[k].shares + 1)];
      && Priced(w) && Headroom(w, left - v[k].price)
      && Spent(w) == Spent(v) + v[k].price
  {
    var p: nat, s: nat := v[k].price, v[k].shares;
    SpentUpdate(v, k, Tranche(p, s + 1));
    MulSucc(p, s);
  }

  /** The remainder loop (lines 30-36) as a function of its state: while the
      leftover affords the rung under the cursor, buy one more share there,
      pay for it, and move the cursor. */
  function Redistribute(v: seq<Tranche>, left: u32, tail: nat): Pass
    requires tail < |v| && Priced(v) && Headroom(v, left)
    decreases left
  {
    if left < v[tail].price then Pass(v, left, tail)
    else
      var t := v[tail];
      Bump(v, left, tail);
      Redistribute(v[tail := Tranche(t.price, t.shares + 1)], left - t.price, Prev(tail, |v| - 1))
  }

  /** What the remainder loop guarantees: it keeps the length and every
      price, only ever adds shares, conserves `Spent + left` (so it never
      spends more than it had), and stops with the cursor on a rung whose
      price the leftover cannot pay. */
  lemma {:induction false} RedistributeKeeps(v: seq<Tranche>, left: u32, tail: nat)
    requires tail < |v| && Priced(v) && Headroom(v, left)
    ensures var r := Redistribute(v, left, tail);
      && |r.rungs| == |v| && r.tail < |v|
      && (forall i :: 0 <= i < |v| ==> r.rungs[i].price == v[i].price && v[i].shares <= r.rungs[i].shares)
      && Spent(r.rungs) + r.left == Spent(v) + left
      && r.left < r.rungs[r.tail].price
    decreases left
  {
    if left >= v[tail].price {
      var t := v[tail];
      Bump(v, left, tail);
      RedistributeKeeps(v[tail := Tranche(t.price, t.shares + 1)], left - t.price, Prev(tail, |v| - 1));
    }
  }

  /** One turn of the remainder loop: the rung under the cursor gains one
      share, the leftover pays its price, the cursor moves, and what is left
      to do is the loop from that new state. */
  lemma RedistributeStep(v: seq<Tranche>, left: u32, tail: nat)
    requires tail < |v| && Priced(v) && Headroom(v, left) && v[tail].price <= left
    ensures v[tail].shares + 1 < U32_LIMIT
    ensures var w := v[tail := Tranche(v[tail].price, v[tail].shares + 1)];
      && Priced(w) && Headroom(w, left - v[tail].price)
      && Redistribute(v, left, tail) == Redistribute(w, left - v[tail].price, Prev(tail, |v| - 1))
  {
    Bump(v, left, tail);
  }

  /** The base pass leaves headroom: each rung's share count is at most its
      cost, which is at most what the base pass spent. */
  lemma BaseHeadroom(position: u32, start: u32, dip: u32, res: u32)
    requires PyramidPre(start, dip, res)
    ensures var base := BaseRungs(position, start, dip, res);
      Spent(base) <= position && Headroom(base, position - Spent(base))
  {
    var base := BaseRungs(position, start, dip, res);
    BaseSpentBound(position, start, dip, res, res);
    assert base[..res] == base;
    forall i | 0 <= i < |base|
      ensures base[i].shares + (position - Spent(base)) < U32_LIMIT
    {
      SharesLeSpent(base, i);
    }
  }

  /** A rung with a positive price holds no more shares than it costs. */
  lemma SharesLeSpent(v: seq<Tranche>, k: nat)
    requires k < |v| && Priced(v)
    ensures v[k].shares <= Spent(v)
  {
    TermLeSpent(v, k);
    MulMono(v[k].shares, 1, v[k].price);
  }

  /** What `pyramid_calc` returns, with the leftover and the cursor where its
      remainder loop stopped. */
  function PyramidLadder(position: u32, start: u32, dip: u32, res: u32): Pass
    requires PyramidPre(start, dip, res)
  {
    var base := BaseRungs(position, start, dip, res);
    BaseHeadroom(position, start, dip, res);
    Redistribute(base, position - Spent(base), res - 1)
  }

  /** `PyramidLadder` is the remainder loop started on the base pass. */
  lemma PyramidLadderStart(position: u32, start: u32, dip: u32, res: u32)
    requires PyramidPre(start, dip, res)
    ensures var base := BaseRungs(position, start, dip, res);
      && Spent(base) <= position && Headroom(base, position - Spent(base))
      && PyramidLadder(position, start, dip, res) == Redistribute(base, position - Spent(base), res - 1)
  {
    BaseHeadroom(position, start, dip, res);
  }

  /** What one turn of the base pass needs: rung `i` is priced and sized
      as the source computes it, and buying it keeps the spend within
      `position`. */
  lemma BaseStep(position: u32, start: u32, dip: u32, res: u32, i: nat)
    requires PyramidPre(start, dip, res) && i < res
    ensures var base := BaseRungs(position, start, dip, res);
      && base[i].price == start - StepDiff(start, dip, res) * i > 0
      && base[i].shares == PerStep(position, res) / base[i].price
      && base[..i + 1] == base[..i] + [base[i]]
      && Spent(base[..i + 1]) == Spent(base[..i]) + base[i].price * base[i].shares <= position
  {
    var base := BaseRungs(position, start, dip, res);
    assert base[..i + 1] == base[..i] + [base[i]];
    SpentAppend(base[..i], base[i]);
    BaseSpentBound(position, start, dip, res, i + 1);
  }

  /** `pyramid_calc`: the base pass pushes one rung per step and pays for
      it out of `position_left`, which never underflows; the remainder loop
      then bumps the rung under the wrap-around cursor in place until the
      leftover no longer affords that rung. */
  method PyramidCalc(position: u32, start: u32, dip: u32, res: u32) returns (distrib: seq<Tranche>)
    requires PyramidPre(start, dip, res)
    ensures distrib == PyramidLadder(position, start, dip, res).rungs
  {
    distrib := [];
    var positionPerStep := PerStep(position, res);
    var positionLeft: u32 := position;
    var stepDiff := StepDiff(start, dip, res);
    ghost var base := BaseRungs(position, start, dip, res);
    for i := 0 to res
      invariant distrib == base[..i]
      invariant positionLeft == position - Spent(distrib)
    {
      BaseStep(position, start, dip, res, i);
      var price: u32 := start - stepDiff * i;
      var share: u32 := positionPerStep / price;
      distrib := distrib + [Tranche(price, share)];
      positionLeft := positionLeft - price * share;
    }
    assert distrib == base;
    PyramidLadderStart(position, start, dip, res);
    ghost var goal := PyramidLadder(position, start, dip, res);
    var end: nat := res - 1;
    var tail: nat := end;
    while positionLeft >= distrib[tail].price
      invariant |distrib| == res && tail < res && Priced(distrib)
      invariant Headroom(distrib, positionLeft)
      invariant Redistribute(distrib, positionLeft, tail) == goal
      decreases positionLeft
    {
      RedistributeStep(distrib, positionLeft, tail);
      ghost var next := Prev(tail, end);
      distrib := distrib[tail := Tranche(distrib[tail].price, distrib[tail].shares + 1)];
      positionLeft := positionLeft - distrib[tail].price;
      if tail == 0 {
        tail := end;
      } else {
        tail := tail - 1;
      }
      assert tail == next;
    }
  }

  /** What `pyramid_calc` promises about its result: `res` rungs at the
      ladder's prices (the first at `start`, never rising, never below
      `dip`), each holding at least its base-pass shares, with
      `Σ price * shares + position_left == position`, so it never spends
      more than `position`; the loop stops with the leftover below the price
      under the cursor. */
  lemma PyramidShape(position: u32, start: u32, dip: u32, res: u32)
    requires PyramidPre(start, dip, res)
    ensures var r := PyramidLadder(position, start, dip, res);
      var base := BaseRungs(position, start, dip, res);
      && |r.rungs| == res && r.tail < res
      && r.rungs[0].price == start
      && (forall i :: 0 <= i < res ==> r.rungs[i].price == Price(start, dip, res, i))
      && (forall i :: 0 <= i < res ==> dip <= r.rungs[i].price)
      && (forall i, j :: 0 <= i <= j < res ==> r.rungs[j].price <= r.rungs[i].price)
      && (forall i :: 0 <= i < res ==> base[i].shares <= r.rungs[i].shares)
      && Spent(r.rungs) + r.left == position
      && Spent(r.rungs) <= position
      && r.left < r.rungs[r.tail].price
  {
    var base := BaseRungs(position, start, dip, res);
    PyramidLadderStart(position, start, dip, res);
    RedistributeKeeps(base, position - Spent(base), res - 1);
    var r := PyramidLadder(position, start, dip, res);
    assert forall i :: 0 <= i < res ==> r.rungs[i].price == base[i].price == Price(start, dip, res, i);
    forall i, j | 0 <= i <= j < res
      ensures r.rungs[j].price <= r.rungs[i].price
    {
      PricesNonIncreasing(start, dip, res, i, j);
    }
  }

  /** Rung `i` of `v` holds `q` shares more than the same rung of `base`,
      plus one more when it lies past the cursor `tail`. */
  predicate Rounds(v: seq<Tranche>, base: seq<Tranche>, tail: nat, q: nat)
  {
    |v| == |base| && forall i :: 0 <= i < |v| ==>
      v[i].price == base[i].price && v[i].shares == base[i].shares + q + (if i > tail then 1 else 0)
  }

  /** The remainder loop hands out extra shares round by round, from the
      cheapest rung towards the dearest: whatever state it starts in of the
      `Rounds` shape, it stops in one too, for some number `q2` of full
      rounds. */
  lemma {:induction false} RedistributeRounds(v: seq<Tranche>, left: u32, tail: nat, base: seq<Tranche>, q: nat)
      returns (q2: nat)
    requires tail < |v| && Priced(v) && Headroom(v, left) && Rounds(v, base, tail, q)
    ensures var r := Redistribute(v, left, tail);
      q <= q2 && Rounds(r.rungs, base, r.tail, q2)
    decreases left
  {
    if left < v[tail].price {
      q2 := q;
    } else {
      var t := v[tail];
      var w := v[tail := Tranche(t.price, t.shares + 1)];
      Bump(v, left, tail);
      var next := Prev(tail, |v| - 1);
      var q1 := if tail == 0 then q + 1 else q;
      assert Rounds(w, base, next, q1);
      q2 := RedistributeRounds(w, left - t.price, next, base, q1);
    }
  }

  /** The leftover of the base pass is spread evenly: every rung gets the
      same number `q` of extra shares, and the rungs past the final cursor
      one more. Extra shares therefore never decrease towards the cheap end
      and differ by at most one. */
  lemma PyramidRounds(position: u32, start: u32, dip: u32, res: u32) returns (q: nat)
    requires PyramidPre(start, dip, res)
    ensures var r := PyramidLadder(position, start, dip, res);
      var base := BaseRungs(position, start, dip, res);
      && |r.rungs| == res && r.tail < res
      && forall i :: 0 <= i < res ==>
           r.rungs[i].shares == base[i].shares + q + (if i > r.tail then 1 else 0)
  {
    var base := BaseRungs(position, start, dip, res);
    PyramidLadderStart(position, start, dip, res);
    RedistributeKeeps(base, position - Spent(base), res - 1);
    q := RedistributeRounds(base, position - Spent(base), res - 1, base, 0);
  }

  /** If `q * b <= a` then `q` is at most the floor quotient `a / b`. */
  lemma QuotMax(a: nat, b: nat, q: nat)
    requires b > 0 && q * b <= a
    ensures q <= a / b
  {
    DivMulLe(a, b);
    if q > a / b {
      MulMono(b, a / b + 1, q);
    }
  }

  /** The floor quotient is the `q` with `q * b <= a < (q + 1) * b`. */
  lemma QuotIs(a: nat, b: nat, q: nat)
    requires b > 0 && q * b <= a < (q + 1) * b
    ensures a / b == q
  {
    QuotMax(a, b, q);
    DivMulLe(a, b);
    if a / b > q {
      MulMono(b, q + 1, a / b);
    }
  }

  /** Dividing the same capital by a lower price buys at least as many
      shares. */
  lemma QuotAntiMono(a: nat, hi: nat, lo: nat)
    requires 0 < lo <= hi
    ensures a / hi <= a / lo
  {
    DivMulLe(a, hi);
    MulMono(a / hi, lo, hi);
    QuotMax(a, lo, a / hi);
  }

  /** The pyramid shape: a cheaper rung never holds fewer shares than a
      dearer one, both after the base pass and in the final schedule. */
  lemma PyramidSharesGrow(position: u32, start: u32, dip: u32, res: u32, i: nat, j: nat)
    requires PyramidPre(start, dip, res) && i <= j < res
    ensures BaseRungs(position, start, dip, res)[i].shares <= BaseRungs(position, start, dip, res)[j].shares
    ensures var r := PyramidLadder(position, start, dip, res);
      |r.rungs| == res && r.rungs[i].shares <= r.rungs[j].shares
  {
    var base := BaseRungs(position, start, dip, res);
    PricesNonIncreasing(start, dip, res, i, j);
    QuotAntiMono(PerStep(position, res), base[i].price, base[j].price);
    var q := PyramidRounds(position, start, dip, res);
  }

  /** Rung `i` of the base pass for `(10000, 100, 60, 5)`: 2000 of capital
      at price `100 - 10 * i` buys `shares`. */
  lemma BaseRungExample(i: nat, price: nat, shares: nat)
    requires i < 5 && price == 100 - 10 * i && shares * price <= 2000 < (shares + 1) * price
    ensures PyramidPre(100, 60, 5)
    ensures BaseRungs(10000, 100, 60, 5)[i] == Tranche(price, shares)
  {
    assert StepDiff(100, 60, 5) == 10;
    assert PerStep(10000, 5) == 2000;
    QuotIs(2000, price, shares);
  }

  /** The base pass for `(10000, 100, 60, 5)`: 2000 of capital per rung
      at prices 100, 90, 80, 70 and 60 buys 20, 22, 25, 28 and 33 shares. */
  lemma BaseRungsExample()
    ensures PyramidPre(100, 60, 5)
    ensures var base := BaseRungs(10000, 100, 60, 5);
      && |base| == 5
      && base[0] == Tranche(100, 20) && base[1] == Tranche(90, 22) && base[2] == Tranche(80, 25)
      && base[3] == Tranche(70, 28) && base[4] == Tranche(60, 33)
  {
    BaseRungExample(0, 100, 20);
    BaseRungExample(1, 90, 22);
    BaseRungExample(2, 80, 25);
    BaseRungExample(3, 70, 28);
    BaseRungExample(4, 60, 33);
  }

  /** A two-element sequence equals the display of its elements. */
  lemma Listed2(v: seq<Tranche>)
    requires |v| == 2
    ensures v == [v[0], v[1]]
  {
  }

  /** A five-element sequence equals the display of its elements. */
  lemma Listed5(v: seq<Tranche>)
    requires |v| == 5
    ensures v == [v[0], v[1], v[2], v[3], v[4]]
  {
  }

  /** The base pass for `(10000, 100, 60, 5)` spends 9920. */
  lemma BaseSpentExample()
    ensures Spent([Tranche(100, 20), Tranche(90, 22), Tranche(80, 25), Tranche(70, 28), Tranche(60, 33)]) == 9920
  {
    var b := [Tranche(100, 20), Tranche(90, 22), Tranche(80, 25), Tranche(70, 28), Tranche(60, 33)];
    var b4, b3, b2, b1 := b[..4], b[..3], b[..2], b[..1];
    assert b4[..3] == b3 && b3[..2] == b2 && b2[..1] == b1 && b1[..0] == [];
    assert Spent(b1) == 2000;
    assert Spent(b2) == 2000 + 1980;
    assert Spent(b3) == 3980 + 2000;
    assert Spent(b4) == 5980 + 1960;
  }

  /** The pyramid schedule for `(10000, 100, 60, 5)`: the leftover 80 of the
      base pass buys one more share on the 60 rung, and the remaining 20 no
      longer affords the 70 rung. */
  lemma PyramidLadderExample()
    ensures PyramidPre(100, 60, 5)
    ensures PyramidLadder(10000, 100, 60, 5)
         == Pass([Tranche(100, 20), Tranche(90, 22), Tranche(80, 25), Tranche(70, 28), Tranche(60, 34)], 20, 3)
  {
    BaseRungsExample();
    var base := BaseRungs(10000, 100, 60, 5);
    Listed5(base);
    BaseSpentExample();
    PyramidLadderStart(10000, 100, 60, 5);
    RedistributeStep(base, 80, 4);
    var w := base[4 := Tranche(60, 34)];
    assert Redistribute(w, 20, 3) == Pass(w, 20, 3);
    Listed5(w);
  }

  /** Rung `i` of the base pass for `(230, 100, 10, 2)`: 115 of capital at
      price `100 - 90 * i` buys `shares`. */
  lemma BaseRungPairExample(i: nat, price: nat, shares: nat)
    requires i < 2 && price == 100 - 90 * i && shares * price <= 115 < (shares + 1) * price
    ensures PyramidPre(100, 10, 2)
    ensures BaseRungs(230, 100, 10, 2)[i] == Tranche(price, shares)
  {
    assert StepDiff(100, 10, 2) == 90;
    assert PerStep(230, 2) == 115;
    QuotIs(115, price, shares);
  }

  /** The cost of a two-rung schedule. */
  lemma SpentPair(a: Tranche, b: Tranche)
    ensures Spent([a, b]) == a.price * a.shares + b.price * b.shares
  {
    assert [a, b][..1] == [a];
    assert [a][..0] == [];
    assert Spent([a]) == a.price * a.shares;
  }

  /** The remainder loop can stop while the leftover still affords a share
      of the cheapest rung: for `(230, 100, 10, 2)` the base pass buys 1
      share at 100 and 11 at 10 and leaves 20, one more share on the 10 rung
      leaves 10, and the loop stops at the 100 rung though the 10 rung costs
      only 10. */
  lemma LeftoverCanStillBuyCheapest()
    ensures PyramidPre(100, 10, 2)
    ensures var r := PyramidLadder(230, 100, 10, 2);
      && r == Pass([Tranche(100, 1), Tranche(10, 12)], 10, 0)
      && r.left >= r.rungs[1].price
  {
    BaseRungPairExample(0, 100, 1);
    BaseRungPairExample(1, 10, 11);
    var base := BaseRungs(230, 100, 10, 2);
    Listed2(base);
    SpentPair(Tranche(100, 1), Tranche(10, 11));
    PyramidLadderStart(230, 100, 10, 2);
    RedistributeStep(base, 20, 1);
    var w := base[1 := Tranche(10, 12)];
    assert Redistribute(w, 10, 0) == Pass(w, 10, 0);
    Listed2(w);
  }
}
