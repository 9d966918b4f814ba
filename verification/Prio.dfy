/** The weighted scheduler: which of four channels sends next, and how far apart their weighted
    totals can drift. */
module Prio {
  import opened Words
  import opened Fragments

  const CHANNELS: nat := 4
  const DATA_SIZE_MAX: nat := 65535
  const BURST_SIZE_MAX: nat := DATA_SIZE_MAX * 255
  const WEIGHT_MAX: nat := 256

  // ---- configuration ----

  /** What the constructor of a configuration insists on. */
  predicate Accepted(w: seq<u32>, burst: nat) {
    && |w| == CHANNELS
    && (forall i :: 0 <= i < CHANNELS ==> 0 < w[i] <= WEIGHT_MAX)
    && w[0] * w[1] * w[2] <= WEIGHT_MAX / w[3]
    && 0 < burst <= BURST_SIZE_MAX
  }

  /** The cost of a byte on each channel, and the most a channel can owe. */
  datatype Config = Config(weights: seq<u32>, counterMax: u32) {
    ghost predicate Valid() {
      && |weights| == CHANNELS && 0 < counterMax <= BURST_SIZE_MAX * WEIGHT_MAX
      && forall i :: 0 <= i < CHANNELS ==> 0 < weights[i] <= WEIGHT_MAX
    }
  }

  function NewConfig(w: seq<u32>, burst: nat): (r: Option<Config>)
    ensures r.Some? <==> Accepted(w, burst)
    ensures r.Some? ==>
      && r.value.Valid() && r.value.counterMax == burst * Total(w)
      && forall i :: 0 <= i < CHANNELS ==> r.value.weights[i] == Others(w, i)
  {
    if Accepted(w, burst) then
      ProductFits(w[0] * w[1] * w[2], w[3]);
      WeightsFit(w[0], w[1], w[2], w[3]);
      Small(burst, Total(w));
      Some(Config([Others(w, 0), Others(w, 1), Others(w, 2), Others(w, 3)], burst * Total(w)))
    else None
  }

  function Total(w: seq<u32>): nat
    requires |w| == CHANNELS
  {
    var a, b, c, d: nat := w[0], w[1], w[2], w[3];
    a * b * c * d
  }

  /** The product of the other weights. */
  function Others(w: seq<u32>, i: nat): nat
    requires |w| == CHANNELS && i < CHANNELS
  {
    var a, b, c, d: nat := w[0], w[1], w[2], w[3];
    if i == 0 then b * c * d else if i == 1 then a * c * d else if i == 2 then a * b * d else a * b * c
  }

  lemma {:induction false} ProductFits(a: nat, b: nat)
    requires b > 0 && a <= WEIGHT_MAX / b
    ensures a * b <= WEIGHT_MAX
  {
    assert (WEIGHT_MAX / b) * b <= WEIGHT_MAX;
    Monotone(a, WEIGHT_MAX / b, b);
  }

  lemma {:induction false} Monotone(a: nat, b: nat, c: nat)
    requires a <= b
    ensures a * c <= b * c
  {
  }

  lemma {:induction false} Factor(a: nat, b: nat, total: nat)
    requires a > 0 && b > 0 && a * b == total
    ensures 0 < a <= total
  {
    Monotone(1, b, a);
  }

  lemma {:induction false} Assoc(a: nat, b: nat, c: nat)
    ensures a * (b * c) == a * b * c == (a * c) * b
  {
  }

  lemma {:induction false} Positive(a: nat, b: nat)
    requires a > 0 && b > 0
    ensures a * b > 0
  {
  }

  /** The product of three weights is a factor of the product of all four. */
  lemma {:induction false} Leave(a: nat, b: nat, c: nat, d: nat)
    requires a > 0 && b > 0 && c > 0 && d > 0
    ensures 0 < a * b * c && (a * b * c) * d == a * b * c * d
    ensures 0 < a * b * d && (a * b * d) * c == a * b * c * d
    ensures 0 < a * c * d && (a * c * d) * b == a * b * c * d
    ensures 0 < b * c * d && (b * c * d) * a == a * b * c * d
  {
    Positive(a, b); Positive(a * b, c); Positive(a * b, d);
    Positive(a, c); Positive(a * c, d);
    Positive(b, c); Positive(b * c, d);
    Assoc(a * b, c, d);
    Assoc(a * c, d, b); Assoc(a, c, b); Assoc(a * c, b, d);
    Assoc(b * c, d, a); Assoc(b, c, a); Assoc(b * c, a, d);
    assert b * c * a == a * b * c by { Assoc(b, a, c); }
  }

  lemma {:induction false} WeightsFit(a: nat, b: nat, c: nat, d: nat)
    requires a > 0 && b > 0 && c > 0 && d > 0 && a * b * c * d <= WEIGHT_MAX
    ensures 0 < b * c * d <= WEIGHT_MAX && 0 < a * c * d <= WEIGHT_MAX
    ensures 0 < a * b * d <= WEIGHT_MAX && 0 < a * b * c <= WEIGHT_MAX
    ensures 0 < a * b * c * d
  {
    var all := a * b * c * d;
    Leave(a, b, c, d);
    Factor(b * c * d, a, all);
    Factor(a * c * d, b, all);
    Factor(a * b * d, c, all);
    Factor(a * b * c, d, all);
  }

  lemma {:induction false} Small(burst: nat, product: nat)
    requires 0 < burst <= BURST_SIZE_MAX && 0 < product <= WEIGHT_MAX
    ensures 0 < burst * product <= BURST_SIZE_MAX * WEIGHT_MAX < LAP
  {
    Monotone(burst, BURST_SIZE_MAX, product);
    Monotone(product, WEIGHT_MAX, BURST_SIZE_MAX);
  }

  /** The cost of a byte is inversely proportional to the weight asked for. */
  lemma {:induction false} CostIsInverse(w: seq<u32>, burst: nat, config: Config, i: nat)
    requires |w| == CHANNELS && i < CHANNELS && config.Valid()
    requires NewConfig(w, burst) == Some(config)
    ensures var cost: nat, weight: nat := config.weights[i], w[i];
      cost * weight == Total(w) && config.counterMax == burst * Total(w)
  {
    hide NewConfig;
    OthersTimes(w, i);
  }

  lemma {:induction false} OthersTimes(w: seq<u32>, i: nat)
    requires |w| == CHANNELS && i < CHANNELS && forall j :: 0 <= j < CHANNELS ==> w[j] > 0
    ensures var weight: nat := w[i]; Others(w, i) * weight == Total(w)
  {
    Leave(w[0], w[1], w[2], w[3]);
  }

  /** No fragment of at most `burst` bytes costs more than a channel can owe. */
  lemma {:induction false} BurstCoversFragments(w: seq<u32>, burst: nat, config: Config, i: nat, bytes: nat)
    requires NewConfig(w, burst) == Some(config) && i < CHANNELS && bytes <= burst
    ensures var cost: nat := config.weights[i]; bytes * cost <= config.counterMax
  {
    hide NewConfig;
    CostIsInverse(w, burst, config, i);
    Covered(config.weights[i], w[i], Total(w), burst, bytes);
  }

  lemma {:induction false} Covered(cost: nat, weight: nat, total: nat, burst: nat, bytes: nat)
    requires cost > 0 && weight > 0 && cost * weight == total && bytes <= burst
    ensures bytes * cost <= burst * total
  {
    Factor(cost, weight, total);
    Monotone(bytes, burst, cost);
    Monotone(cost, total, burst);
  }

  // ---- choosing and charging ----

  /** The ready channel that owes least, the first of those that owe the same. */
  predicate Chooses(counters: seq<u32>, ready: seq<bool>, choice: Option<nat>)
    requires |counters| == |ready| == CHANNELS
  {
    match choice
    case None => forall i :: 0 <= i < CHANNELS ==> !ready[i]
    case Some(c) =>
      && c < CHANNELS && ready[c]
      && forall i :: 0 <= i < CHANNELS && ready[i] ==>
           counters[c] <= counters[i] && (i < c ==> counters[c] < counters[i])
  }

  function Least(counters: seq<u32>, ready: seq<bool>, n: nat): (r: Option<nat>)
    requires |counters| == |ready| == CHANNELS && n <= CHANNELS
    ensures r.None? ==> forall i :: 0 <= i < n ==> !ready[i]
    ensures r.Some? ==>
      && r.value < n && ready[r.value]
      && (forall i :: 0 <= i < n && ready[i] ==> counters[r.value] <= counters[i])
      && (forall i :: 0 <= i < r.value && ready[i] ==> counters[r.value] < counters[i])
  {
    if n == 0 then None
    else
      var least := Least(counters, ready, n - 1);
      if ready[n - 1] && (least.None? || counters[n - 1] < counters[least.value]) then Some(n - 1) else least
  }

  function Choice(counters: seq<u32>, ready: seq<bool>): (r: Option<nat>)
    requires |counters| == |ready| == CHANNELS
    ensures Chooses(counters, ready, r)
  {
    Least(counters, ready, |counters|)
  }

  lemma {:induction false} ChoiceIsUnique(counters: seq<u32>, ready: seq<bool>, choice: Option<nat>)
    requires |counters| == |ready| == CHANNELS && Chooses(counters, ready, choice)
    ensures choice == Choice(counters, ready)
  {
  }

  function SaturatingSub(a: nat, b: nat): nat {
    if a >= b then a - b else 0
  }

  function Lowered(counters: seq<u32>, excess: nat): (r: seq<u32>)
    ensures |r| == |counters| && forall i :: 0 <= i < |r| ==> r[i] == SaturatingSub(counters[i], excess)
    decreases |counters|
  {
    if counters == [] then []
    else Lowered(counters[..|counters| - 1], excess) + [SaturatingSub(counters[|counters| - 1], excess)]
  }

  /** A charge beyond the maximum lowers every counter by the excess. */
  function Charge(counters: seq<u32>, c: nat, cost: nat, counterMax: u32): (r: seq<u32>)
    requires |counters| == CHANNELS && c < CHANNELS
    ensures |r| == CHANNELS
  {
    if counters[c] + cost <= counterMax then counters[c := counters[c] + cost]
    else Lowered(counters, counters[c] + cost - counterMax)[c := counterMax]
  }

  lemma {:induction false} ChargeIs(counters: seq<u32>, c: nat, cost: nat, m: u32)
    requires |counters| == CHANNELS && c < CHANNELS
    ensures var after := Charge(counters, c, cost, m);
      forall i :: 0 <= i < CHANNELS ==>
        after[i] == SaturatingSub(if i == c then counters[i] + cost else counters[i],
                                  SaturatingSub(counters[c] + cost, m))
  {
  }

  ghost predicate Bounded(counters: seq<u32>, counterMax: u32) {
    |counters| == CHANNELS && forall i :: 0 <= i < CHANNELS ==> counters[i] <= counterMax
  }

  lemma {:induction false} CostFits(config: Config, c: nat, bytes: nat)
    requires config.Valid() && c < CHANNELS && bytes <= DATA_SIZE_MAX
    ensures bytes * config.weights[c] <= DATA_SIZE_MAX * WEIGHT_MAX
  {
    Monotone(bytes, DATA_SIZE_MAX, config.weights[c]);
    Monotone(config.weights[c], WEIGHT_MAX, DATA_SIZE_MAX);
  }

  class Prio {
    const counters: array<u32>
    const weights: seq<u32>
    const counterMax: u32

    ghost predicate Valid()
      reads this, counters
    {
      counters.Length == CHANNELS && Config(weights, counterMax).Valid() && Bounded(counters[..], counterMax)
    }

    constructor (config: Config)
      requires config.Valid()
      ensures Valid() && counters[..] == [0, 0, 0, 0] && Config(weights, counterMax) == config && fresh(counters)
    {
      counters := new u32[4](_ => 0);
      weights := config.weights;
      counterMax := config.counterMax;
    }

    method Next(ch0: bool, ch1: bool, ch2: bool, ch3: bool) returns (minChan: Option<nat>)
      requires Valid()
      ensures Chooses(counters[..], [ch0, ch1, ch2, ch3], minChan)
    {
      minChan := None;
      var minVal: u32 := 0;
      if ch0 {
        minChan, minVal := Some(0), counters[0];
      }
      if ch1 && (minChan.None? || counters[1] < minVal) {
        minChan, minVal := Some(1), counters[1];
      }
      if ch2 && (minChan.None? || counters[2] < minVal) {
        minChan, minVal := Some(2), counters[2];
      }
      if ch3 && (minChan.None? || counters[3] < minVal) {
        minChan := Some(3);
      }
    }

    /** Neither the cost nor the counter wraps. */
    method MarkSent(channel: nat, dataSize: nat)
      requires Valid() && channel < CHANNELS && dataSize <= DATA_SIZE_MAX
      modifies counters
      ensures Valid()
      ensures counters[..] == Charge(old(counters[..]), channel, dataSize * weights[channel], counterMax)
    {
      CostFits(Config(weights, counterMax), channel, dataSize);
      Add(channel, dataSize * weights[channel]);
    }

    /** Charges a channel, and lowers them all by what exceeds the maximum. */
    method Add(channel: nat, weightedSize: u32)
      requires Valid() && channel < CHANNELS && weightedSize <= DATA_SIZE_MAX * WEIGHT_MAX
      modifies counters
      ensures Valid()
      ensures counters[..] == Charge(old(counters[..]), channel, weightedSize, counterMax)
    {
      hide Charge;
      ghost var before := counters[..];
      ChargeIs(before, channel, weightedSize, counterMax);
      counters[channel] := WrapAdd(counters[channel], weightedSize);
      ghost var charged := counters[..];
      if counters[channel] > counterMax {
        var excess := counters[channel] - counterMax;
        var i := 0;
        while i < 4
          invariant i <= 4
          invariant forall j :: i <= j < 4 ==> counters[j] == charged[j]
          invariant forall j :: 0 <= j < i ==> counters[j] == SaturatingSub(charged[j], excess)
        {
          counters[i] := SaturatingSub(counters[i], excess);
          i := i + 1;
        }
      }
      assert counters[..] == Charge(before, channel, weightedSize, counterMax);
    }
  }

  // ---- fairness ----

  /** Which channels have something to send, and the size of the fragment each would send. */
  datatype Offer = Offer(ready: seq<bool>, heads: seq<nat>)
  type Turn = t: Offer | |t.ready| == |t.heads| == 4 witness Offer([false, false, false, false], [0, 0, 0, 0])

  /** What every channel owes and the weighted total of what it has sent. */
  datatype Books = Books(counters: seq<u32>, totals: seq<nat>)

  function Cost(config: Config, t: Turn, c: nat): nat
    requires |config.weights| == CHANNELS && c < CHANNELS
  {
    t.heads[c] * config.weights[c]
  }

  /** Every ready channel's fragment costs at most `limit`. */
  ghost predicate CostsAtMost(config: Config, t: Turn, limit: int)
    requires |config.weights| == CHANNELS
  {
    forall c :: 0 <= c < CHANNELS && t.ready[c] ==> Cost(config, t, c) <= limit
  }

  function Serve(config: Config, b: Books, t: Turn): (r: Books)
    requires |config.weights| == |b.counters| == |b.totals| == CHANNELS
    ensures |r.counters| == |r.totals| == CHANNELS
  {
    match Choice(b.counters, t.ready)
    case None => b
    case Some(c) =>
      var cost := Cost(config, t, c);
      Books(Charge(b.counters, c, cost, config.counterMax), b.totals[c := b.totals[c] + cost])
  }

  ghost predicate AlwaysReady(turns: seq<Turn>, i: nat)
    requires i < CHANNELS
  {
    forall t :: t in turns ==> t.ready[i]
  }

  ghost predicate AllCostAtMost(config: Config, turns: seq<Turn>, limit: int)
    requires |config.weights| == CHANNELS
  {
    forall t :: t in turns ==> CostsAtMost(config, t, limit)
  }

  function Account(config: Config, b: Books, turns: seq<Turn>): (r: Books)
    requires |config.weights| == |b.counters| == |b.totals| == CHANNELS
    ensures |r.counters| == |r.totals| == CHANNELS
    decreases |turns|
  {
    if turns == [] then b
    else Serve(config, Account(config, b, turns[..|turns| - 1]), turns[|turns| - 1])
  }

  function Gap(b: Books, i: nat, j: nat): int
    requires |b.counters| == CHANNELS && i < CHANNELS && j < CHANNELS
  {
    (b.counters[i] as int) - (b.counters[j] as int)
  }

  function Lead(b: Books, i: nat, j: nat): int
    requires |b.totals| == CHANNELS && i < CHANNELS && j < CHANNELS
  {
    (b.totals[i] as int) - (b.totals[j] as int)
  }

  predicate Within(x: int, limit: int) {
    -limit <= x <= limit
  }

  /** No turn loses what a ready channel owes: the excess never exceeds any ready counter. So the gap
      between two ready counters moves with the lead of one channel over the other. */
  lemma {:induction false} ServeKeepsGap(config: Config, b: Books, t: Turn, i: nat, j: nat, limit: int)
    requires config.Valid() && Bounded(b.counters, config.counterMax) && |b.totals| == CHANNELS
    requires CostsAtMost(config, t, limit) && 0 <= limit <= config.counterMax
    requires i < CHANNELS && j < CHANNELS && t.ready[i] && t.ready[j]
    ensures var after := Serve(config, b, t);
      && Bounded(after.counters, config.counterMax)
      && Gap(after, i, j) - Gap(b, i, j) == Lead(after, i, j) - Lead(b, i, j)
      && (Within(Gap(b, i, j), limit) ==> Within(Gap(after, i, j), limit))
  {
    var c := Choice(b.counters, t.ready).value;
    assert b.counters[c] <= b.counters[i] && b.counters[c] <= b.counters[j];
    assert Cost(config, t, c) <= limit;
  }

  /** From counters no further apart than one fragment, two channels that always have something to
      send never get more than the dearest fragment apart from where they were, whatever the
      other channels do. */
  lemma {:induction false} FairFrom(config: Config, b: Books, turns: seq<Turn>, i: nat, j: nat, limit: int)
    requires config.Valid() && Bounded(b.counters, config.counterMax) && |b.totals| == CHANNELS
    requires i < CHANNELS && j < CHANNELS && AlwaysReady(turns, i) && AlwaysReady(turns, j)
    requires 0 <= limit <= config.counterMax && AllCostAtMost(config, turns, limit)
    requires Within(Gap(b, i, j), limit)
    ensures var after := Account(config, b, turns);
      && Bounded(after.counters, config.counterMax)
      && Within(Gap(after, i, j), limit)
      && Lead(after, i, j) - Lead(b, i, j) == Gap(after, i, j) - Gap(b, i, j)
    decreases |turns|
  {
    if turns != [] {
      var front, last := turns[..|turns| - 1], turns[|turns| - 1];
      assert forall t :: t in front ==> t in turns;
      assert last in turns;
      FairFrom(config, b, front, i, j, limit);
      ServeKeepsGap(config, Account(config, b, front), last, i, j, limit);
    }
  }

  function Fresh(): Books {
    Books([0, 0, 0, 0], [0, 0, 0, 0])
  }

  /** From a fresh scheduler the weighted totals of two channels that always have something to send
      never differ by more than the dearest fragment. */
  lemma {:induction false} WeightedFairness(config: Config, turns: seq<Turn>, i: nat, j: nat, limit: int)
    requires config.Valid() && i < CHANNELS && j < CHANNELS && AlwaysReady(turns, i) && AlwaysReady(turns, j)
    requires 0 <= limit <= config.counterMax && AllCostAtMost(config, turns, limit)
    ensures Within(Lead(Account(config, Fresh(), turns), i, j), limit)
  {
    FairFrom(config, Fresh(), turns, i, j, limit);
  }

  // ---- how small a burst size is too small ----

  /** The first two channels always have something to send, fragments of at most `bytes`, and the others
      never. */
  ghost predicate Backlogged(turns: seq<Turn>, bytes: nat) {
    forall t :: t in turns ==> t.ready == [true, true, false, false] && t.heads[0] <= bytes && t.heads[1] <= bytes
  }

  /** In every such run, of any length, the weighted totals stay within `bound` of each other. */
  ghost predicate FairWithin(config: Config, bytes: nat, bound: nat)
    requires |config.weights| == CHANNELS
  {
    forall turns :: Backlogged(turns, bytes) ==> Within(Lead(Account(config, Fresh(), turns), 0, 1), bound)
  }

  function Dearest(config: Config, bytes: nat): nat
    requires |config.weights| == CHANNELS
  {
    bytes * if config.weights[0] >= config.weights[1] then config.weights[0] else config.weights[1]
  }

  /** The counters when one channel owes x and the other y; `dear` is the first's place. */
  function Pair(dear: nat, x: u32, y: u32): seq<u32> {
    if dear == 0 then [x, y, 0, 0] else [y, x, 0, 0]
  }

  /** The dear channel always offers a big fragment, the other a single byte. */
  function Lopsided(dear: nat, bytes: nat): Turn {
    Offer([true, true, false, false], if dear == 0 then [bytes, 1, 0, 0] else [1, bytes, 0, 0])
  }

  /** A configuration under which a fragment of the dear channel costs more than a channel can owe, which
      is what `fill` bytes of the other cost. */
  ghost predicate TooDear(config: Config, dear: nat, bytes: nat, fill: nat) {
    && config.Valid() && dear < 2 && bytes > 0
    && var w, v := config.weights[dear], config.weights[1 - dear];
       && (if dear == 0 then w >= v else w > v)
       && bytes * w >= config.counterMax + w && v <= config.counterMax == fill * v
  }

  function Repeat(t: Turn, n: nat): (r: seq<Turn>)
    ensures |r| == n && forall u :: u in r ==> u == t
  {
    if n == 0 then [] else Repeat(t, n - 1) + [t]
  }

  lemma {:induction false} AccountNext(config: Config, b: Books, turns: seq<Turn>, t: Turn)
    requires |config.weights| == |b.counters| == |b.totals| == CHANNELS
    ensures Account(config, b, turns + [t]) == Serve(config, Account(config, b, turns), t)
  {
    assert (turns + [t])[..|turns|] == turns;
  }

  lemma {:induction false} AccountNone(config: Config)
    requires |config.weights| == CHANNELS
    ensures Account(config, Fresh(), []) == Fresh()
  {
  }

  /** What a turn does to the two. */
  lemma {:induction false} LopsidedTurn(config: Config, dear: nat, bytes: nat, b: Books, x: u32, y: u32)
    requires config.Valid() && dear < 2 && |b.totals| == CHANNELS && b.counters == Pair(dear, x, y)
    ensures var after := Serve(config, b, Lopsided(dear, bytes));
      var m, w, v := config.counterMax, bytes * config.weights[dear], config.weights[1 - dear];
      if x < y || (x == y && dear == 0) then
        && Lead(after, dear, 1 - dear) == Lead(b, dear, 1 - dear) + w
        && after.counters == if x + w <= m then Pair(dear, x + w, y) else Pair(dear, m, SaturatingSub(y, x + w - m))
      else
        && Lead(after, dear, 1 - dear) == Lead(b, dear, 1 - dear) - v
        && after.counters == if y + v <= m then Pair(dear, x, y + v) else Pair(dear, SaturatingSub(x, y + v - m), m)
  {
    var t := Lopsided(dear, bytes);
    var c := if x < y || (x == y && dear == 0) then dear else 1 - dear;
    ChoiceIsUnique(b.counters, t.ready, Some(c));
    assert Cost(config, t, dear) == bytes * config.weights[dear];
    assert Cost(config, t, 1 - dear) == 1 * config.weights[1 - dear];
    var after := Serve(config, b, t);
    assert after.counters == Charge(b.counters, c, Cost(config, t, c), config.counterMax);
    assert after.counters[2] == 0 && after.counters[3] == 0;
  }

  /** The other channel fills up byte by byte while the dear one owes the maximum. */
  lemma {:induction false} Refill(config: Config, dear: nat, bytes: nat, turns: seq<Turn>, n: nat)
    requires config.Valid() && dear < 2 && n * config.weights[1 - dear] <= config.counterMax
    requires Account(config, Fresh(), turns).counters == Pair(dear, config.counterMax, 0)
    ensures var v := config.weights[1 - dear];
      var before := Account(config, Fresh(), turns);
      var after := Account(config, Fresh(), turns + Repeat(Lopsided(dear, bytes), n));
      && after.counters == Pair(dear, config.counterMax, n * v)
      && Lead(after, dear, 1 - dear) == Lead(before, dear, 1 - dear) - n * v
    decreases n
  {
    hide Account, Serve, Lead;
    var t := Lopsided(dear, bytes);
    var v, m := config.weights[1 - dear], config.counterMax;
    if n == 0 {
      assert turns + Repeat(t, 0) == turns;
    } else {
      assert n * v == (n - 1) * v + v;
      Refill(config, dear, bytes, turns, n - 1);
      var front := turns + Repeat(t, n - 1);
      assert turns + Repeat(t, n) == front + [t];
      AccountNext(config, Fresh(), front, t);
      LopsidedTurn(config, dear, bytes, Account(config, Fresh(), front), m, (n - 1) * v);
    }
  }

  /** A round: the other channel fills up, and what it owes is lost to the next big fragment. */
  lemma {:induction false} LopsidedRound(config: Config, dear: nat, bytes: nat, fill: nat, turns: seq<Turn>)
    returns (more: seq<Turn>)
    requires TooDear(config, dear, bytes, fill) && Backlogged(turns, bytes)
    requires Account(config, Fresh(), turns).counters == Pair(dear, config.counterMax, 0)
    ensures Backlogged(more, bytes) && Account(config, Fresh(), more).counters == Pair(dear, config.counterMax, 0)
    ensures Lead(Account(config, Fresh(), more), dear, 1 - dear) > Lead(Account(config, Fresh(), turns), dear, 1 - dear)
  {
    hide Account, Serve, Lead;
    var t := Lopsided(dear, bytes);
    var m, v := config.counterMax, config.weights[1 - dear];
    Refill(config, dear, bytes, turns, fill);
    more := turns + Repeat(t, fill);
    if dear == 1 {
      // A tie goes to the other channel.
      LopsidedTurn(config, dear, bytes, Account(config, Fresh(), more), m, m);
      AccountNext(config, Fresh(), more, t);
      more := more + [t];
      LopsidedTurn(config, dear, bytes, Account(config, Fresh(), more), m - v, m);
    } else {
      LopsidedTurn(config, dear, bytes, Account(config, Fresh(), more), m, m);
    }
    AccountNext(config, Fresh(), more, t);
    more := more + [t];
  }

  lemma {:induction false} FirstRound(config: Config, dear: nat, bytes: nat, fill: nat) returns (turns: seq<Turn>)
    requires TooDear(config, dear, bytes, fill)
    ensures Backlogged(turns, bytes) && Account(config, Fresh(), turns).counters == Pair(dear, config.counterMax, 0)
    ensures Lead(Account(config, Fresh(), turns), dear, 1 - dear) >= Lead(Fresh(), dear, 1 - dear)
  {
    hide Account, Serve, Lead;
    var t := Lopsided(dear, bytes);
    turns := [];
    AccountNone(config);
    assert Fresh().counters == Pair(dear, 0, 0);
    LopsidedTurn(config, dear, bytes, Fresh(), 0, 0);
    if dear == 1 {
      AccountNext(config, Fresh(), [], t);
      turns := [] + [t];
      LopsidedTurn(config, dear, bytes, Account(config, Fresh(), turns), 0, config.weights[0]);
    }
    AccountNext(config, Fresh(), turns, t);
    turns := turns + [t];
  }

  lemma {:induction false} LopsidedRun(config: Config, dear: nat, bytes: nat, fill: nat, n: nat)
    returns (turns: seq<Turn>)
    requires TooDear(config, dear, bytes, fill)
    ensures Backlogged(turns, bytes) && Account(config, Fresh(), turns).counters == Pair(dear, config.counterMax, 0)
    ensures Lead(Account(config, Fresh(), turns), dear, 1 - dear) >= n
    decreases n
  {
    if n == 0 {
      turns := FirstRound(config, dear, bytes, fill);
    } else {
      turns := LopsidedRun(config, dear, bytes, fill, n - 1);
      turns := LopsidedRound(config, dear, bytes, fill, turns);
    }
  }

  /** However far apart: some run gets there. */
  lemma {:induction false} Unfair(config: Config, dear: nat, bytes: nat, fill: nat, bound: nat)
    requires TooDear(config, dear, bytes, fill)
    ensures !FairWithin(config, bytes, bound)
  {
    var turns := LopsidedRun(config, dear, bytes, fill, bound + 1);
    assert !Within(Lead(Account(config, Fresh(), turns), 0, 1), bound);
  }

  lemma {:induction false} BackloggedFits(config: Config, turns: seq<Turn>, bytes: nat)
    requires config.Valid() && Backlogged(turns, bytes)
    ensures AlwaysReady(turns, 0) && AlwaysReady(turns, 1) && AllCostAtMost(config, turns, Dearest(config, bytes))
  {
    forall t | t in turns
      ensures CostsAtMost(config, t, Dearest(config, bytes))
    {
      var most := if config.weights[0] >= config.weights[1] then config.weights[0] else config.weights[1];
      forall c | 0 <= c < 2
        ensures Cost(config, t, c) <= bytes * most
      {
        Monotone(t.heads[c], bytes, config.weights[c]);
        Monotone(config.weights[c], most, bytes);
      }
    }
  }

  /** A fragment that costs more than a channel can owe costs at least a byte more, for the maximum is a
      multiple of either cost. */
  lemma {:induction false} DearestIsTooDear(w: seq<u32>, burst: nat, config: Config, bytes: nat)
    requires NewConfig(w, burst) == Some(config) && |w| == CHANNELS
    requires Dearest(config, bytes) > config.counterMax
    ensures var dear := if config.weights[0] >= config.weights[1] then 0 else 1;
      TooDear(config, dear, bytes, burst * w[1 - dear])
  {
    hide NewConfig;
    var dear := if config.weights[0] >= config.weights[1] then 0 else 1;
    CostIsInverse(w, burst, config, dear);
    CostIsInverse(w, burst, config, 1 - dear);
    TooDearBy(config.weights[dear], w[dear], Total(w), burst, bytes, config.counterMax);
    Fills(config.weights[1 - dear], w[1 - dear], Total(w), burst, config.counterMax);
  }

  lemma {:induction false} TooDearBy(cost: nat, weight: nat, total: nat, burst: nat, bytes: nat, m: nat)
    requires cost * weight == total && m == burst * total && bytes * cost > m
    ensures bytes * cost >= m + cost
  {
    Assoc(burst, cost, weight);
    MultiplesApart(cost, bytes, burst * weight);
  }

  lemma {:induction false} Fills(cost: nat, weight: nat, total: nat, burst: nat, m: nat)
    requires cost * weight == total && 0 < m == burst * total && cost > 0
    ensures cost <= m == (burst * weight) * cost
  {
    Assoc(burst, cost, weight);
    if burst * weight > 0 {
      Monotone(1, burst * weight, cost);
    }
  }

  lemma {:induction false} MultiplesApart(w: nat, a: nat, b: nat)
    requires w * a > w * b
    ensures w * a >= w * b + w
  {
    if a <= b {
      Monotone(a, b, w);
    }
    Monotone(b + 1, a, w);
  }

  /** For every configuration and every bound on the size of fragments: two backlogged channels stay
      within some bound of each other, over runs of any length, exactly when no fragment costs more than
      a channel can owe; and then that bound is the cost of the dearest fragment. */
  lemma {:induction false} FairExactlyWhenBurstCovers(w: seq<u32>, burst: nat, config: Config, bytes: nat)
    requires NewConfig(w, burst) == Some(config) && bytes <= DATA_SIZE_MAX
    ensures (exists bound :: FairWithin(config, bytes, bound)) <==> Dearest(config, bytes) <= config.counterMax
    ensures Dearest(config, bytes) <= config.counterMax ==> FairWithin(config, bytes, Dearest(config, bytes))
  {
    hide Account, NewConfig, Lead, TooDear;
    var limit := Dearest(config, bytes);
    if limit <= config.counterMax {
      forall turns | Backlogged(turns, bytes)
        ensures Within(Lead(Account(config, Fresh(), turns), 0, 1), limit)
      {
        BackloggedFits(config, turns, bytes);
        WeightedFairness(config, turns, 0, 1, limit);
      }
      assert FairWithin(config, bytes, limit);
    } else {
      var dear := if config.weights[0] >= config.weights[1] then 0 else 1;
      DearestIsTooDear(w, burst, config, bytes);
      forall bound
        ensures !FairWithin(config, bytes, bound)
      {
        Unfair(config, dear, bytes, burst * w[1 - dear], bound);
      }
    }
  }
}
