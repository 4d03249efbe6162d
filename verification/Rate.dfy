/** The byte-rate limiter: one theoretical arrival time in nanoseconds, moved forward by Get and back by
    ReturnBucket with compare-and-swap, in saturating 64-bit arithmetic. */
module Rate {
  import opened Common

  const MAX_I64: int := 0x7fff_ffff_ffff_ffff
  const MIN_I64: int := -0x8000_0000_0000_0000
  /** burstWindowNs. */
  const BURST: int := 2_000_000_000
  /** coalesceWaitNs. */
  const COALESCE: int := 200_000

  /** Two's-complement wrap-around of a sum of two int64 values. */
  function Wrap64(x: int): int {
    if x > MAX_I64 then x - 0x1_0000_0000_0000_0000
    else if x < MIN_I64 then x + 0x1_0000_0000_0000_0000
    else x
  }

  /** Division that truncates toward zero. */
  function Quotient(a: int, b: int): int
    requires b > 0
  {
    if a >= 0 then a / b else -((-a) / b)
  }

  function BytesToNsCeil(bytes: int, rate: int): int {
    if bytes <= 0 || rate <= 0 then 0
    else if bytes > MAX_I64 / 1_000_000_000 then MAX_I64
    else Quotient(Wrap64(bytes * 1_000_000_000 + rate - 1), rate)
  }

  function ClampAdd(a: int, b: int): int {
    if b <= 0 then a else if a > MAX_I64 - b then MAX_I64 else a + b
  }

  function ClampSub(a: int, b: int): int {
    if b <= 0 then a else if a < MIN_I64 + b then MIN_I64 else a - b
  }

  /** The sum inside bytesToNsCeil fits in 64 bits. */
  predicate Fits(bytes: int, rate: int) {
    bytes * 1_000_000_000 + rate - 1 <= MAX_I64
  }

  /** The largest request that bytesToNsCeil scales instead of charging the maximum. */
  const LIMIT: int := MAX_I64 / 1_000_000_000

  /** The time the bytes take at the rate, in nanoseconds, rounded up. */
  function Ceiling(bytes: int, rate: int): int
    requires rate > 0
  {
    (bytes * 1_000_000_000 + rate - 1) / rate
  }

  lemma DivRange(x: int, r: int)
    requires r > 0
    ensures (x / r) * r <= x < (x / r + 1) * r
  {
    assert x == (x / r) * r + x % r;
    assert (x / r + 1) * r == (x / r) * r + r;
  }

  lemma CeilingRange(bytes: int, rate: int)
    requires bytes > 0 && rate > 0
    ensures (Ceiling(bytes, rate) - 1) * rate < bytes * 1_000_000_000 <= Ceiling(bytes, rate) * rate
    ensures Ceiling(bytes, rate) > 0
  {
    var c := Ceiling(bytes, rate);
    DivRange(bytes * 1_000_000_000 + rate - 1, rate);
    assert (c - 1) * rate == c * rate - rate && (c + 1) * rate == c * rate + rate;
    Sign(c, rate);
  }

  /** A sum that overflows leaves a charge that is not positive. */
  lemma OverflowNotPositive(bytes: int, rate: int)
    requires 0 < bytes <= LIMIT && 0 < rate <= MAX_I64 && !Fits(bytes, rate)
    ensures BytesToNsCeil(bytes, rate) <= 0
  {
    var sum := Wrap64(bytes * 1_000_000_000 + rate - 1);
    assert sum < 0;
    DivRange(-sum, rate);
    if (-sum) / rate < 0 {
      Sign((-sum) / rate, rate);
    }
  }

  /** Whether the maximum is reached can be told from the product of rate and maximum. */
  lemma CeilingAtLeast(bytes: int, rate: int, m: int)
    requires bytes > 0 && rate > 0
    ensures Ceiling(bytes, rate) >= m <==> rate * (m - 1) < bytes * 1_000_000_000
  {
    var c := Ceiling(bytes, rate);
    CeilingRange(bytes, rate);
    assert (c - m) * rate == c * rate - m * rate && rate * (m - 1) == m * rate - rate;
    Sign(c - m, rate);
  }

  /** When the charge is right: requests up to the limit must not overflow the sum, larger ones must really
      take the maximum. */
  predicate ChargedRight(bytes: int, rate: int) {
    if bytes <= LIMIT then Fits(bytes, rate) else rate * (MAX_I64 - 1) < bytes * 1_000_000_000
  }

  /** For every request, bytesToNsCeil is the exact ceiling of bytes over rate, cut off at the largest int64,
      if and only if it is charged right.  Otherwise a request up to the limit is charged nothing or less, and a
      larger one is charged more than it should be. */
  lemma CeilingExact(bytes: int, rate: int)
    requires 0 < bytes <= MAX_I64 && 0 < rate <= MAX_I64
    ensures BytesToNsCeil(bytes, rate) == Min(MAX_I64, Ceiling(bytes, rate)) <==> ChargedRight(bytes, rate)
    ensures !ChargedRight(bytes, rate) && bytes <= LIMIT ==> BytesToNsCeil(bytes, rate) <= 0
    ensures !ChargedRight(bytes, rate) && bytes > LIMIT ==> BytesToNsCeil(bytes, rate) > Ceiling(bytes, rate)
  {
    CeilingRange(bytes, rate);
    if bytes > LIMIT {
      CeilingAtLeast(bytes, rate, MAX_I64);
    } else if Fits(bytes, rate) {
      CeilingFits(bytes, rate);
    } else {
      OverflowNotPositive(bytes, rate);
    }
  }

  lemma CeilingFits(bytes: int, rate: int)
    requires bytes > 0 && rate > 0 && Fits(bytes, rate)
    ensures Ceiling(bytes, rate) <= MAX_I64
  {
    var sum := bytes * 1_000_000_000 + rate - 1;
    DivRange(sum, rate);
    assert (sum / rate) * rate >= sum / rate by {
      CeilingRange(bytes, rate);
      assert (sum / rate) * rate == (sum / rate) * (rate - 1) + sum / rate;
      Sign(rate - 1, sum / rate);
      assert (sum / rate) * (rate - 1) == (rate - 1) * (sum / rate);
    }
  }

  /** A Get is charged enough for its bytes. */
  predicate FairGet(bytes: int, rate: int) {
    if bytes <= LIMIT then Fits(bytes, rate) else bytes * 1_000_000_000 <= MAX_I64 * rate
  }

  /** A refund gives back no more than its bytes, up to a nanosecond. */
  predicate FairRefund(bytes: int, rate: int) {
    bytes <= LIMIT || rate * (MAX_I64 - 1) <= bytes * 1_000_000_000
  }

  /** Exactly when the charge covers the bytes, and exactly when it exceeds them by less than a nanosecond. */
  lemma FairExact(bytes: int, rate: int)
    requires 0 < bytes <= MAX_I64 && 0 < rate <= MAX_I64
    ensures bytes * 1_000_000_000 <= BytesToNsCeil(bytes, rate) * rate <==> FairGet(bytes, rate)
    ensures (Max(BytesToNsCeil(bytes, rate), 0) - 1) * rate <= bytes * 1_000_000_000 <==> FairRefund(bytes, rate)
    ensures FairGet(bytes, rate) ==> BytesToNsCeil(bytes, rate) > 0
  {
    CeilingRange(bytes, rate);
    if bytes <= LIMIT {
      if Fits(bytes, rate) {
        CeilingFits(bytes, rate);
      } else {
        OverflowNotPositive(bytes, rate);
        Sign(BytesToNsCeil(bytes, rate), rate);
      }
    } else {
      assert (MAX_I64 - 1) * rate == rate * (MAX_I64 - 1);
    }
  }

  lemma Sign(c: int, r: int)
    requires r > 0
    ensures c <= 0 ==> c * r <= 0
    ensures c >= 0 ==> c * r >= 0
    ensures c < 0 ==> c * r <= -r
  {
    if c < 0 {
      assert c * r == -((-c) * r);
      assert (-c) * r == (-c - 1) * r + r;
      assert (-c - 1) * r >= 0;
    }
  }

  /** A request of 9223372036 bytes at 10^9 bytes a second overflows and is charged nothing. */
  lemma OverflowIsFree()
    ensures !Fits(9223372036, 1_000_000_000)
    ensures forall tat: int :: ClampAdd(tat, BytesToNsCeil(9223372036, 1_000_000_000)) == tat
  {
  }

  /** A request of 10^10 bytes at 10^10 bytes a second takes one second and is charged 292 years. */
  lemma LargeRequestOvercharged()
    ensures Ceiling(10_000_000_000, 10_000_000_000) == 1_000_000_000
    ensures BytesToNsCeil(10_000_000_000, 10_000_000_000) == MAX_I64
  {
    var c := Ceiling(10_000_000_000, 10_000_000_000);
    CeilingRange(10_000_000_000, 10_000_000_000);
  }

  /** bytesPerSec. */
  function BytesPerSec(bytes: int, dt: int): int {
    if bytes <= 0 || dt <= 0 then 0
    else
      var q, rem := bytes / dt, bytes % dt;
      if q > MAX_I64 / 1_000_000_000 then MAX_I64
      else
        var res := q * 1_000_000_000;
        var add :=
          if rem == 0 then 0
          else if rem > MAX_I64 / 1_000_000_000 then MAX_I64 / dt
          else (rem * 1_000_000_000) / dt;
        if add > MAX_I64 - res then MAX_I64 else res + add
  }

  lemma WholeRate(bytes: int, dt: int)
    requires 0 < bytes <= MAX_I64 && 0 < dt <= MAX_I64
    ensures bytes * 1_000_000_000 / dt == (bytes / dt) * 1_000_000_000 + (bytes % dt) * 1_000_000_000 / dt
    ensures bytes / dt >= 0 && (bytes % dt) * 1_000_000_000 / dt >= 0
  {
    var q, rem := bytes / dt, bytes % dt;
    assert bytes * 1_000_000_000 == (q * 1_000_000_000) * dt + rem * 1_000_000_000;
    QuotientSum(q * 1_000_000_000, rem * 1_000_000_000, dt);
    DivRange(rem * 1_000_000_000, dt);
    DivRange(bytes, dt);
    Sign(rem * 1_000_000_000 / dt, dt);
    Sign(q, dt);
  }

  /** A remainder too large to scale means a long time, so nothing saturates and the estimate is too small. */
  lemma CoarseRate(bytes: int, dt: int)
    requires 0 < bytes <= MAX_I64 && 0 < dt <= MAX_I64 && bytes % dt > LIMIT
    ensures BytesPerSec(bytes, dt) == (bytes / dt) * 1_000_000_000 + MAX_I64 / dt < MAX_I64
    ensures MAX_I64 / dt <= (bytes % dt) * 1_000_000_000 / dt
    ensures bytes * 1_000_000_000 / dt < MAX_I64
  {
    var rem := bytes % dt;
    WholeRate(bytes, dt);
    QuotientBelow(MAX_I64, dt, 1_000_000_000);
    QuotientBelow(bytes, dt, 1_000_000_000);
    QuotientBelow(rem * 1_000_000_000, dt, 1_000_000_000);
    QuotientMonotone(MAX_I64, rem * 1_000_000_000, dt);
  }

  lemma QuotientMonotone(x: int, y: int, r: int)
    requires r > 0 && x <= y
    ensures x / r <= y / r
  {
    DivRange(x, r);
    DivRange(y, r);
    var d := y / r - x / r;
    assert (d + 1) * r == (y / r + 1) * r - (x / r) * r;
    Sign(d + 1, r);
  }

  lemma QuotientBelow(x: int, r: int, k: int)
    requires r > 0 && 0 <= x < k * r
    ensures 0 <= x / r < k
  {
    DivRange(x, r);
    Sign(x / r, r);
    assert (x / r - k) * r == (x / r) * r - k * r;
    Sign(x / r - k, r);
  }

  /** bytesPerSec never overstates the rate, and is the exact rate, rounded down and cut off at the largest
      int64, if and only if the remainder can be scaled or its coarser estimate happens to agree. */
  lemma BytesPerSecExact(bytes: int, dt: int)
    requires 0 < bytes <= MAX_I64 && 0 < dt <= MAX_I64
    ensures BytesPerSec(bytes, dt) <= Min(MAX_I64, bytes * 1_000_000_000 / dt)
    ensures BytesPerSec(bytes, dt) == Min(MAX_I64, bytes * 1_000_000_000 / dt)
      <==> bytes % dt <= LIMIT || MAX_I64 / dt == (bytes % dt) * 1_000_000_000 / dt
  {
    WholeRate(bytes, dt);
    if bytes % dt > LIMIT {
      CoarseRate(bytes, dt);
    }
  }

  lemma QuotientSum(a: int, x: int, r: int)
    requires r > 0
    ensures (a * r + x) / r == a + x / r
  {
    var k := x / r;
    DivRange(x, r);
    assert (a + k) * r == a * r + k * r;
    assert (a + k + 1) * r == a * r + (k + 1) * r;
    QuotientIs(a * r + x, r, a + k);
  }

  lemma QuotientIs(x: int, r: int, k: int)
    requires r > 0 && k * r <= x < (k + 1) * r
    ensures x / r == k
  {
    DivRange(x, r);
    var d := x / r - k;
    assert (x / r + 1) * r == (x / r) * r + r;
    assert (k + 1) * r == k * r + r;
    assert d * r == (x / r) * r - k * r;
    Sign(d, r);
    Sign(-d, r);
  }

  // One pass of the two loops.

  /** The arrival time Get stores, and the base it adds its cost to. */
  function GetBase(tat: int, now: int): int {
    Max(tat, now - BURST)
  }

  function GetNext(tat: int, now: int, cost: int): int {
    ClampAdd(GetBase(tat, now), cost)
  }

  /** The arrival time ReturnBucket stores. */
  function RefundNext(tat: int, now: int, refund: int): int {
    Max(ClampSub(tat, refund), now - BURST)
  }

  /** How long Get sleeps: waits up to the coalescing bound are skipped. */
  function Sleep(next: int, now: int): int {
    if next - now > COALESCE then next - now else 0
  }

  class Limiter {
    var rate: int
    var tat: int

    constructor (limit: int)
      ensures rate == Max(limit, 0) && tat == if limit > 0 then -BURST else 0
    {
      rate := if limit <= 0 then 0 else limit;
      tat := if limit <= 0 then 0 else -BURST;
    }

    /** Get on an enabled limiter.  The clock is read once per attempt; before attempt k's
        compare-and-swap another goroutine may have stored others[k].  The loop has the effect of one
        atomic step on the last value it loaded. */
    method Get(size: int, clock: seq<int>, others: seq<int>) returns (sleep: int, ghost at: nat)
      requires |clock| == |others| + 1
      modifies this`tat
      ensures size <= 0 || rate <= 0 ==> sleep == 0 && tat == old(tat)
      ensures size > 0 && rate > 0 ==>
        && at <= |others|
        && var seen := if at == 0 then old(tat) else others[at - 1];
           var next := GetNext(seen, clock[at], BytesToNsCeil(size, rate));
           tat == next && sleep == Sleep(next, clock[at])
    {
      at := 0;
      if size <= 0 || rate <= 0 {
        return 0, 0;
      }
      var cost := BytesToNsCeil(size, rate);
      var k := 0;
      while true
        invariant 0 <= k <= |others|
        invariant tat == if k == 0 then old(tat) else others[k - 1]
        decreases |others| - k
      {
        var now := clock[k];
        var minTat := now - BURST;
        var prev := tat;
        var base := prev;
        if base < minTat {
          base := minTat;
        }
        var next := ClampAdd(base, cost);
        if k < |others| && others[k] != prev {
          tat := others[k];
          k := k + 1;
        } else {
          tat := next;
          var wait := next - now;
          at := k;
          if wait > COALESCE {
            return wait, at;
          }
          return 0, at;
        }
      }
    }

    /** ReturnBucket on an enabled limiter; the clock is read once. */
    method ReturnBucket(size: int, now: int, others: seq<int>) returns (ghost at: nat)
      modifies this`tat
      ensures size <= 0 || rate <= 0 ==> tat == old(tat)
      ensures size > 0 && rate > 0 ==>
        && at <= |others|
        && tat == RefundNext(if at == 0 then old(tat) else others[at - 1], now, BytesToNsCeil(size, rate))
    {
      at := 0;
      if size <= 0 || rate <= 0 {
        return;
      }
      var refund := BytesToNsCeil(size, rate);
      var minTat := now - BURST;
      var k := 0;
      while true
        invariant 0 <= k <= |others|
        invariant tat == if k == 0 then old(tat) else others[k - 1]
        decreases |others| - k
      {
        var prev := tat;
        var next := ClampSub(prev, refund);
        if next < minTat {
          next := minTat;
        }
        if k < |others| && others[k] != prev {
          tat := others[k];
          k := k + 1;
        } else {
          tat := next;
          return k;
        }
      }
    }
  }

  // Any interleaving of calls at a fixed positive limit.

  datatype Call =
    | Entered(size: int, now: int)          // Get has read the clock and not yet stored
    | Waiting(index: nat, until: int)       // Get has stored and returns when the clock reaches until
    | Refunding(size: int, now: int)

  /** What a successful compare-and-swap did, in order; returned marks a Get that has returned. */
  datatype Event =
    | Got(bytes: int, cost: int, base: int, next: int, returned: bool)
    | Refunded(bytes: int, ns: int)

  datatype State = State(rate: int, start: int, clock: int, tat: int, calls: map<nat, Call>, log: seq<Event>)

  datatype Action =
    | Tick(dt: nat)
    | GetEnter(id: nat, size: int) | GetRetry(id: nat) | GetStore(id: nat) | GetReturn(id: nat)
    | RefundEnter(id: nat, size: int) | RefundStore(id: nat)

  /** A limiter (re)started at the given time with a full burst. */
  function Begin(rate: int, start: int): State {
    State(rate, start, start, start - BURST, map[], [])
  }

  function DoGetStore(s: State, id: nat): Option<State> {
    if id !in s.calls || !s.calls[id].Entered? then None
    else
      var Entered(size, now) := s.calls[id];
      var cost := BytesToNsCeil(size, s.rate);
      var base := GetBase(s.tat, now);
      var next := GetNext(s.tat, now, cost);
      Some(s.(tat := next,
              calls := s.calls[id := Waiting(|s.log|, s.clock + Sleep(next, now))],
              log := s.log + [Got(size, cost, base, next, false)]))
  }

  function DoGetReturn(s: State, id: nat): Option<State> {
    if id !in s.calls || !s.calls[id].Waiting? || s.clock < s.calls[id].until then None
    else
      var i := s.calls[id].index;
      if i >= |s.log| || !s.log[i].Got? then None
      else Some(s.(calls := s.calls - {id}, log := s.log[i := s.log[i].(returned := true)]))
  }

  function DoRefundStore(s: State, id: nat): Option<State> {
    if id !in s.calls || !s.calls[id].Refunding? then None
    else
      var Refunding(size, now) := s.calls[id];
      var ns := BytesToNsCeil(size, s.rate);
      Some(s.(tat := RefundNext(s.tat, now, ns), calls := s.calls - {id}, log := s.log + [Refunded(size, Max(ns, 0))]))
  }

  function Exec(s: State, a: Action): Option<State> {
    match a
    case Tick(dt) => Some(s.(clock := s.clock + dt))
    case GetEnter(id, size) =>
      if id in s.calls || size <= 0 || size > MAX_I64 then None
      else Some(s.(calls := s.calls[id := Entered(size, s.clock)]))
    case GetRetry(id) =>
      if id !in s.calls || !s.calls[id].Entered? then None
      else Some(s.(calls := s.calls[id := Entered(s.calls[id].size, s.clock)]))
    case GetStore(id) => DoGetStore(s, id)
    case GetReturn(id) => DoGetReturn(s, id)
    case RefundEnter(id, size) =>
      if id in s.calls || size <= 0 || size > MAX_I64 then None
      else Some(s.(calls := s.calls[id := Refunding(size, s.clock)]))
    case RefundStore(id) => DoRefundStore(s, id)
  }

  function Run(rate: int, start: int, actions: seq<Action>): Option<State> {
    if actions == [] then Some(Begin(rate, start))
    else
      match Run(rate, start, actions[..|actions| - 1])
      case None => None
      case Some(s) => Exec(s, actions[|actions| - 1])
  }

  // Sums over the log.

  function ReturnedBytes(log: seq<Event>): int {
    if log == [] then 0
    else ReturnedBytes(log[..|log| - 1])
         + (if log[|log| - 1].Got? && log[|log| - 1].returned then log[|log| - 1].bytes else 0)
  }

  function RefundedBytes(log: seq<Event>): int {
    if log == [] then 0
    else RefundedBytes(log[..|log| - 1]) + (if log[|log| - 1].Refunded? then log[|log| - 1].bytes else 0)
  }

  function Refunds(log: seq<Event>): nat {
    if log == [] then 0
    else Refunds(log[..|log| - 1]) + (if log[|log| - 1].Refunded? then 1 else 0)
  }

  /** What an event moves the arrival time by; a sum that saturates counts only as far as it goes. */
  function Moved(e: Event): int {
    match e case Got(_, _, base, next, _) => next - base case Refunded(_, ns) => -ns
  }

  function NetCost(log: seq<Event>): int {
    if log == [] then 0 else NetCost(log[..|log| - 1]) + Moved(log[|log| - 1])
  }

  /** Every Get that has returned was charged enough, and no refund too much. */
  predicate FairEvent(e: Event, rate: int) {
    match e
    case Got(bytes, _, _, _, returned) => returned ==> FairGet(bytes, rate)
    case Refunded(bytes, _) => FairRefund(bytes, rate)
  }

  predicate FairLog(log: seq<Event>, rate: int) {
    forall i :: 0 <= i < |log| ==> FairEvent(log[i], rate)
  }

  predicate EventShape(e: Event, rate: int) {
    match e
    case Got(bytes, cost, base, next, _) =>
      0 < bytes <= MAX_I64 && cost == BytesToNsCeil(bytes, rate) && next == ClampAdd(base, cost)
    case Refunded(bytes, ns) => 0 < bytes <= MAX_I64 && ns == Max(BytesToNsCeil(bytes, rate), 0)
  }

  /** Every event has its shape and starts from no later than the clock or the largest int64. */
  predicate EventsOk(log: seq<Event>, rate: int, clock: int) {
    forall i :: 0 <= i < |log| ==> EventShape(log[i], rate) && (log[i].Got? ==> log[i].base <= Max(MAX_I64, clock))
  }

  predicate CallOk(c: Call, log: seq<Event>, clock: int) {
    match c
    case Entered(size, now) => 0 < size <= MAX_I64 && now <= clock
    case Waiting(index, until) => index < |log| && log[index].Got? && log[index].next - COALESCE <= until
    case Refunding(size, now) => 0 < size <= MAX_I64 && now <= clock
  }

  predicate CallsOk(calls: map<nat, Call>, log: seq<Event>, clock: int) {
    forall id :: id in calls ==> CallOk(calls[id], log, clock)
  }

  predicate ReturnedInTime(log: seq<Event>, clock: int) {
    forall i :: 0 <= i < |log| && log[i].Got? && log[i].returned ==> log[i].next - COALESCE <= clock
  }

  predicate CoveredAt(log: seq<Event>, start: int, i: nat)
    requires i < |log|
  {
    log[i].Got? ==> log[i].next >= start - BURST + NetCost(log[..i + 1])
  }

  /** Each stored arrival time covers everything stored up to it. */
  predicate Covered(log: seq<Event>, start: int) {
    forall i :: 0 <= i < |log| ==> CoveredAt(log, start, i)
  }

  predicate Inv(s: State) {
    && 0 < s.rate <= MAX_I64 && s.start <= s.clock && s.tat <= Max(MAX_I64, s.clock)
    && EventsOk(s.log, s.rate, s.clock)
    && CallsOk(s.calls, s.log, s.clock)
    && ReturnedInTime(s.log, s.clock)
    && s.tat >= s.start - BURST + NetCost(s.log)
    && Covered(s.log, s.start)
  }

  lemma NetCostAppend(log: seq<Event>, e: Event)
    ensures NetCost(log + [e]) == NetCost(log) + Moved(e)
  {
    assert (log + [e])[..|log|] == log;
  }

  lemma CoveredAppend(log: seq<Event>, e: Event, start: int)
    requires Covered(log, start)
    requires e.Got? ==> e.next >= start - BURST + NetCost(log + [e])
    ensures Covered(log + [e], start)
  {
    var more := log + [e];
    forall i | 0 <= i < |more| ensures CoveredAt(more, start, i) {
      if i < |log| {
        assert CoveredAt(log, start, i);
        assert more[..i + 1] == log[..i + 1];
      } else {
        assert more[..i + 1] == more;
      }
    }
  }

  lemma EventsAppend(log: seq<Event>, e: Event, rate: int, clock: int)
    requires EventsOk(log, rate, clock) && EventShape(e, rate) && (e.Got? ==> e.base <= Max(MAX_I64, clock))
    requires ReturnedInTime(log, clock) && (e.Got? ==> !e.returned)
    ensures EventsOk(log + [e], rate, clock) && ReturnedInTime(log + [e], clock)
  {
  }

  lemma CallsAppend(calls: map<nat, Call>, log: seq<Event>, e: Event, clock: int)
    requires CallsOk(calls, log, clock)
    ensures CallsOk(calls, log + [e], clock)
  {
    forall id | id in calls ensures CallOk(calls[id], log + [e], clock) {
      assert CallOk(calls[id], log, clock);
    }
  }

  lemma KeepGetStore(s: State, id: nat)
    requires Inv(s) && DoGetStore(s, id).Some?
    ensures Inv(DoGetStore(s, id).value)
  {
    assert CallOk(s.calls[id], s.log, s.clock);
    var e := DoGetStore(s, id).value.log[|s.log|];
    EventsAppend(s.log, e, s.rate, s.clock);
    CallsAppend(s.calls, s.log, e, s.clock);
    NetCostAppend(s.log, e);
    CoveredAppend(s.log, e, s.start);
  }

  lemma KeepRefundStore(s: State, id: nat)
    requires Inv(s) && DoRefundStore(s, id).Some?
    ensures Inv(DoRefundStore(s, id).value)
  {
    assert CallOk(s.calls[id], s.log, s.clock);
    var e := DoRefundStore(s, id).value.log[|s.log|];
    EventsAppend(s.log, e, s.rate, s.clock);
    CallsAppend(s.calls, s.log, e, s.clock);
    NetCostAppend(s.log, e);
    CoveredAppend(s.log, e, s.start);
  }

  /** The log with one Get marked as returned. */
  function Marked(log: seq<Event>, i: nat): seq<Event>
    requires i < |log| && log[i].Got?
  {
    log[i := log[i].(returned := true)]
  }

  lemma {:induction false} NetCostMark(log: seq<Event>, i: nat, k: nat)
    requires i < |log| && log[i].Got? && k <= |log|
    ensures NetCost(Marked(log, i)[..k]) == NetCost(log[..k])
  {
    var marked := Marked(log, i);
    if k > 0 {
      NetCostMark(log, i, k - 1);
      assert marked[..k][..k - 1] == marked[..k - 1];
      assert log[..k][..k - 1] == log[..k - 1];
    }
  }

  lemma EventsMark(log: seq<Event>, i: nat, rate: int, clock: int)
    requires i < |log| && log[i].Got? && log[i].next - COALESCE <= clock
    requires EventsOk(log, rate, clock) && ReturnedInTime(log, clock)
    ensures EventsOk(Marked(log, i), rate, clock) && ReturnedInTime(Marked(log, i), clock)
  {
  }

  lemma CallsMark(calls: map<nat, Call>, log: seq<Event>, i: nat, clock: int)
    requires i < |log| && log[i].Got? && CallsOk(calls, log, clock)
    ensures CallsOk(calls, Marked(log, i), clock)
  {
    forall id | id in calls ensures CallOk(calls[id], Marked(log, i), clock) {
      assert CallOk(calls[id], log, clock);
    }
  }

  lemma CoveredMark(log: seq<Event>, i: nat, start: int)
    requires i < |log| && log[i].Got? && Covered(log, start)
    ensures Covered(Marked(log, i), start)
  {
    forall j | 0 <= j < |log| ensures CoveredAt(Marked(log, i), start, j) {
      assert CoveredAt(log, start, j);
      NetCostMark(log, i, j + 1);
    }
  }

  lemma NetCostMarked(log: seq<Event>, i: nat)
    requires i < |log| && log[i].Got?
    ensures NetCost(Marked(log, i)) == NetCost(log)
  {
    NetCostMark(log, i, |log|);
    assert Marked(log, i)[..|log|] == Marked(log, i) && log[..|log|] == log;
  }

  lemma KeepGetReturn(s: State, id: nat)
    requires Inv(s) && DoGetReturn(s, id).Some?
    ensures Inv(DoGetReturn(s, id).value)
  {
    assert CallOk(s.calls[id], s.log, s.clock);
    var i := s.calls[id].index;
    EventsMark(s.log, i, s.rate, s.clock);
    CallsMark(s.calls, s.log, i, s.clock);
    CoveredMark(s.log, i, s.start);
    NetCostMarked(s.log, i);
  }

  lemma {:induction false} Reachable(rate: int, start: int, actions: seq<Action>)
    requires 0 < rate <= MAX_I64 && Run(rate, start, actions).Some?
    ensures var s := Run(rate, start, actions).value; Inv(s) && s.rate == rate && s.start == start
  {
    if actions != [] {
      var before := actions[..|actions| - 1];
      Reachable(rate, start, before);
      var s := Run(rate, start, before).value;
      match actions[|actions| - 1]
      case GetStore(id) => KeepGetStore(s, id);
      case GetReturn(id) => KeepGetReturn(s, id);
      case RefundStore(id) => KeepRefundStore(s, id);
      case _ =>
    }
  }

  lemma Distribute(r: int, a: int, b: int)
    ensures r * (a + b) == r * a + r * b
  {
  }

  /** A Get whose arrival time saturated has not returned while the clock is below the largest int64. */
  predicate InTime(e: Event, clock: int) {
    e.Got? ==> e.base <= MAX_I64 && (e.returned ==> e.next - COALESCE <= clock < MAX_I64 - COALESCE)
  }

  /** A stored sum that is below the maximum moved by its whole cost. */
  lemma GotMoves(base: int, cost: int)
    requires base <= MAX_I64
    ensures ClampAdd(base, cost) >= base
    ensures ClampAdd(base, cost) < MAX_I64 && cost > 0 ==> ClampAdd(base, cost) - base == cost
  {
  }

  lemma GotCovered(e: Event, rate: int, clock: int)
    requires e.Got? && 0 < rate <= MAX_I64 && EventShape(e, rate) && FairEvent(e, rate) && InTime(e, clock)
    ensures e.returned ==> 1_000_000_000 * e.bytes <= Moved(e) * rate
    ensures Moved(e) * rate >= 0
  {
    GotMoves(e.base, e.cost);
    Sign(Moved(e), rate);
    if e.returned {
      FairExact(e.bytes, rate);
      assert Moved(e) == e.cost;
    }
  }

  /** What one event adds to the two sides. */
  lemma EventCovered(e: Event, rate: int, clock: int)
    requires 0 < rate <= MAX_I64 && EventShape(e, rate) && FairEvent(e, rate) && InTime(e, clock)
    ensures e.Got? && e.returned ==> 1_000_000_000 * e.bytes <= rate * Moved(e)
    ensures e.Got? ==> rate * Moved(e) >= 0
    ensures e.Refunded? ==> rate * (1 + Moved(e)) >= -1_000_000_000 * e.bytes
  {
    if e.Got? {
      GotCovered(e, rate, clock);
      assert rate * Moved(e) == Moved(e) * rate;
    } else {
      FairExact(e.bytes, rate);
      assert rate * (1 + Moved(e)) == -((e.ns - 1) * rate);
    }
  }

  /** The bytes returned are covered by the net cost, up to a nanosecond of rate per refund. */
  lemma {:induction false} CostCoversBytes(log: seq<Event>, rate: int, clock: int)
    requires 0 < rate <= MAX_I64 && FairLog(log, rate)
    requires forall i :: 0 <= i < |log| ==> EventShape(log[i], rate) && InTime(log[i], clock)
    ensures 1_000_000_000 * (ReturnedBytes(log) - RefundedBytes(log)) <= rate * (NetCost(log) + Refunds(log))
    decreases |log|
  {
    if log != [] {
      var before, e := log[..|log| - 1], log[|log| - 1];
      CostCoversBytes(before, rate, clock);
      EventCovered(e, rate, clock);
      Distribute(rate, NetCost(before) + Refunds(before), if e.Got? then Moved(e) else 1 + Moved(e));
    }
  }

  /** The rate theorem: at a fixed positive limit, over any interleaving of calls in which every Get that has
      returned was charged enough and no refund too much, the bytes of Gets that have returned, less the
      bytes refunded, never exceed the rate times the time since the start plus two seconds of burst, the
      coalescing bound, and one nanosecond per refund, for as long as the int64 clock runs. */
  lemma RateBound(rate: int, start: int, actions: seq<Action>)
    requires 0 < rate <= MAX_I64 && Run(rate, start, actions).Some?
    requires FairLog(Run(rate, start, actions).value.log, rate)
    requires Run(rate, start, actions).value.clock < MAX_I64 - COALESCE
    ensures var s := Run(rate, start, actions).value;
      1_000_000_000 * (ReturnedBytes(s.log) - RefundedBytes(s.log))
        <= rate * (s.clock - start + BURST + COALESCE + Refunds(s.log))
  {
    Reachable(rate, start, actions);
    BoundAll(Run(rate, start, actions).value);
  }

  /** The bound on a log, for a span of time. */
  predicate Within(log: seq<Event>, rate: int, span: int) {
    1_000_000_000 * (ReturnedBytes(log) - RefundedBytes(log)) <= rate * (span + Refunds(log))
  }

  /** An event that has returned nothing keeps the bound. */
  lemma WithinMore(log: seq<Event>, rate: int, span: int)
    requires log != [] && 0 < rate && Within(log[..|log| - 1], rate, span)
    requires var e := log[|log| - 1]; e.bytes > 0 && !(e.Got? && e.returned)
    ensures Within(log, rate, span)
  {
    Distribute(rate, span + Refunds(log[..|log| - 1]), 1);
  }

  /** The bound, shown for the first n events by dropping those that cannot have returned. */
  lemma {:induction false} BoundPrefix(s: State, n: nat)
    requires Inv(s) && FairLog(s.log, s.rate) && s.clock < MAX_I64 - COALESCE && n <= |s.log|
    ensures Within(s.log[..n], s.rate, s.clock - s.start + BURST + COALESCE)
    decreases n
  {
    var span := s.clock - s.start + BURST + COALESCE;
    if n == 0 {
      Sign(span, s.rate);
      assert s.rate * span == span * s.rate;
    } else if s.log[n - 1].Got? && s.log[n - 1].returned {
      BoundReturned(s, n);
    } else {
      BoundPrefix(s, n - 1);
      assert s.log[..n][..n - 1] == s.log[..n - 1];
      WithinMore(s.log[..n], s.rate, span);
    }
  }

  lemma BoundAll(s: State)
    requires Inv(s) && FairLog(s.log, s.rate) && s.clock < MAX_I64 - COALESCE
    ensures Within(s.log, s.rate, s.clock - s.start + BURST + COALESCE)
  {
    BoundPrefix(s, |s.log|);
    assert s.log[..|s.log|] == s.log;
  }

  /** The bound for a prefix that ends in a returned Get. */
  lemma BoundReturned(s: State, n: nat)
    requires Inv(s) && FairLog(s.log, s.rate) && s.clock < MAX_I64 - COALESCE
    requires 0 < n <= |s.log| && s.log[n - 1].Got? && s.log[n - 1].returned
    ensures Within(s.log[..n], s.rate, s.clock - s.start + BURST + COALESCE)
  {
    var log, span := s.log[..n], s.clock - s.start + BURST + COALESCE;
    CostCoversBytes(log, s.rate, s.clock);
    assert CoveredAt(s.log, s.start, n - 1);
    MulMonotone(s.rate, NetCost(log) + Refunds(log), span + Refunds(log));
  }

  lemma MulMonotone(r: int, a: int, b: int)
    requires r > 0 && a <= b
    ensures r * a <= r * b
  {
    assert r * b - r * a == r * (b - a);
    assert r * (b - a) >= 0;
  }

  /** Right after a start, a request worth at most two seconds of the rate is stored without a sleep if and
      only if it is within the limit; a larger one sleeps for centuries. */
  lemma BurstPassesAtOnce(rate: int, start: int, now: int, bytes: int)
    requires 0 < rate <= MAX_I64 && 0 < bytes <= MAX_I64 && start <= now <= MAX_I64 - BURST
    requires bytes * 1_000_000_000 <= rate * BURST
    ensures Sleep(GetNext(start - BURST, now, BytesToNsCeil(bytes, rate)), now) == 0 <==> bytes <= LIMIT
  {
    CeilingExact(bytes, rate);
    CeilingAtLeast(bytes, rate, BURST + 1);
  }

  /** Without the overflow condition the rate theorem fails: a single request of 9223372036 bytes at 10^9
      bytes a second returns at the very start, far beyond the burst. */
  lemma BoundFailsOnOverflow()
    ensures var r := Run(1_000_000_000, 0, [GetEnter(0, 9223372036), GetStore(0), GetReturn(0)]);
      && r.Some?
      && 1_000_000_000 * (ReturnedBytes(r.value.log) - RefundedBytes(r.value.log))
           > 1_000_000_000 * (r.value.clock - 0 + BURST + COALESCE + Refunds(r.value.log))
  {
    var rate := 1_000_000_000;
    var all := [GetEnter(0, 9223372036), GetStore(0), GetReturn(0)];
    assert all[..2] == [GetEnter(0, 9223372036), GetStore(0)];
    assert all[..2][..1] == [GetEnter(0, 9223372036)];
    assert all[..2][..1][..0] == [];
    var s1 := Exec(Begin(rate, 0), GetEnter(0, 9223372036)).value;
    assert Run(rate, 0, all[..2][..1]) == Some(s1);
    var s2 := DoGetStore(s1, 0).value;
    assert Run(rate, 0, all[..2]) == Some(s2);
    var s3 := DoGetReturn(s2, 0).value;
    assert Run(rate, 0, all) == Some(s3);
    assert s3.log[..0] == [];
    assert s3.log == [s3.log[0]];
  }

  // A refund that is charged too much.

  lemma RunMore(rate: int, start: int, actions: seq<Action>, a: Action)
    requires Run(rate, start, actions).Some?
    ensures Run(rate, start, actions + [a]) == Exec(Run(rate, start, actions).value, a)
  {
    assert (actions + [a])[..|actions|] == actions;
  }

  /** A Get that is stored and returns at once. */
  lemma GetAtOnce(rate: int, actions: seq<Action>, s: State, id: nat, size: int) returns (more: seq<Action>, t: State)
    requires Run(rate, 0, actions) == Some(s) && s.calls == map[] && 0 < size <= MAX_I64 && s.clock == 0
    requires GetNext(s.tat, 0, BytesToNsCeil(size, s.rate)) <= 0
    ensures Run(rate, 0, more) == Some(t) && t.calls == map[] && t.rate == s.rate && t.clock == 0
    ensures t.tat == GetNext(s.tat, 0, BytesToNsCeil(size, s.rate))
    ensures ReturnedBytes(t.log) == ReturnedBytes(s.log) + size
    ensures RefundedBytes(t.log) == RefundedBytes(s.log) && Refunds(t.log) == Refunds(s.log)
  {
    RunMore(rate, 0, actions, GetEnter(id, size));
    var a1 := actions + [GetEnter(id, size)];
    RunMore(rate, 0, a1, GetStore(id));
    var a2 := a1 + [GetStore(id)];
    RunMore(rate, 0, a2, GetReturn(id));
    more, t := a2 + [GetReturn(id)], Run(rate, 0, a2 + [GetReturn(id)]).value;
    assert t.log[..|s.log|] == s.log;
    assert t.calls == map[];
  }

  lemma RefundAtOnce(rate: int, actions: seq<Action>, s: State, id: nat, size: int)
    returns (more: seq<Action>, t: State)
    requires Run(rate, 0, actions) == Some(s) && s.calls == map[] && 0 < size <= MAX_I64 && s.clock == 0
    ensures Run(rate, 0, more) == Some(t) && t.calls == map[] && t.rate == s.rate && t.clock == 0
    ensures t.tat == RefundNext(s.tat, 0, BytesToNsCeil(size, s.rate))
    ensures ReturnedBytes(t.log) == ReturnedBytes(s.log)
    ensures RefundedBytes(t.log) == RefundedBytes(s.log) + size && Refunds(t.log) == Refunds(s.log) + 1
  {
    RunMore(rate, 0, actions, RefundEnter(id, size));
    var a1 := actions + [RefundEnter(id, size)];
    RunMore(rate, 0, a1, RefundStore(id));
    more, t := a1 + [RefundStore(id)], Run(rate, 0, a1 + [RefundStore(id)]).value;
    assert t.log[..|s.log|] == s.log;
    assert t.calls == map[];
  }

  /** The rate theorem also fails when a refund is charged too much: at 10^10 bytes a second two requests of
      9·10^9 bytes, a refund of 10^10 and two more requests all pass at the very start. */
  lemma BoundFailsOnOverRefund() returns (actions: seq<Action>)
    ensures !FairRefund(10_000_000_000, 10_000_000_000)
    ensures var r := Run(10_000_000_000, 0, actions);
      && r.Some?
      && 1_000_000_000 * (ReturnedBytes(r.value.log) - RefundedBytes(r.value.log))
           > 10_000_000_000 * (r.value.clock - 0 + BURST + COALESCE + Refunds(r.value.log))
  {
    var rate := 10_000_000_000;
    var s := Begin(rate, 0);
    actions := [];
    assert BytesToNsCeil(9_000_000_000, rate) == 900_000_000 by {
      QuotientIs(9_000_000_000 * 1_000_000_000 + rate - 1, rate, 900_000_000);
    }
    LargeRequestOvercharged();
    actions, s := GetAtOnce(rate, actions, s, 0, 9_000_000_000);
    actions, s := GetAtOnce(rate, actions, s, 0, 9_000_000_000);
    actions, s := RefundAtOnce(rate, actions, s, 0, 10_000_000_000);
    actions, s := GetAtOnce(rate, actions, s, 0, 9_000_000_000);
    actions, s := GetAtOnce(rate, actions, s, 0, 9_000_000_000);
  }

  /** Enough Gets that return at once exceed any bound. */
  lemma {:induction false} FreeGets(rate: int, size: int, k: nat) returns (actions: seq<Action>, s: State)
    requires 0 < rate <= MAX_I64 && 0 < size <= MAX_I64 && BytesToNsCeil(size, rate) <= 0
    ensures Run(rate, 0, actions) == Some(s) && s.calls == map[] && s.rate == rate && s.clock == 0 && s.tat == -BURST
    ensures ReturnedBytes(s.log) == k * size && RefundedBytes(s.log) == 0 && Refunds(s.log) == 0
  {
    if k == 0 {
      actions, s := [], Begin(rate, 0);
    } else {
      actions, s := FreeGets(rate, size, k - 1);
      actions, s := GetAtOnce(rate, actions, s, 0, size);
      assert k * size == (k - 1) * size + size;
    }
  }

  /** For every rate and every size that overflows, enough Gets of that size exceed the bound at the very start. */
  lemma OverflowAlwaysFails(rate: int, size: int) returns (actions: seq<Action>)
    requires 0 < rate <= MAX_I64 && 0 < size <= LIMIT && !Fits(size, rate)
    ensures var r := Run(rate, 0, actions);
      && r.Some?
      && 1_000_000_000 * (ReturnedBytes(r.value.log) - RefundedBytes(r.value.log))
           > rate * (r.value.clock - 0 + BURST + COALESCE + Refunds(r.value.log))
  {
    OverflowNotPositive(size, rate);
    var s;
    var k := rate * (BURST + COALESCE) + 1;
    actions, s := FreeGets(rate, size, k);
    MulMonotone(k, 1, size);
  }
}
