/**
 * Backend selection: round robin, weighted round robin and least connections. Backends are told apart by their
 * position in the pool.
 */
module LoadBalancer {
  import opened Common

  // ---- Cyclic selection -------------------------------------------------------

  function Repeat(i: nat, times: nat): (r: seq<nat>)
    ensures |r| == times
  {
    if times == 0 then [] else Repeat(i, times - 1) + [i]
  }

  /** Each position of the pool as often as its weight says, in pool order. */
  function Expand(weights: seq<nat>): seq<nat> {
    if weights == [] then []
    else Expand(weights[..|weights| - 1]) + Repeat(|weights| - 1, weights[|weights| - 1])
  }

  function Total(weights: seq<nat>): nat {
    if weights == [] then 0 else Total(weights[..|weights| - 1]) + weights[|weights| - 1]
  }

  /** The position chosen at each value of the cursor. */
  type Chooser = nat -> nat

  /** Round the cycle, from its start. */
  function Cycling(cycle: seq<nat>): Chooser
    requires |cycle| > 0
  {
    (k: nat) => cycle[k % |cycle|]
  }

  /** The positions chosen by `count` selections in a row, the first of them at `cursor`. */
  function Picks(pick: Chooser, cursor: nat, count: nat): (r: seq<nat>)
    ensures |r| == count
  {
    if count == 0 then [] else Picks(pick, cursor, count - 1) + [pick(cursor + count - 1)]
  }

  /** How often position `i` is among them. */
  function Hits(pick: Chooser, cursor: nat, count: nat, i: nat): nat {
    if count == 0 then 0
    else Hits(pick, cursor, count - 1, i) + if pick(cursor + count - 1) == i then 1 else 0
  }

  lemma {:induction false} HitsAreCounted(pick: Chooser, cursor: nat, count: nat, i: nat)
    ensures Hits(pick, cursor, count, i) == multiset(Picks(pick, cursor, count))[i]
  {
    if count > 0 { HitsAreCounted(pick, cursor, count - 1, i); }
  }

  function Times(k: nat, n: nat): nat {
    if k == 0 then 0 else Times(k - 1, n) + n
  }

  lemma {:induction false} TimesIs(k: nat, n: nat)
    ensures Times(k, n) == k * n
  {
    if k > 0 {
      TimesIs(k - 1, n);
      assert k * n == (k - 1) * n + n;
    }
  }

  lemma {:induction false} HitsSplit(pick: Chooser, cursor: nat, a: nat, b: nat, i: nat)
    ensures Hits(pick, cursor, a + b, i) == Hits(pick, cursor, a, i) + Hits(pick, cursor + a, b, i)
  {
    if b > 0 { HitsSplit(pick, cursor, a, b - 1, i); }
  }

  /** Any `period` selections in a row choose position `i` exactly `share` times. */
  ghost predicate Fair(pick: Chooser, period: nat, i: nat, share: nat) {
    forall cursor :: Hits(pick, cursor, period, i) == share
  }

  lemma {:induction false} HitsInRounds(pick: Chooser, cursor: nat, period: nat, i: nat, share: nat, rounds: nat)
    requires Fair(pick, period, i, share)
    ensures Hits(pick, cursor, Times(rounds, period), i) == Times(rounds, share)
  {
    if rounds > 0 {
      HitsInRounds(pick, cursor, period, i, share, rounds - 1);
      HitsSplit(pick, cursor, Times(rounds - 1, period), period, i);
    }
  }

  lemma HitsWithin(pick: Chooser, cursor: nat, extra: nat, rest: nat, i: nat, share: nat)
    requires Fair(pick, extra + rest, i, share)
    ensures Hits(pick, cursor, extra, i) <= share
  {
    HitsSplit(pick, cursor, extra, rest, i);
    assert Hits(pick, cursor, extra + rest, i) == share;
  }

  lemma HitsBetween(pick: Chooser, cursor: nat, period: nat, i: nat, share: nat, whole: nat, extra: nat)
    requires Fair(pick, period, i, share) && extra <= period
    ensures Hits(pick, cursor, whole, i) <= Hits(pick, cursor, whole + extra, i) <= Hits(pick, cursor, whole, i) + share
  {
    HitsSplit(pick, cursor, whole, extra, i);
    HitsWithin(pick, cursor + whole, extra, period - extra, i, share);
  }

  lemma {:induction false} RepeatCounts(i: nat, times: nat, j: nat)
    ensures multiset(Repeat(i, times))[j] == if i == j then times else 0
  {
    if times > 0 { RepeatCounts(i, times - 1, j); }
  }

  /** The expanded cycle holds each position exactly its weight many times. */
  lemma {:induction false} ExpandCounts(weights: seq<nat>, i: nat)
    ensures |Expand(weights)| == Total(weights)
    ensures multiset(Expand(weights))[i] == if i < |weights| then weights[i] else 0
  {
    if weights != [] {
      var last := |weights| - 1;
      ExpandCounts(weights[..last], i);
      RepeatCounts(last, weights[last], i);
    }
  }

  lemma {:induction false} ExpandRange(weights: seq<nat>, k: nat)
    requires k < |Expand(weights)|
    ensures Expand(weights)[k] < |weights|
  {
    ExpandCounts(weights, Expand(weights)[k]);
    assert Expand(weights)[k] in multiset(Expand(weights));
  }

  lemma {:induction false} DivModUnique(q: nat, r: nat, q': nat, r': nat, n: nat)
    requires r < n && r' < n && q * n + r == q' * n + r'
    ensures q == q' && r == r'
  {
    if q == 0 || q' == 0 {
      assert q * n >= n || q == 0;
      assert q' * n >= n || q' == 0;
    } else {
      assert q * n == (q - 1) * n + n && q' * n == (q' - 1) * n + n;
      DivModUnique(q - 1, r, q' - 1, r', n);
    }
  }

  lemma OneMoreTime(q: nat, n: nat)
    ensures (q + 1) * n == q * n + n
  {
  }

  lemma DivModIs(x: nat, q: nat, n: nat, r: nat)
    requires r < n && x == q * n + r
    ensures x / n == q && x % n == r
  {
    assert x == (x / n) * n + x % n;
    DivModUnique(q, r, x / n, x % n, n);
  }

  /** Stepping past the end of the cycle wraps round to its start. */
  lemma ModShift(n: nat, a: nat, k: nat)
    requires k < n
    ensures (a + k) % n == if a % n + k < n then a % n + k else a % n + k - n
  {
    var q, r := a / n, a % n;
    assert a == q * n + r;
    OneMoreTime(q, n);
    if r + k < n {
      DivModIs(a + k, q, n, r + k);
    } else {
      DivModIs(a + k, q + 1, n, r + k - n);
    }
  }

  /** The cycle turned so that it starts at index `r`. */
  function Turned(cycle: seq<nat>, r: nat): seq<nat>
    requires r <= |cycle|
  {
    cycle[r..] + cycle[..r]
  }

  lemma CyclingAt(cycle: seq<nat>, cursor: nat, r: nat, k: nat)
    requires k < |cycle| && r == cursor % |cycle|
    ensures r < |cycle| && Cycling(cycle)(cursor + k) == Turned(cycle, r)[k]
  {
    ModShift(|cycle|, cursor, k);
  }

  /** As many selections as the cycle is long go once round it, from wherever they start. */
  lemma {:induction false} PicksTurn(cycle: seq<nat>, cursor: nat, r: nat, count: nat)
    requires 0 < |cycle| && count <= |cycle| && r == cursor % |cycle|
    ensures Picks(Cycling(cycle), cursor, count) == Turned(cycle, r)[..count]
  {
    if count > 0 {
      PicksTurn(cycle, cursor, r, count - 1);
      CyclingAt(cycle, cursor, r, count - 1);
    }
  }

  lemma TurningKeeps(cycle: seq<nat>, r: nat)
    requires r <= |cycle|
    ensures multiset(Turned(cycle, r)) == multiset(cycle)
  {
    assert cycle == cycle[..r] + cycle[r..];
  }

  lemma OnceRound(cycle: seq<nat>, cursor: nat)
    requires |cycle| > 0
    ensures multiset(Picks(Cycling(cycle), cursor, |cycle|)) == multiset(cycle)
  {
    var r := cursor % |cycle|;
    PicksTurn(cycle, cursor, r, |cycle|);
    TurningKeeps(cycle, r);
    assert Turned(cycle, r)[..|cycle|] == Turned(cycle, r);
  }

  /** In any `Total(weights)` selections in a row, from any cursor, each backend is chosen its weight many times. */
  lemma WeightedExactly(weights: seq<nat>, i: nat)
    requires Total(weights) > 0 && i < |weights|
    ensures |Expand(weights)| == Total(weights)
    ensures Fair(Cycling(Expand(weights)), Total(weights), i, weights[i])
  {
    ExpandCounts(weights, i);
    forall cursor: nat ensures Hits(Cycling(Expand(weights)), cursor, Total(weights), i) == weights[i] {
      OnceRound(Expand(weights), cursor);
      HitsAreCounted(Cycling(Expand(weights)), cursor, Total(weights), i);
    }
  }

  /** However long it has run, a backend has had its weight for every whole round, and at most its weight more. */
  lemma WeightedShare(weights: seq<nat>, cursor: nat, i: nat, rounds: nat, extra: nat)
    requires Total(weights) > 0 && i < |weights| && extra <= Total(weights)
    ensures |Expand(weights)| == Total(weights)
    ensures
      var hits := Hits(Cycling(Expand(weights)), cursor, rounds * Total(weights) + extra, i);
      rounds * weights[i] <= hits <= rounds * weights[i] + weights[i]
  {
    WeightedExactly(weights, i);
    var pick := Cycling(Expand(weights));
    HitsInRounds(pick, cursor, Total(weights), i, weights[i], rounds);
    TimesIs(rounds, Total(weights));
    TimesIs(rounds, weights[i]);
    HitsBetween(pick, cursor, Total(weights), i, weights[i], rounds * Total(weights), extra);
  }

  function Positions(size: nat): seq<nat> {
    if size == 0 then [] else Positions(size - 1) + [size - 1]
  }

  lemma {:induction false} PositionsAre(size: nat)
    ensures |Positions(size)| == size
    ensures forall k :: 0 <= k < size ==> Positions(size)[k] == k
  {
    if size > 0 { PositionsAre(size - 1); }
  }

  lemma {:induction false} EqualWeights(size: nat)
    ensures Total(Repeat(1, size)) == size && Expand(Repeat(1, size)) == Positions(size)
  {
    if size > 0 {
      EqualWeights(size - 1);
      assert Repeat(1, size)[..size - 1] == Repeat(1, size - 1);
      assert Repeat(size - 1, 1) == Repeat(size - 1, 0) + [size - 1];
    }
  }

  lemma RepeatTail(i: nat, times: nat, k: nat, cycle: seq<nat>)
    requires |cycle| <= k < |cycle + Repeat(i, times)|
    ensures (cycle + Repeat(i, times))[k] == i
  {
    RepeatIs(i, times);
  }

  /** The expanded cycle goes through the pool in order: each backend's turns are together, before the next one's. */
  lemma {:induction false} ExpandInPoolOrder(weights: seq<nat>, k: nat, l: nat)
    requires k <= l < |Expand(weights)|
    ensures Expand(weights)[k] <= Expand(weights)[l]
  {
    if weights != [] {
      var last := |weights| - 1;
      var cycle := Expand(weights[..last]);
      ExpandRange(weights, k);
      if l < |cycle| {
        ExpandInPoolOrder(weights[..last], k, l);
      } else {
        RepeatTail(last, weights[last], l, cycle);
      }
    }
  }

  /** Plain round robin is the cycle of equal weights: any `size` selections in a row choose each backend once. */
  lemma RoundRobinExactly(size: nat, i: nat)
    requires i < size
    ensures |Positions(size)| == size && Fair(Cycling(Positions(size)), size, i, 1)
    ensures forall cursor: nat :: Cycling(Positions(size))(cursor) == cursor % size
  {
    PositionsAre(size);
    EqualWeights(size);
    RepeatIs(1, size);
    WeightedExactly(Repeat(1, size), i);
  }

  lemma {:induction false} RepeatIs(x: nat, times: nat)
    ensures forall k :: 0 <= k < times ==> Repeat(x, times)[k] == x
  {
    if times > 0 { RepeatIs(x, times - 1); }
  }

  // ---- Least connections ------------------------------------------------------

  /** The first position of the smallest load. */
  function LeastLoaded(loads: seq<int>): (i: nat)
    requires |loads| > 0
    ensures i < |loads|
    ensures forall j :: 0 <= j < |loads| ==> loads[i] <= loads[j]
    ensures forall j :: 0 <= j < i ==> loads[i] < loads[j]
  {
    if |loads| == 1 then 0
    else
      var rest := loads[..|loads| - 1];
      var i := LeastLoaded(rest);
      assert forall j :: 0 <= j < |rest| ==> rest[j] == loads[j];
      if loads[|loads| - 1] < loads[i] then |loads| - 1 else i
  }

  function Select(loads: seq<int>): seq<int>
    requires |loads| > 0
  {
    loads[LeastLoaded(loads) := loads[LeastLoaded(loads)] + 1]
  }

  function SelectTimes(loads: seq<int>, times: nat): (r: seq<int>)
    requires |loads| > 0
    ensures |r| == |loads|
  {
    if times == 0 then loads else Select(SelectTimes(loads, times - 1))
  }

  ghost predicate WithinOne(loads: seq<int>) {
    forall i, j :: 0 <= i < |loads| && 0 <= j < |loads| ==> loads[i] <= loads[j] + 1
  }

  /** Loads within one of each other stay so while nothing is released. */
  lemma {:induction false} StaysWithinOne(loads: seq<int>, times: nat)
    requires |loads| > 0 && WithinOne(loads)
    ensures WithinOne(SelectTimes(loads, times))
  {
    if times > 0 { StaysWithinOne(loads, times - 1); }
  }

  /** Every load is `least`, or one more for the first `i`. */
  ghost predicate IsEven(loads: seq<int>, least: int, i: nat) {
    forall j :: 0 <= j < |loads| ==> loads[j] == least + if j < i then 1 else 0
  }

  lemma FirstOfEven(loads: seq<int>, least: int, i: nat)
    requires i < |loads| && IsEven(loads, least, i)
    ensures LeastLoaded(loads) == i
  {
    assert loads[i] == least;
  }

  lemma SelectFromEven(loads: seq<int>, least: int, i: nat)
    requires i < |loads| && IsEven(loads, least, i)
    ensures if i + 1 < |loads| then IsEven(Select(loads), least, i + 1) else IsEven(Select(loads), least + 1, 0)
  {
    FirstOfEven(loads, least, i);
  }

  function Zeros(size: nat): (r: seq<int>)
    ensures |r| == size && forall i :: 0 <= i < size ==> r[i] == 0
  {
    seq(size, _ => 0)
  }

  /** Whole rounds made and the place in the current one, after so many turns. */
  function Turn(size: nat, times: nat): (nat, nat) {
    if times == 0 then (0, 0)
    else
      var (rounds, place) := Turn(size, times - 1);
      if place + 1 < size then (rounds, place + 1) else (rounds + 1, 0)
  }

  lemma {:induction false} TurnIs(size: nat, times: nat)
    requires size > 0
    ensures Turn(size, times) == (times / size, times % size)
  {
    if times > 0 {
      TurnIs(size, times - 1);
      DivNext(size, times - 1);
    } else {
      DivModIs(0, 0, size, 0);
    }
  }

  lemma {:induction false} LeastTakesTurns(size: nat, times: nat)
    requires size > 0
    ensures
      var (rounds, place) := Turn(size, times);
      place < size && IsEven(SelectTimes(Zeros(size), times), rounds, place)
  {
    if times > 0 {
      LeastTakesTurns(size, times - 1);
      var (rounds, place) := Turn(size, times - 1);
      SelectFromEven(SelectTimes(Zeros(size), times - 1), rounds, place);
    }
  }

  /**
   * From all-zero loads and with no releases, least connections is round robin: the n-th selection goes to n
   * modulo the pool size.
   */
  lemma LeastIsRoundRobin(size: nat, times: nat)
    requires size > 0
    ensures
      var loads := SelectTimes(Zeros(size), times);
      IsEven(loads, times / size, times % size) && LeastLoaded(loads) == times % size
  {
    LeastTakesTurns(size, times);
    TurnIs(size, times);
    FirstOfEven(SelectTimes(Zeros(size), times), times / size, times % size);
  }

  lemma DivNext(n: nat, x: nat)
    requires n > 0
    ensures (x + 1) / n == x / n + (if x % n == n - 1 then 1 else 0)
    ensures (x + 1) % n == if x % n == n - 1 then 0 else x % n + 1
  {
    var q, r := x / n, x % n;
    assert x == q * n + r;
    OneMoreTime(q, n);
    if r == n - 1 {
      DivModIs(x + 1, q + 1, n, 0);
    } else {
      DivModIs(x + 1, q, n, r + 1);
    }
  }

  // ---- Releasing --------------------------------------------------------------

  /** The first position holding `id`, or the length. */
  function FirstWith(ids: seq<string>, id: string): (i: nat)
    ensures i <= |ids| && (i < |ids| <==> id in ids)
    ensures i < |ids| ==> ids[i] == id
    ensures forall j :: 0 <= j < i ==> ids[j] != id
  {
    if ids == [] then 0
    else if ids[0] == id then 0
    else
      var i := FirstWith(ids[1..], id);
      assert forall j :: 1 <= j < |ids| ==> ids[j] == ids[1..][j - 1];
      1 + i
  }

  lemma FirstWithIs(ids: seq<string>, id: string, i: nat)
    requires i < |ids| && ids[i] == id && forall j :: 0 <= j < i ==> ids[j] != id
    ensures FirstWith(ids, id) == i
  {
    assert id in ids;
  }

  function Release(ids: seq<string>, loads: seq<int>, id: string): seq<int>
    requires |ids| == |loads|
  {
    var i := FirstWith(ids, id);
    if i < |ids| && loads[i] > 0 then loads[i := loads[i] - 1] else loads
  }

  /** Releasing what was just selected restores every load exactly when no earlier backend has the same id. */
  lemma ReleaseUndoesExactly(ids: seq<string>, loads: seq<int>)
    requires |ids| == |loads| > 0 && forall i :: 0 <= i < |loads| ==> loads[i] >= 0
    ensures
      var chosen := LeastLoaded(loads);
      Release(ids, Select(loads), ids[chosen]) == loads <==> forall j :: 0 <= j < chosen ==> ids[j] != ids[chosen]
  {
    var chosen := LeastLoaded(loads);
    var i := FirstWith(ids, ids[chosen]);
    if i < chosen {
      assert Release(ids, Select(loads), ids[chosen])[chosen] == loads[chosen] + 1;
    }
  }

  /** A release takes one connection off the first backend of that id, if it has one, and changes nothing else. */
  lemma ReleaseExactly(ids: seq<string>, loads: seq<int>, id: string, j: nat)
    requires |ids| == |loads| && j < |ids|
    ensures
      var first := ids[j] == id && forall k :: 0 <= k < j ==> ids[k] != id;
      |Release(ids, loads, id)| == |loads|
      && Release(ids, loads, id)[j] == loads[j] - if first && loads[j] > 0 then 1 else 0
  {
    if ids[j] == id && forall k :: 0 <= k < j ==> ids[k] != id { FirstWithIs(ids, id, j); }
  }

  // ---- Whole runs of selections and releases ----------------------------------

  /** One call of `next` under least connections, or one of `release`. */
  datatype Use = Pick | Free(id: string)

  function LoadsAfter(ids: seq<string>, loads: seq<int>, uses: seq<Use>): (r: seq<int>)
    requires |ids| == |loads| > 0
    ensures |r| == |loads|
  {
    if uses == [] then loads
    else
      var before := LoadsAfter(ids, loads, uses[..|uses| - 1]);
      match uses[|uses| - 1]
      case Pick => Select(before)
      case Free(id) =>
        ReleaseKeepsLength(ids, before, id);
        Release(ids, before, id)
  }

  lemma ReleaseKeepsLength(ids: seq<string>, loads: seq<int>, id: string)
    requires |ids| == |loads|
    ensures |Release(ids, loads, id)| == |loads|
  {
  }

  /** However selections and releases alternate, no count of connections goes below zero. */
  lemma {:induction false} LoadsStayNonNegative(ids: seq<string>, loads: seq<int>, uses: seq<Use>, j: nat)
    requires |ids| == |loads| && j < |loads| && loads[j] >= 0
    ensures LoadsAfter(ids, loads, uses)[j] >= 0
  {
    if uses != [] { LoadsStayNonNegative(ids, loads, uses[..|uses| - 1], j); }
  }

  /** How often the backend at `j` was selected. */
  function Picked(ids: seq<string>, loads: seq<int>, uses: seq<Use>, j: nat): nat
    requires |ids| == |loads| > 0
  {
    if uses == [] then 0
    else
      var rest := uses[..|uses| - 1];
      Picked(ids, loads, rest, j)
      + if uses[|rest|].Pick? && LeastLoaded(LoadsAfter(ids, loads, rest)) == j then 1 else 0
  }

  function Freed(uses: seq<Use>, id: string): nat {
    if uses == [] then 0
    else Freed(uses[..|uses| - 1], id) + if uses[|uses| - 1] == Free(id) then 1 else 0
  }

  /** At no point has the backend at `j` been released more often than it was selected. */
  ghost predicate Balanced(ids: seq<string>, loads: seq<int>, uses: seq<Use>, j: nat)
    requires |ids| == |loads| > 0 && j < |ids|
  {
    (uses != [] ==> Balanced(ids, loads, uses[..|uses| - 1], j))
    && Freed(uses, ids[j]) <= Picked(ids, loads, uses, j)
  }

  lemma OneUse(ids: seq<string>, loads: seq<int>, use: Use, j: nat)
    requires |ids| == |loads| && j < |loads| && NoDuplicates(ids)
    ensures use.Pick? ==> Select(loads)[j] == loads[j] + if LeastLoaded(loads) == j then 1 else 0
    ensures use.Free? ==>
      && |Release(ids, loads, use.id)| == |loads|
      && Release(ids, loads, use.id)[j] == loads[j] - if use.id == ids[j] && loads[j] > 0 then 1 else 0
  {
    if use.Free? { ReleaseExactly(ids, loads, use.id, j); }
  }

  /**
   * With ids of their own, and released no more often than selected, the backends' counts are what they are meant to
   * be: the connections there were, plus those opened, less those closed.
   */
  lemma {:induction false} LoadsAreOpenConnections(ids: seq<string>, loads: seq<int>, uses: seq<Use>, j: nat)
    requires |ids| == |loads| && j < |loads| && NoDuplicates(ids) && loads[j] >= 0
    requires Balanced(ids, loads, uses, j)
    ensures LoadsAfter(ids, loads, uses)[j] == loads[j] + Picked(ids, loads, uses, j) - Freed(uses, ids[j])
  {
    if uses != [] {
      var rest := uses[..|uses| - 1];
      var use, before := uses[|rest|], LoadsAfter(ids, loads, rest);
      LoadsAreOpenConnections(ids, loads, rest, j);
      LoadsStayNonNegative(ids, loads, rest, j);
      OneUse(ids, before, use, j);
      assert use.Pick? ==> LoadsAfter(ids, loads, uses) == Select(before);
      assert use.Free? ==> LoadsAfter(ids, loads, uses) == Release(ids, before, use.id);
    }
  }

  /** Two backends with one id: releasing the one just selected takes the connection off the other. */
  lemma ReleaseCanMissItsBackend(id: string)
    ensures
      var ids, loads := [id, id], [1, 0];
      LeastLoaded(loads) == 1 && Release(ids, Select(loads), ids[1]) == [0, 1]
  {
    var loads := [1, 0];
    assert loads[LeastLoaded(loads)] <= loads[1];
    assert Select(loads) == [1, 1];
    FirstWithIs([id, id], id, 0);
  }

  // ---- The balancer object ----------------------------------------------------

  class Backend {
    const id: string
    const weight: nat
    var activeConnections: int

    constructor (id: string, weight: nat, activeConnections: int)
      ensures this.id == id && this.weight == weight && this.activeConnections == activeConnections
    {
      this.id, this.weight, this.activeConnections := id, weight, activeConnections;
    }
  }

  datatype SelectionError = TypeError

  datatype Algorithm = RoundRobin | WeightedRoundRobin | LeastConnections

  function Ids(backends: seq<Backend>): seq<string> {
    seq(|backends|, i requires 0 <= i < |backends| => backends[i].id)
  }

  function Weights(backends: seq<Backend>): seq<nat> {
    seq(|backends|, i requires 0 <= i < |backends| => backends[i].weight)
  }

  /** The backends chosen are those at these positions. */
  ghost predicate Follows(pool: seq<Backend>, chosen: seq<Backend>, positions: seq<nat>) {
    |chosen| == |positions| &&
    forall k :: 0 <= k < |chosen| ==> positions[k] < |pool| && chosen[k] == pool[positions[k]]
  }

  lemma FollowsMore(pool: seq<Backend>, chosen: seq<Backend>, positions: seq<nat>, i: nat)
    requires Follows(pool, chosen, positions) && i < |pool|
    ensures Follows(pool, chosen + [pool[i]], positions + [i])
  {
  }

  lemma ExpandNext(weights: seq<nat>, i: nat)
    requires i < |weights|
    ensures Expand(weights[..i + 1]) == Expand(weights[..i]) + Repeat(i, weights[i])
  {
    assert weights[..i + 1][..i] == weights[..i];
  }

  class LoadBalancer {
    var backends: seq<Backend>
    var algorithm: Algorithm
    var rrIndex: nat
    var weightedCursor: nat
    ghost var loads: seq<int>      // the active connections, position by position

    ghost predicate Valid()
      reads this, backends
    {
      && NoDuplicates(backends)
      && |loads| == |backends|
      && (forall i :: 0 <= i < |backends| ==> backends[i].activeConnections == loads[i])
    }

    constructor (copies: seq<Backend>, algorithm: Algorithm)
      requires NoDuplicates(copies)
      ensures Valid() && backends == copies && this.algorithm == algorithm && rrIndex == 0 && weightedCursor == 0
    {
      backends, this.algorithm, rrIndex, weightedCursor := copies, algorithm, 0, 0;
      loads := seq(|copies|, i requires 0 <= i < |copies| reads copies => copies[i].activeConnections);
    }

    /** A balancer over its own copies of the given backends; an error when there are none. */
    static method Create(pool: seq<Backend>, algorithm: Algorithm) returns (r: Option<LoadBalancer>)
      ensures r == None <==> pool == []
      ensures r.Some? ==>
        var balancer := r.value;
        && balancer.Valid() && fresh(balancer) && fresh(balancer.backends)
        && balancer.algorithm == algorithm && balancer.rrIndex == 0 && balancer.weightedCursor == 0
        && Ids(balancer.backends) == Ids(pool) && Weights(balancer.backends) == Weights(pool)
        && (forall i :: 0 <= i < |pool| ==> balancer.loads[i] == pool[i].activeConnections)
    {
      if |pool| == 0 { return None; }
      var copies: seq<Backend> := [];
      for i := 0 to |pool|
        invariant |copies| == i && fresh(copies) && NoDuplicates(copies)
        invariant Ids(copies) == Ids(pool[..i]) && Weights(copies) == Weights(pool[..i])
        invariant forall j :: 0 <= j < i ==> copies[j].activeConnections == pool[j].activeConnections
      {
        var copy := new Backend(pool[i].id, pool[i].weight, pool[i].activeConnections);
        assert Ids(pool[..i + 1]) == Ids(pool[..i]) + [copy.id];
        assert Weights(pool[..i + 1]) == Weights(pool[..i]) + [copy.weight];
        copies := copies + [copy];
      }
      assert pool[..|pool|] == pool;
      var balancer := new LoadBalancer(copies, algorithm);
      r := Some(balancer);
    }

    method AddBackend(id: string, weight: nat, activeConnections: int)
      requires Valid()
      modifies `backends, `loads
      ensures Valid() && loads == old(loads) + [activeConnections]
      ensures |backends| == |old(backends)| + 1 && backends[..|old(backends)|] == old(backends)
      ensures Ids(backends) == Ids(old(backends)) + [id] && Weights(backends) == Weights(old(backends)) + [weight]
      ensures fresh(backends[|old(backends)|])
    {
      var backend := new Backend(id, weight, activeConnections);
      backends := backends + [backend];
      loads := loads + [activeConnections];
    }

    /** Undefined on an emptied pool. */
    method NextRoundRobin() returns (backend: Backend?)
      requires Valid()
      modifies `rrIndex
      ensures rrIndex == old(rrIndex) + 1
      ensures backend == if |backends| == 0 then null else backends[old(rrIndex) % |backends|]
    {
      backend := if |backends| == 0 then null else backends[rrIndex % |backends|];
      rrIndex := rrIndex + 1;
    }

    /** Undefined when all weights are zero. */
    method NextWeighted() returns (backend: Backend?)
      requires Valid()
      modifies `weightedCursor
      ensures weightedCursor == old(weightedCursor) + 1
      ensures
        var cycle := Expand(Weights(backends));
        if cycle == [] then backend == null
        else
          var position := Cycling(cycle)(old(weightedCursor));
          position < |backends| && backend == backends[position]
    {
      var expanded := ExpandBackends();
      ghost var cycle := Expand(Weights(backends));
      if |expanded| == 0 {
        backend := null;
      } else {
        ExpandRange(Weights(backends), weightedCursor % |cycle|);
        backend := expanded[weightedCursor % |expanded|];
      }
      weightedCursor := weightedCursor + 1;
    }

    method ExpandBackends() returns (expanded: seq<Backend>)
      ensures Follows(backends, expanded, Expand(Weights(backends)))
    {
      ghost var weights := Weights(backends);
      expanded := [];
      for i := 0 to |backends|
        invariant Follows(backends, expanded, Expand(weights[..i]))
      {
        ghost var before := Expand(weights[..i]);
        for j := 0 to backends[i].weight
          invariant Follows(backends, expanded, before + Repeat(i, j))
        {
          FollowsMore(backends, expanded, before + Repeat(i, j), i);
          assert before + Repeat(i, j) + [i] == before + Repeat(i, j + 1);
          expanded := expanded + [backends[i]];
        }
        ExpandNext(weights, i);
      }
      assert weights[..|backends|] == weights;
    }

    /** On an emptied pool there is no backend whose connections could be counted: an error. */
    method NextLeast() returns (r: Result<Backend, SelectionError>)
      requires Valid()
      modifies backends, `loads
      ensures Valid()
      ensures backends == [] ==> r == Err(TypeError) && loads == old(loads)
      ensures backends != [] ==> r == Ok(backends[LeastLoaded(old(loads))]) && loads == Select(old(loads))
    {
      if |backends| == 0 { return Err(TypeError); }
      var chosen := FindLeast();
      AddConnections(chosen, 1, LeastLoaded(loads));
      r := Ok(chosen);
    }

    method AddConnections(backend: Backend, change: int, ghost at: nat)
      requires Valid() && at < |backends| && backend == backends[at]
      modifies backend, `loads
      ensures Valid() && loads == old(loads)[at := old(loads)[at] + change]
    {
      backend.activeConnections := backend.activeConnections + change;
      loads := loads[at := loads[at] + change];
    }

    /** The first backend with the fewest connections. */
    method FindLeast() returns (chosen: Backend)
      requires Valid() && |backends| > 0
      ensures chosen == backends[LeastLoaded(loads)]
    {
      chosen := backends[0];
      ghost var at := 0;
      for i := 0 to |backends|
        invariant 0 <= at < |backends| && chosen == backends[at]
        invariant forall j :: 0 <= j < i ==> loads[at] <= loads[j]
        invariant forall j :: 0 <= j < at ==> loads[at] < loads[j]
      {
        if backends[i].activeConnections < chosen.activeConnections {
          chosen := backends[i];
          at := i;
        }
      }
      assert at == LeastLoaded(loads);
    }

    method Next() returns (r: Result<Backend?, SelectionError>)
      requires Valid()
      modifies `rrIndex, `weightedCursor, `loads, backends
      ensures Valid()
      ensures rrIndex == old(rrIndex) + if algorithm == RoundRobin then 1 else 0
      ensures weightedCursor == old(weightedCursor) + if algorithm == WeightedRoundRobin then 1 else 0
      ensures algorithm != LeastConnections ==> loads == old(loads)
      ensures
        match algorithm
        case RoundRobin => r == Ok(if |backends| == 0 then null else backends[old(rrIndex) % |backends|])
        case WeightedRoundRobin =>
          var cycle := Expand(Weights(backends));
          if cycle == [] then r == Ok(null)
          else
            var position := Cycling(cycle)(old(weightedCursor));
            position < |backends| && r == Ok(backends[position])
        case LeastConnections =>
          if backends == [] then r == Err(TypeError) && loads == old(loads)
          else r == Ok(backends[LeastLoaded(old(loads))]) && loads == Select(old(loads))
    {
      match algorithm
      case RoundRobin =>
        var backend := NextRoundRobin();
        r := Ok(backend);
      case WeightedRoundRobin =>
        var backend := NextWeighted();
        r := Ok(backend);
      case LeastConnections =>
        r := NextLeast();
    }

    method ReleaseBackend(id: string)
      requires Valid()
      modifies backends, `loads
      ensures Valid() && loads == Release(Ids(backends), old(loads), id)
    {
      for i := 0 to |backends|
        invariant forall j :: 0 <= j < i ==> backends[j].id != id
      {
        if backends[i].id == id {
          FirstWithIs(Ids(backends), id, i);
          if backends[i].activeConnections > 0 { AddConnections(backends[i], -1, i); }
          return;
        }
      }
      assert id !in Ids(backends);
    }

    method RemoveBackend(id: string)
      requires Valid()
      modifies `backends, `loads
      ensures Valid() && backends == Others(old(backends), id)
    {
      var kept: seq<Backend> := [];
      ghost var keptLoads: seq<int> := [];
      for i := 0 to |backends|
        invariant kept == Others(backends[..i], id) && NoDuplicates(kept)
        invariant |keptLoads| == |kept| && forall j :: 0 <= j < |kept| ==> kept[j].activeConnections == keptLoads[j]
      {
        assert backends[..i + 1] == backends[..i] + [backends[i]];
        if backends[i].id != id {
          kept := kept + [backends[i]];
          keptLoads := keptLoads + [loads[i]];
        }
      }
      assert backends[..|backends|] == backends;
      backends := kept;
      loads := keptLoads;
    }
  }

  ghost predicate Ascending(positions: seq<nat>) {
    forall i, j :: 0 <= i < j < |positions| ==> positions[i] < positions[j]
  }

  /** Exactly the positions of the backends with another id. */
  ghost predicate Survive(backends: seq<Backend>, id: string, positions: seq<nat>) {
    forall p :: p in positions <==> 0 <= p < |backends| && backends[p].id != id
  }

  lemma AscendingMore(positions: seq<nat>, p: nat)
    requires Ascending(positions) && forall q :: q in positions ==> q < p
    ensures Ascending(positions + [p])
  {
    forall i | 0 <= i < |positions| ensures positions[i] < p { assert positions[i] in positions; }
  }

  lemma SurviveMore(backends: seq<Backend>, b: Backend, id: string, positions: seq<nat>)
    requires Survive(backends, id, positions)
    ensures Survive(backends + [b], id, if b.id != id then positions + [|backends|] else positions)
  {
  }

  lemma FollowsLonger(pool: seq<Backend>, b: Backend, chosen: seq<Backend>, positions: seq<nat>)
    requires Follows(pool, chosen, positions)
    ensures Follows(pool + [b], chosen, positions)
  {
  }

  /** What is kept stands at exactly the positions of the other ids, in the order it had. */
  lemma {:induction false} OthersKeepOrder(backends: seq<Backend>, id: string) returns (positions: seq<nat>)
    ensures Ascending(positions) && Survive(backends, id, positions)
    ensures Follows(backends, Others(backends, id), positions)
  {
    if backends == [] {
      positions := [];
    } else {
      var rest, b := backends[..|backends| - 1], backends[|backends| - 1];
      positions := OthersKeepOrder(rest, id);
      assert backends == rest + [b];
      SurviveMore(rest, b, id, positions);
      FollowsLonger(rest, b, Others(rest, id), positions);
      if b.id != id {
        AscendingMore(positions, |rest|);
        FollowsMore(backends, Others(rest, id), positions, |rest|);
        positions := positions + [|rest|];
      }
    }
  }

  /** The backends with another id, in order. */
  function Others(backends: seq<Backend>, id: string): (r: seq<Backend>)
    ensures forall i :: 0 <= i < |r| ==> r[i] in backends && r[i].id != id
    ensures forall i :: 0 <= i < |backends| && backends[i].id != id ==> backends[i] in r
  {
    if backends == [] then []
    else
      var rest, last := Others(backends[..|backends| - 1], id), backends[|backends| - 1];
      assert backends == backends[..|backends| - 1] + [last];
      if last.id != id then rest + [last] else rest
  }
}
