/**
 * The consistent hash ring: virtual nodes, a sorted index searched with
 * wrap-around, and a clockwise replica walk.
 *
 * The 32-bit hash is an arbitrary function; nothing is assumed about collisions
 * except where a lemma says so.
 */
module ConsistentHashing {
  import opened Common

  type Hash = h: int | 0 <= h < 0x1_0000_0000

  type Ring = map<Hash, string>

  // ---- Virtual node positions -------------------------------------------------

  /** The decimal digits of a loop index. */
  function Decimal(n: nat): string {
    var digit := ['0' + (n % 10) as char];
    if n < 10 then digit else Decimal(n / 10) + digit
  }

  /** The text that is hashed for virtual node `i`. */
  function Label(node: string, i: nat): string {
    node + "#" + Decimal(i)
  }

  function Position(hash: string -> Hash, node: string, i: nat): Hash {
    hash(Label(node, i))
  }

  function Positions(hash: string -> Hash, node: string, count: nat): set<Hash> {
    set i | 0 <= i < count :: Position(hash, node, i)
  }

  lemma PositionsGrow(hash: string -> Hash, node: string, i: nat)
    ensures Positions(hash, node, i + 1) == Positions(hash, node, i) + {Position(hash, node, i)}
  {
  }

  predicate IsDigit(c: char) { '0' <= c <= '9' }

  /** The number that a string of digits denotes. */
  function Value(digits: string): nat
    requires forall i :: 0 <= i < |digits| ==> IsDigit(digits[i])
  {
    if digits == "" then 0
    else
      assert IsDigit(digits[|digits| - 1]);
      Value(digits[..|digits| - 1]) * 10 + (digits[|digits| - 1] as int - '0' as int)
  }

  /** The index is written in digits that denote it, without leading zeros. */
  lemma {:induction false} DecimalReadsBack(n: nat)
    ensures Decimal(n) != "" && forall i :: 0 <= i < |Decimal(n)| ==> IsDigit(Decimal(n)[i])
    ensures Value(Decimal(n)) == n && (Decimal(n)[0] == '0' <==> n == 0)
  {
    var digit := ['0' + (n % 10) as char];
    if n < 10 {
      assert digit[..0] == "";
    } else {
      DecimalReadsBack(n / 10);
      assert (Decimal(n / 10) + digit)[..|Decimal(n / 10)|] == Decimal(n / 10);
    }
  }

  /** The node's name can be read off a label: it ends where the last `#` stands. */
  lemma LabelsSplit(a: string, i: nat, b: string, j: nat)
    requires Label(a, i) == Label(b, j)
    ensures |a| >= |b|
  {
    if |a| < |b| {
      assert Label(b, j)[|b|] == '#';
      NoLaterHash(a, i, |b|);
    }
  }

  lemma NoLaterHash(node: string, i: nat, k: nat)
    requires |node| < k < |Label(node, i)|
    ensures Label(node, i)[k] != '#'
  {
    DecimalReadsBack(i);
    assert Label(node, i)[k] == Decimal(i)[k - |node| - 1];
  }

  /** Different virtual nodes, of one node or of two, are never hashed under the same label. */
  lemma LabelsAreDistinct(a: string, i: nat, b: string, j: nat)
    requires Label(a, i) == Label(b, j)
    ensures a == b && i == j
  {
    LabelsSplit(a, i, b, j);
    LabelsSplit(b, j, a, i);
    assert Label(a, i)[..|a|] == a && Label(b, j)[..|a|] == b;
    assert Label(a, i)[|a| + 1..] == Decimal(i) && Label(b, j)[|a| + 1..] == Decimal(j);
    DecimalReadsBack(i);
    DecimalReadsBack(j);
  }

  /** The hash tells the node's labels apart. */
  ghost predicate Separates(hash: string -> Hash, node: string, count: nat) {
    forall i, j :: 0 <= i < j < count ==> Position(hash, node, i) != Position(hash, node, j)
  }

  /** A node has as many positions as virtual nodes exactly when the hash tells their labels apart, never more. */
  lemma {:induction false} PositionsCountExactly(hash: string -> Hash, node: string, count: nat)
    ensures |Positions(hash, node, count)| <= count
    ensures |Positions(hash, node, count)| == count <==> Separates(hash, node, count)
  {
    if count > 0 {
      PositionsCountExactly(hash, node, count - 1);
      OneMorePosition(hash, node, count - 1);
      SeparatesOneMore(hash, node, count - 1);
    }
  }

  lemma OneMorePosition(hash: string -> Hash, node: string, i: nat)
    ensures |Positions(hash, node, i + 1)| ==
      |Positions(hash, node, i)| + if Position(hash, node, i) in Positions(hash, node, i) then 0 else 1
  {
    PositionsGrow(hash, node, i);
    var s, p := Positions(hash, node, i), Position(hash, node, i);
    if p in s { assert s + {p} == s; }
  }

  lemma SeparatesOneMore(hash: string -> Hash, node: string, i: nat)
    ensures Separates(hash, node, i + 1)
       <==> Separates(hash, node, i) && Position(hash, node, i) !in Positions(hash, node, i)
  {
  }

  function AfterAdd(ring: Ring, node: string, positions: set<Hash>): Ring {
    ring + map p | p in positions :: node
  }

  lemma AddOnePoint(ring: Ring, node: string, positions: set<Hash>, p: Hash)
    ensures AfterAdd(ring, node, positions + {p}) == AfterAdd(ring, node, positions)[p := node]
  {
  }

  function AfterRemove(ring: Ring, positions: set<Hash>): Ring {
    ring - positions
  }

  /** The points of every node other than `node`. */
  function WithoutNode(ring: Ring, node: string): Ring {
    map p | p in ring && ring[p] != node :: ring[p]
  }

  // ---- The sorted index -------------------------------------------------------

  predicate Increasing(s: seq<Hash>) {
    forall i, j :: 0 <= i < j < |s| ==> s[i] < s[j]
  }

  /** `points` is the ascending list of the positions in use. */
  ghost predicate IsIndex(points: seq<Hash>, ring: Ring) {
    Increasing(points) && Lists(points, ring.Keys)
  }

  /** Cutting the greatest entry off an ascending list removes exactly that entry. */
  lemma IncreasingLast(a: seq<Hash>)
    requires Increasing(a) && a != []
    ensures forall p :: p in a ==> p <= a[|a| - 1]
    ensures forall p :: p in a[..|a| - 1] <==> p in a && p != a[|a| - 1]
  {
    assert a == a[..|a| - 1] + [a[|a| - 1]];
    forall p | p in a ensures p <= a[|a| - 1] {
      var i :| 0 <= i < |a| && a[i] == p;
    }
  }

  lemma {:induction false} IncreasingUnique(a: seq<Hash>, b: seq<Hash>)
    requires Increasing(a) && Increasing(b)
    requires forall p :: p in a <==> p in b
    ensures a == b
  {
    if a == [] {
      assert forall i :: 0 <= i < |b| ==> b[i] in b;
    } else {
      assert a[0] in a && a[0] in b && b != [];
      IncreasingLast(a);
      IncreasingLast(b);
      assert a[|a| - 1] in a && b[|b| - 1] in b;
      assert a[|a| - 1] == b[|b| - 1];
      var a', b' := a[..|a| - 1], b[..|b| - 1];
      forall p: Hash ensures p in a' <==> p in b' {
        assert p in a' <==> p in a && p != a[|a| - 1];
        assert p in b' <==> p in b && p != b[|b| - 1];
      }
      IncreasingUnique(a', b');
      assert a == a' + [a[|a| - 1]] && b == b' + [b[|b| - 1]];
    }
  }

  /** The position of the first hash at or after `h`, or the length. */
  function Rank(points: seq<Hash>, h: Hash): (k: nat)
    ensures k <= |points|
    ensures forall i :: 0 <= i < k ==> points[i] < h
    ensures k < |points| ==> points[k] >= h
  {
    if points == [] || points[0] >= h then 0 else 1 + Rank(points[1..], h)
  }

  lemma RankUnique(points: seq<Hash>, h: Hash, k: nat)
    requires k <= |points|
    requires forall i :: 0 <= i < k ==> points[i] < h
    requires k < |points| ==> points[k] >= h
    ensures Rank(points, h) == k
  {
    var r := Rank(points, h);
    assert !(r < k);
  }

  function Insert(points: seq<Hash>, h: Hash): seq<Hash> {
    var k := Rank(points, h);
    points[..k] + [h] + points[k..]
  }

  lemma InsertMembers(points: seq<Hash>, h: Hash)
    ensures forall p: Hash :: p in Insert(points, h) <==> p == h || p in points
  {
    var k := Rank(points, h);
    assert points == points[..k] + points[k..];
  }

  lemma InsertIncreasing(points: seq<Hash>, h: Hash)
    requires Increasing(points) && h !in points
    ensures Increasing(Insert(points, h))
  {
    var k, r := Rank(points, h), Insert(points, h);
    forall j | k <= j < |points| ensures h < points[j] {
      assert points[j] in points && points[k] <= points[j];
    }
    assert forall i :: 0 <= i < |r| ==> r[i] == if i < k then points[i] else if i == k then h else points[i - 1];
  }

  // ---- The clockwise walk -----------------------------------------------------

  function NameAt(ring: Ring, p: Hash): string {
    if p in ring then ring[p] else ""
  }

  /** The nodes at the given points. */
  function Names(ring: Ring, points: seq<Hash>): (names: seq<string>)
    ensures |names| == |points|
    ensures forall i :: 0 <= i < |points| ==> names[i] == NameAt(ring, points[i])
  {
    seq(|points|, i requires 0 <= i < |points| => NameAt(ring, points[i]))
  }

  /** The ring's points in the order met on one clockwise lap from `h`. */
  function Rotation(points: seq<Hash>, h: Hash): (lap: seq<Hash>)
    ensures |lap| == |points|
  {
    points[Rank(points, h)..] + points[..Rank(points, h)]
  }

  /** The node names met on that lap, repetitions included. */
  function Lap(ring: Ring, points: seq<Hash>, h: Hash): seq<string> {
    Names(ring, Rotation(points, h))
  }

  /** The sequence with every repetition after the first dropped. */
  function FirstOccurrences(s: seq<string>): (r: seq<string>) {
    if s == [] then []
    else
      var r, x := FirstOccurrences(s[..|s| - 1]), s[|s| - 1];
      if x in r then r else r + [x]
  }

  /** The sequence with every occurrence of `node` dropped. */
  function Without(s: seq<string>, node: string): (r: seq<string>) {
    if s == [] then []
    else
      var r, x := Without(s[..|s| - 1], node), s[|s| - 1];
      if x == node then r else r + [x]
  }

  /** The node that owns hash `h`, if the ring has any. */
  function Owner(ring: Ring, points: seq<Hash>, h: Hash): Option<string> {
    if points == [] then None else Some(Lap(ring, points, h)[0])
  }

  /** The first `count` distinct nodes met clockwise from `h`. */
  function Replicas(ring: Ring, points: seq<Hash>, h: Hash, count: int): seq<string> {
    Take(FirstOccurrences(Lap(ring, points, h)), count)
  }

  lemma {:induction false} FirstOccurrencesMembers(s: seq<string>)
    ensures NoDuplicates(FirstOccurrences(s))
    ensures forall x :: x in FirstOccurrences(s) <==> x in s
  {
    if s != [] {
      assert s == s[..|s| - 1] + [s[|s| - 1]];
      FirstOccurrencesMembers(s[..|s| - 1]);
    }
  }

  lemma {:induction false} FirstOccurrencesPrefix(s: seq<string>, k: nat)
    requires k <= |s|
    ensures FirstOccurrences(s[..k]) <= FirstOccurrences(s)
    decreases |s| - k
  {
    if k == |s| {
      assert s[..k] == s;
    } else {
      assert s[..k + 1][..k] == s[..k];
      FirstOccurrencesPrefix(s, k + 1);
    }
  }

  lemma RotationMembers(points: seq<Hash>, h: Hash)
    ensures forall p: Hash :: p in Rotation(points, h) <==> p in points
  {
    var k := Rank(points, h);
    assert points == points[..k] + points[k..];
  }

  lemma LapNames(ring: Ring, points: seq<Hash>, h: Hash)
    requires IsIndex(points, ring)
    ensures Lists(Lap(ring, points, h), ring.Values)
  {
    var lap, names := Rotation(points, h), Lap(ring, points, h);
    RotationMembers(points, h);
    forall v | v in ring.Values ensures v in names {
      var p :| p in ring && ring[p] == v;
      var i :| 0 <= i < |lap| && lap[i] == p;
      assert names[i] == v;
    }
    forall v | v in names ensures v in ring.Values {
      var i :| 0 <= i < |names| && names[i] == v;
      assert lap[i] in lap;
    }
  }

  // ---- What the walk returns --------------------------------------------------

  /** Replicas are distinct members of the ring, as many as asked for and available. */
  lemma ReplicasAreDistinct(ring: Ring, points: seq<Hash>, h: Hash, count: int)
    requires IsIndex(points, ring)
    ensures NoDuplicates(Replicas(ring, points, h, count))
    ensures forall x :: x in Replicas(ring, points, h, count) ==> x in ring.Values
    ensures |Replicas(ring, points, h, count)| == Min(Max(count, 0), |ring.Values|)
  {
    var all := FirstOccurrences(Lap(ring, points, h));
    LapNames(ring, points, h);
    FirstOccurrencesMembers(Lap(ring, points, h));
    NoDuplicatesSize(all, ring.Values);
    TakenFrom(all, count);
  }

  lemma TakenFrom(s: seq<string>, count: int)
    requires NoDuplicates(s)
    ensures NoDuplicates(Take(s, count)) && |Take(s, count)| == Min(Max(count, 0), |s|)
    ensures forall x :: x in Take(s, count) ==> x in s
  {
  }

  /** Asking for fewer replicas gives a prefix of asking for more. */
  lemma ReplicasArePrefixes(ring: Ring, points: seq<Hash>, h: Hash, fewer: int, more: int)
    requires fewer <= more
    ensures Replicas(ring, points, h, fewer) <= Replicas(ring, points, h, more)
  {
  }

  /** `p` is the point a clockwise search from `h` reaches first. */
  ghost predicate IsSuccessor(ring: Ring, h: Hash, p: Hash) {
    && p in ring
    && if p >= h then forall q :: q in ring && q >= h ==> p <= q
       else forall q :: q in ring ==> q < h && p <= q
  }

  lemma LapStartsAtSuccessor(ring: Ring, points: seq<Hash>, h: Hash)
    requires IsIndex(points, ring) && points != []
    ensures IsSuccessor(ring, h, Rotation(points, h)[0])
  {
    var k, p := Rank(points, h), Rotation(points, h)[0];
    assert p in points;
    forall q | q in ring ensures q >= h ==> p <= q
      ensures k == |points| ==> q < h && p <= q
    {
      assert q in points;
      var i :| 0 <= i < |points| && points[i] == q;
    }
  }

  /** The owner of a hash is the node at its successor point. */
  lemma OwnerIsAtSuccessor(ring: Ring, points: seq<Hash>, h: Hash, p: Hash)
    requires IsIndex(points, ring) && IsSuccessor(ring, h, p)
    ensures Owner(ring, points, h) == Some(ring[p])
  {
    assert p in points;
    LapStartsAtSuccessor(ring, points, h);
  }

  /** Where step `k` of the lap stands in the index: `k` past the search position, wrapping once. */
  function LapIndex(points: seq<Hash>, h: Hash, k: nat): int {
    var start := if Rank(points, h) == |points| then 0 else Rank(points, h);
    if start + k < |points| then start + k else start + k - |points|
  }

  lemma LapEntry(ring: Ring, points: seq<Hash>, h: Hash, k: nat)
    requires k < |points| && forall p :: p in points ==> p in ring
    ensures
      var i := LapIndex(points, h, k);
      0 <= i < |points| && points[i] in ring && Lap(ring, points, h)[k] == ring[points[i]]
  {
    assert forall i :: 0 <= i < |points| ==> points[i] in points;
  }

  /** A search that stops at the first entry not below `h`, or past the end, has found the owner. */
  lemma OwnerIsAtSearchResult(ring: Ring, points: seq<Hash>, h: Hash, k: nat)
    requires points != [] && k <= |points| && forall i :: 0 <= i < |points| ==> points[i] in ring
    requires forall i :: 0 <= i < k ==> points[i] < h
    requires k < |points| ==> points[k] >= h
    ensures Owner(ring, points, h) == Some(ring[points[if k == |points| then 0 else k]])
  {
    RankUnique(points, h, k);
    LapEntry(ring, points, h, 0);
  }

  /** The first replica is the owner. */
  lemma FirstReplicaIsOwner(ring: Ring, points: seq<Hash>, h: Hash, count: int)
    requires points != [] && count >= 1
    ensures Replicas(ring, points, h, count) != []
    ensures Owner(ring, points, h) == Some(Replicas(ring, points, h, count)[0])
  {
    var lap := Lap(ring, points, h);
    assert lap[..1] == [lap[0]] && lap[..1][..0] == [];
    FirstOccurrencesPrefix(lap, 1);
  }

  // ---- Removing a node --------------------------------------------------------

  lemma {:induction false} WithoutAppend(s: seq<string>, t: seq<string>, node: string)
    ensures Without(s + t, node) == Without(s, node) + Without(t, node)
  {
    if t == [] {
      assert s + t == s;
    } else {
      var t' := t[..|t| - 1];
      assert (s + t)[..|s + t| - 1] == s + t';
      WithoutAppend(s, t', node);
    }
  }

  lemma {:induction false} WithoutMembers(s: seq<string>, node: string)
    ensures forall x :: x in Without(s, node) <==> x in s && x != node
    ensures node !in s ==> Without(s, node) == s
    ensures NoDuplicates(s) && node in s ==> |Without(s, node)| == |s| - 1
  {
    if s != [] {
      var s' := s[..|s| - 1];
      assert s == s' + [s[|s| - 1]];
      WithoutMembers(s', node);
    }
  }

  lemma {:induction false} FirstOccurrencesWithout(s: seq<string>, node: string)
    ensures FirstOccurrences(Without(s, node)) == Without(FirstOccurrences(s), node)
  {
    if s != [] {
      var s', x := s[..|s| - 1], s[|s| - 1];
      FirstOccurrencesWithout(s', node);
      var r := FirstOccurrences(s');
      WithoutMembers(r, node);
      if x != node {
        assert Without(s, node)[..|Without(s, node)| - 1] == Without(s', node);
      }
      if x !in r {
        assert (r + [x])[..|r + [x]| - 1] == r;
      }
    }
  }

  /** Dropping one name from a duplicate-free list and cutting it commute, with one entry to spare. */
  lemma TakeWithout(s: seq<string>, node: string, count: int)
    requires NoDuplicates(s)
    ensures Take(Without(s, node), count) == Take(Without(Take(s, count + 1), node), count)
  {
    var t := Take(s, count + 1);
    if 0 < count && count + 1 <= |s| {
      assert s == t + s[count + 1..];
      WithoutAppend(t, s[count + 1..], node);
      WithoutMembers(t, node);
    }
  }

  /** The points not held by `node`, in order. */
  function Kept(ring: Ring, points: seq<Hash>, node: string): (r: seq<Hash>) {
    if points == [] then []
    else
      var r, p := Kept(ring, points[..|points| - 1], node), points[|points| - 1];
      if NameAt(ring, p) == node then r else r + [p]
  }

  lemma {:induction false} KeptHas(ring: Ring, points: seq<Hash>, node: string, p: Hash)
    ensures p in Kept(ring, points, node) <==> p in points && NameAt(ring, p) != node
  {
    if points != [] {
      assert points == points[..|points| - 1] + [points[|points| - 1]];
      KeptHas(ring, points[..|points| - 1], node, p);
    }
  }

  lemma KeptMembers(ring: Ring, points: seq<Hash>, node: string)
    requires Increasing(points)
    ensures Increasing(Kept(ring, points, node))
    ensures forall p: Hash :: p in Kept(ring, points, node) <==> p in points && NameAt(ring, p) != node
  {
    KeptIncreases(ring, points, node);
    forall p: Hash ensures p in Kept(ring, points, node) <==> p in points && NameAt(ring, p) != node {
      KeptHas(ring, points, node, p);
    }
  }

  lemma {:induction false} KeptIncreases(ring: Ring, points: seq<Hash>, node: string)
    requires Increasing(points)
    ensures Increasing(Kept(ring, points, node))
  {
    if points != [] {
      var rest, p := points[..|points| - 1], points[|points| - 1];
      assert points == rest + [p];
      KeptIncreases(ring, rest, node);
      forall q: Hash | q in Kept(ring, rest, node) ensures q < p {
        KeptHas(ring, rest, node, q);
        IncreasingBelow(rest, p);
      }
      if NameAt(ring, p) != node { IncreasingAppend(Kept(ring, rest, node), p); }
    }
  }

  lemma IncreasingBelow(points: seq<Hash>, p: Hash)
    requires Increasing(points + [p])
    ensures forall q: Hash :: q in points ==> q < p
  {
    forall q: Hash | q in points ensures q < p {
      var i :| 0 <= i < |points| && points[i] == q;
      assert (points + [p])[i] == q && (points + [p])[|points|] == p;
    }
  }

  lemma IncreasingAppend(points: seq<Hash>, p: Hash)
    requires Increasing(points) && forall q: Hash :: q in points ==> q < p
    ensures Increasing(points + [p])
  {
    assert forall i :: 0 <= i < |points| ==> points[i] in points;
  }

  lemma {:induction false} KeptAppend(ring: Ring, s: seq<Hash>, t: seq<Hash>, node: string)
    ensures Kept(ring, s + t, node) == Kept(ring, s, node) + Kept(ring, t, node)
  {
    if t == [] {
      assert s + t == s;
    } else {
      var t' := t[..|t| - 1];
      assert (s + t)[..|s + t| - 1] == s + t';
      KeptAppend(ring, s, t', node);
    }
  }

  /** Filtering points and then naming them is naming them and striking the node out. */
  lemma {:induction false} NamesOfKept(ring: Ring, points: seq<Hash>, node: string)
    requires forall p :: p in points ==> p in ring
    ensures Names(WithoutNode(ring, node), Kept(ring, points, node)) == Without(Names(ring, points), node)
  {
    if points != [] {
      var rest, p := points[..|points| - 1], points[|points| - 1];
      NamesOfKept(ring, rest, node);
      assert p in ring;
      assert Names(ring, points)[..|points| - 1] == Names(ring, rest);
    }
  }

  /** Filtering the index filters the lap. */
  lemma RotationOfKept(ring: Ring, points: seq<Hash>, h: Hash, node: string)
    requires Increasing(points)
    ensures Rotation(Kept(ring, points, node), h) == Kept(ring, Rotation(points, h), node)
  {
    var k := Rank(points, h);
    var low, high := points[..k], points[k..];
    assert points == low + high;
    RankParts(points, h);
    KeptRotates(ring, low, high, h, node);
  }

  lemma RankParts(points: seq<Hash>, h: Hash)
    requires Increasing(points)
    ensures forall i :: 0 <= i < |points[..Rank(points, h)]| ==> points[..Rank(points, h)][i] < h
    ensures forall i :: 0 <= i < |points[Rank(points, h)..]| ==> points[Rank(points, h)..][i] >= h
  {
    var k := Rank(points, h);
    forall i | 0 <= i < |points| - k ensures points[k..][i] >= h { assert points[k + i] >= points[k]; }
  }

  lemma KeptRotates(ring: Ring, low: seq<Hash>, high: seq<Hash>, h: Hash, node: string)
    requires forall i :: 0 <= i < |low| ==> low[i] < h
    requires forall i :: 0 <= i < |high| ==> high[i] >= h
    ensures Rotation(Kept(ring, low + high, node), h) == Kept(ring, high + low, node)
  {
    KeptAppend(ring, low, high, node);
    KeptAppend(ring, high, low, node);
    KeptWithin(ring, low, node, 0, h);
    KeptWithin(ring, high, node, h, 0x1_0000_0000);
    RankSplits(Kept(ring, low, node), Kept(ring, high, node), h);
  }

  lemma {:induction false} KeptWithin(ring: Ring, points: seq<Hash>, node: string, lo: int, hi: int)
    requires forall i :: 0 <= i < |points| ==> lo <= points[i] < hi
    ensures forall i :: 0 <= i < |Kept(ring, points, node)| ==> lo <= Kept(ring, points, node)[i] < hi
  {
    if points != [] { KeptWithin(ring, points[..|points| - 1], node, lo, hi); }
  }

  lemma RankSplits(low: seq<Hash>, high: seq<Hash>, h: Hash)
    requires forall i :: 0 <= i < |low| ==> low[i] < h
    requires forall i :: 0 <= i < |high| ==> high[i] >= h
    ensures Rotation(low + high, h) == high + low
  {
    RankUnique(low + high, h, |low|);
  }

  /** Every point `node` holds is one of its own positions. */
  ghost predicate HoldsOnlyOwn(ring: Ring, node: string, positions: set<Hash>) {
    forall p :: p in ring && ring[p] == node ==> p in positions
  }

  /** No position of `node` is held by another node. */
  ghost predicate NoForeignPoint(ring: Ring, node: string, positions: set<Hash>) {
    forall p :: p in positions && p in ring ==> ring[p] == node
  }

  /** Removal takes away exactly the points of `node` when, and only when, nobody else sits on its positions. */
  lemma RemovalKeepsOthersExactly(ring: Ring, node: string, positions: set<Hash>)
    requires HoldsOnlyOwn(ring, node, positions)
    ensures AfterRemove(ring, positions) == WithoutNode(ring, node)
       <==> NoForeignPoint(ring, node, positions)
  {
    if AfterRemove(ring, positions) == WithoutNode(ring, node) {
      forall p | p in positions && p in ring ensures ring[p] == node {
        assert p !in AfterRemove(ring, positions);
      }
    }
  }

  /**
   * Replica stability: after `node` leaves, the first `count` replicas of every hash are the
   * first `count + 1` replicas it had before, with `node` struck out.
   */
  lemma ReplicaStability(ring: Ring, points: seq<Hash>, node: string, positions: set<Hash>, points': seq<Hash>,
                         h: Hash, count: int)
    requires HoldsOnlyOwn(ring, node, positions) && NoForeignPoint(ring, node, positions)
    requires IsIndex(points, ring) && IsIndex(points', AfterRemove(ring, positions))
    ensures Replicas(AfterRemove(ring, positions), points', h, count)
         == Take(Without(Replicas(ring, points, h, count + 1), node), count)
  {
    RemovalKeepsOthersExactly(ring, node, positions);
    KeptMembers(ring, points, node);
    IncreasingUnique(points', Kept(ring, points, node));
    RotationOfKept(ring, points, h, node);
    NamesOfKept(ring, Rotation(points, h), node);
    FirstOccurrencesWithout(Lap(ring, points, h), node);
    FirstOccurrencesMembers(Lap(ring, points, h));
    TakeWithout(FirstOccurrences(Lap(ring, points, h)), node, count);
  }

  /** A hash not owned by the leaving node keeps its owner; the others fall to their old second replica. */
  lemma OwnersAfterRemoval(ring: Ring, points: seq<Hash>, node: string, positions: set<Hash>, points': seq<Hash>,
                           h: Hash)
    requires HoldsOnlyOwn(ring, node, positions) && NoForeignPoint(ring, node, positions)
    requires IsIndex(points, ring) && IsIndex(points', AfterRemove(ring, positions))
    ensures Owner(ring, points, h) != Some(node) ==>
      Owner(AfterRemove(ring, positions), points', h) == Owner(ring, points, h)
    ensures Owner(ring, points, h) == Some(node) ==>
      var two := Replicas(ring, points, h, 2);
      Owner(AfterRemove(ring, positions), points', h) == if |two| < 2 then None else Some(two[1])
  {
    if points != [] {
      var two := Replicas(ring, points, h, 2);
      ReplicaStability(ring, points, node, positions, points', h, 1);
      FirstReplicaIsOwner(ring, points, h, 2);
      ReplicasAreDistinct(ring, points, h, 2);
      WithoutFirstTwo(two, node);
      if points' != [] {
        FirstReplicaIsOwner(AfterRemove(ring, positions), points', h, 1);
      }
    } else {
      assert forall i :: 0 <= i < |points'| ==> points'[i] in points';
    }
  }

  lemma WithoutFirstTwo(two: seq<string>, node: string)
    requires 1 <= |two| <= 2 && NoDuplicates(two)
    ensures Without(two, node) ==
      if two[0] != node then (if |two| == 2 && two[1] != node then two else [two[0]])
      else two[1..]
  {
    assert two[..1] == [two[0]] && two[..1][..0] == [];
    assert Without(two[..1], node) == if two[0] == node then [] else [two[0]];
  }

  // ---- Adding a node ----------------------------------------------------------

  /** Whatever collides, adding a node moves a hash only to that node. */
  lemma AddingMovesOnlyToTheNewNode(ring: Ring, points: seq<Hash>, node: string, positions: set<Hash>,
                                    points': seq<Hash>, h: Hash)
    requires IsIndex(points, ring) && IsIndex(points', AfterAdd(ring, node, positions))
    ensures Owner(AfterAdd(ring, node, positions), points', h) in {Some(node), Owner(ring, points, h)}
  {
    var ring' := AfterAdd(ring, node, positions);
    if points' != [] {
      LapStartsAtSuccessor(ring', points', h);
      var p := Rotation(points', h)[0];
      if p !in positions {
        assert IsSuccessor(ring, h, p) by { assert forall q :: q in ring ==> q in ring'; }
        OwnerIsAtSuccessor(ring, points, h, p);
      }
    } else if points != [] {
      assert forall p :: p in points ==> p in points';
    }
  }

  /** A newcomer on free positions is taken out again, without trace, by removing those positions. */
  lemma NewcomerIsRemovable(ring: Ring, node: string, positions: set<Hash>)
    requires node !in ring.Values && positions !! ring.Keys
    ensures
      var ring' := AfterAdd(ring, node, positions);
      && HoldsOnlyOwn(ring', node, positions)
      && NoForeignPoint(ring', node, positions)
      && AfterRemove(ring', positions) == ring
  {
    AddThenRemoveRestoresExactly(ring, node, positions);
    forall p | p in ring ensures ring[p] != node { assert ring[p] in ring.Values; }
  }

  /**
   * The dual of replica stability: after `node` joins, the replicas of every hash, with `node` struck out, are a
   * prefix of those it had before; one more new replica is always enough to get all of them back.
   */
  lemma JoiningOnlyInserts(ring: Ring, points: seq<Hash>, node: string, positions: set<Hash>, points': seq<Hash>,
                           h: Hash, count: int)
    requires node !in ring.Values && positions !! ring.Keys
    requires IsIndex(points, ring) && IsIndex(points', AfterAdd(ring, node, positions))
    ensures Without(Replicas(AfterAdd(ring, node, positions), points', h, count), node)
         <= Replicas(ring, points, h, count)
    ensures Replicas(ring, points, h, count)
         == Take(Without(Replicas(AfterAdd(ring, node, positions), points', h, count + 1), node), count)
  {
    var ring' := AfterAdd(ring, node, positions);
    NewcomerIsRemovable(ring, node, positions);
    ReplicaStability(ring', points', node, positions, points, h, count);
    FirstOccurrencesMembers(Lap(ring', points', h));
    WithoutOfTake(FirstOccurrences(Lap(ring', points', h)), node, count);
  }

  /** Cutting a list one entry sooner and then dropping a name gives a prefix of dropping it and then cutting. */
  lemma WithoutOfTake(s: seq<string>, node: string, count: int)
    requires NoDuplicates(s)
    ensures Without(Take(s, count), node) <= Take(Without(Take(s, count + 1), node), count)
  {
    if 0 < count {
      var shorter, longer := Take(s, count), Take(s, count + 1);
      if count < |s| {
        assert longer[..count] == shorter && longer == shorter + [s[count]];
      } else {
        assert longer == shorter;
      }
      WithoutShortens(shorter, node);
    }
  }

  lemma {:induction false} WithoutShortens(s: seq<string>, node: string)
    ensures |Without(s, node)| <= |s|
  {
    if s != [] { WithoutShortens(s[..|s| - 1], node); }
  }

  /** Adding and then removing a newcomer restores the ring when, and only when, its positions were free. */
  lemma AddThenRemoveRestoresExactly(ring: Ring, node: string, positions: set<Hash>)
    ensures AfterRemove(AfterAdd(ring, node, positions), positions) == ring <==> positions !! ring.Keys
  {
    var back := AfterRemove(AfterAdd(ring, node, positions), positions);
    if positions !! ring.Keys {
      assert back.Keys == ring.Keys;
      assert back == ring;
    } else {
      var p :| p in positions && p in ring;
      assert p !in back;
    }
  }

  // ---- Whole runs of membership changes ---------------------------------------

  datatype Change = Join(node: string) | Leave(node: string)

  function Members(changes: seq<Change>): set<string> {
    if changes == [] then {}
    else
      var before := Members(changes[..|changes| - 1]);
      match changes[|changes| - 1]
      case Join(n) => before + {n}
      case Leave(n) => before - {n}
  }

  /** The history of a constructor call: each node joins in turn. */
  function Joins(nodes: seq<string>): seq<Change> {
    seq(|nodes|, i requires 0 <= i < |nodes| => Join(nodes[i]))
  }

  function RingAfter(changes: seq<Change>, hash: string -> Hash, count: nat): Ring {
    if changes == [] then map[]
    else
      var before := RingAfter(changes[..|changes| - 1], hash, count);
      match changes[|changes| - 1]
      case Join(n) => AfterAdd(before, n, Positions(hash, n, count))
      case Leave(n) => AfterRemove(before, Positions(hash, n, count))
  }

  /** No two different nodes among those named share a position. */
  ghost predicate CollisionFree(changes: seq<Change>, hash: string -> Hash, count: nat) {
    forall i, j :: 0 <= i < |changes| && 0 <= j < |changes| && changes[i].node != changes[j].node ==>
      Positions(hash, changes[i].node, count) !! Positions(hash, changes[j].node, count)
  }

  /** On every run, even with collisions, a node only ever holds its own positions. */
  lemma {:induction false} RunsHoldOnlyOwn(changes: seq<Change>, hash: string -> Hash, count: nat, node: string)
    ensures HoldsOnlyOwn(RingAfter(changes, hash, count), node, Positions(hash, node, count))
    ensures RingAfter(changes, hash, count).Values <= Members(changes)
  {
    if changes != [] {
      RunsHoldOnlyOwn(changes[..|changes| - 1], hash, count, node);
      var c := changes[|changes| - 1];
      var before, after := RingAfter(changes[..|changes| - 1], hash, count), RingAfter(changes, hash, count);
      forall v | v in after.Values ensures v in Members(changes) {
        var p :| p in after && after[p] == v;
        RunsHoldOnlyOwn(changes[..|changes| - 1], hash, count, c.node);
      }
    }
  }

  /**
   * Without collisions the ring depends only on who is a member, not on the order in which
   * nodes came, left and came back: a point is present exactly when its node is a member.
   */
  lemma {:induction false} RingIsTheMembership(changes: seq<Change>, hash: string -> Hash, count: nat,
                                               p: Hash, node: string)
    requires CollisionFree(changes, hash, count)
    ensures p in RingAfter(changes, hash, count) && RingAfter(changes, hash, count)[p] == node
       <==> node in Members(changes) && p in Positions(hash, node, count)
  {
    if changes != [] {
      var before, c := changes[..|changes| - 1], changes[|changes| - 1];
      RingIsTheMembership(before, hash, count, p, node);
      RingIsTheMembership(before, hash, count, p, c.node);
      if node != c.node && node in Members(before) {
        MembersAreNamed(before, node);
        var i :| 0 <= i < |before| && before[i].node == node;
        assert changes[i].node == node;
        assert Positions(hash, node, count) !! Positions(hash, c.node, count);
      }
    }
  }

  lemma {:induction false} MembersAreNamed(changes: seq<Change>, node: string)
    requires node in Members(changes)
    ensures exists i :: 0 <= i < |changes| && changes[i].node == node
  {
    var last := |changes| - 1;
    if changes[last].node != node {
      MembersAreNamed(changes[..last], node);
      var i :| 0 <= i < last && changes[..last][i].node == node;
      assert changes[i].node == node;
    }
  }

  /** The points a node holds. */
  function PointsOf(ring: Ring, node: string): set<Hash> {
    set p | p in ring && ring[p] == node
  }

  /** So every member holds the same number of points, one for each virtual node, and nobody else holds any. */
  lemma MembersHoldEqualShares(changes: seq<Change>, hash: string -> Hash, count: nat, node: string)
    requires CollisionFree(changes, hash, count) && Separates(hash, node, count)
    ensures |PointsOf(RingAfter(changes, hash, count), node)| == if node in Members(changes) then count else 0
  {
    var points := PointsOf(RingAfter(changes, hash, count), node);
    forall p: Hash ensures p in points <==> node in Members(changes) && p in Positions(hash, node, count) {
      RingIsTheMembership(changes, hash, count, p, node);
    }
    PositionsCountExactly(hash, node, count);
    if node in Members(changes) { assert points == Positions(hash, node, count); } else { assert points == {}; }
  }

  /** Two collision-free histories that end with the same members place every hash alike. */
  lemma PlacementDependsOnMembersOnly(a: seq<Change>, b: seq<Change>, hash: string -> Hash, count: nat)
    requires CollisionFree(a, hash, count) && CollisionFree(b, hash, count)
    requires Members(a) == Members(b)
    ensures RingAfter(a, hash, count) == RingAfter(b, hash, count)
  {
    var ra, rb := RingAfter(a, hash, count), RingAfter(b, hash, count);
    forall p ensures p in ra <==> p in rb
      ensures p in ra ==> ra[p] == rb[p]
    {
      if p in ra {
        RingIsTheMembership(a, hash, count, p, ra[p]);
        RingIsTheMembership(b, hash, count, p, ra[p]);
      }
      if p in rb {
        RingIsTheMembership(b, hash, count, p, rb[p]);
        RingIsTheMembership(a, hash, count, p, rb[p]);
      }
    }
  }

  /** If a further change causes no collision, nobody else sits on the positions of the node it is about. */
  lemma NobodyElseThere(changes: seq<Change>, next: Change, hash: string -> Hash, count: nat)
    requires CollisionFree(changes + [next], hash, count)
    ensures NoForeignPoint(RingAfter(changes, hash, count), next.node, Positions(hash, next.node, count))
  {
    var ring, all := RingAfter(changes, hash, count), changes + [next];
    assert CollisionFree(changes, hash, count) by {
      assert forall i :: 0 <= i < |changes| ==> changes[i] == all[i];
    }
    forall p | p in Positions(hash, next.node, count) && p in ring ensures ring[p] == next.node {
      var other := ring[p];
      RingIsTheMembership(changes, hash, count, p, other);
      MembersAreNamed(changes, other);
      var i :| 0 <= i < |changes| && changes[i].node == other;
      assert all[i].node == other && all[|changes|].node == next.node;
    }
  }

  /** Replica stability at the end of every collision-free run: the form a caller of the ring sees. */
  lemma StabilityOnEveryRun(changes: seq<Change>, node: string, hash: string -> Hash, virtualNodes: nat,
                            points: seq<Hash>, points': seq<Hash>, h: Hash, count: int)
    requires CollisionFree(changes + [Leave(node)], hash, virtualNodes)
    requires IsIndex(points, RingAfter(changes, hash, virtualNodes))
    requires IsIndex(points', RingAfter(changes + [Leave(node)], hash, virtualNodes))
    ensures Replicas(RingAfter(changes + [Leave(node)], hash, virtualNodes), points', h, count)
         == Take(Without(Replicas(RingAfter(changes, hash, virtualNodes), points, h, count + 1), node), count)
  {
    var ring, positions := RingAfter(changes, hash, virtualNodes), Positions(hash, node, virtualNodes);
    var all := changes + [Leave(node)];
    assert all[..|all| - 1] == changes && all[|all| - 1] == Leave(node);
    RunsHoldOnlyOwn(changes, hash, virtualNodes, node);
    NobodyElseThere(changes, Leave(node), hash, virtualNodes);
    ReplicaStability(ring, points, node, positions, points', h, count);
  }

  /** The same for joins: at the end of every collision-free run, a newcomer is only inserted among the replicas. */
  lemma JoiningOnEveryRun(changes: seq<Change>, node: string, hash: string -> Hash, virtualNodes: nat,
                          points: seq<Hash>, points': seq<Hash>, h: Hash, count: int)
    requires CollisionFree(changes + [Join(node)], hash, virtualNodes) && node !in Members(changes)
    requires IsIndex(points, RingAfter(changes, hash, virtualNodes))
    requires IsIndex(points', RingAfter(changes + [Join(node)], hash, virtualNodes))
    ensures Without(Replicas(RingAfter(changes + [Join(node)], hash, virtualNodes), points', h, count), node)
         <= Replicas(RingAfter(changes, hash, virtualNodes), points, h, count)
  {
    var ring, positions := RingAfter(changes, hash, virtualNodes), Positions(hash, node, virtualNodes);
    var all := changes + [Join(node)];
    assert all[..|all| - 1] == changes && all[|all| - 1] == Join(node);
    RunsHoldOnlyOwn(changes, hash, virtualNodes, node);
    NobodyElseThere(changes, Join(node), hash, virtualNodes);
    assert forall p :: p in positions && p in ring ==> ring[p] in ring.Values;
    JoiningOnlyInserts(ring, points, node, positions, points', h, count);
  }

  lemma RunOfThree(hash: string -> Hash, x: string, y: string, count: nat)
    ensures RingAfter([Join(x), Join(y), Leave(x)], hash, count)
         == AfterRemove(AfterAdd(AfterAdd(map[], x, Positions(hash, x, count)), y, Positions(hash, y, count)),
                        Positions(hash, x, count))
    ensures x != y ==> y in Members([Join(x), Join(y), Leave(x)])
  {
    var all := [Join(x), Join(y), Leave(x)];
    assert all[..2] == [Join(x), Join(y)] && all[..2][..1] == [Join(x)] && all[..2][..1][..0] == [];
    assert RingAfter(all[..2][..1], hash, count) == AfterAdd(map[], x, Positions(hash, x, count));
    assert y in Members(all[..2]);
  }

  /** After two nodes join and the first leaves again, the second has lost exactly the positions they share. */
  lemma CollisionTakesPoints(hash: string -> Hash, x: string, y: string, count: nat, p: Hash)
    requires x != y
    ensures
      var changes := [Join(x), Join(y), Leave(x)];
      var ring := RingAfter(changes, hash, count);
      && y in Members(changes)
      && (p in ring <==> p in Positions(hash, y, count) && p !in Positions(hash, x, count))
      && (p in ring ==> ring[p] == y)
  {
    RunOfThree(hash, x, y, count);
  }

  /** If their only positions collide, the ring is then empty although the second is still a member. */
  lemma CollisionErasesAMember(hash: string -> Hash, x: string, y: string)
    requires x != y && Position(hash, x, 0) == Position(hash, y, 0)
    ensures
      var changes := [Join(x), Join(y), Leave(x)];
      y in Members(changes) && RingAfter(changes, hash, 1) == map[]
  {
    RunOfThree(hash, x, y, 1);
    PositionsGrow(hash, x, 0);
    PositionsGrow(hash, y, 0);
    assert Positions(hash, x, 1) == Positions(hash, y, 1);
  }

  // ---- The ring object --------------------------------------------------------

  class ConsistentHashRing {
    const hash: string -> Hash
    const virtualNodes: nat
    var ring: Ring
    var sortedHashes: seq<Hash>

    ghost predicate Valid()
      reads this
    {
      IsIndex(sortedHashes, ring)
    }

    constructor (hash: string -> Hash, nodes: seq<string>, virtualNodes: nat)
      ensures Valid() && this.hash == hash && this.virtualNodes == virtualNodes
      ensures ring == RingAfter(Joins(nodes), hash, virtualNodes)
    {
      this.hash, this.virtualNodes := hash, virtualNodes;
      ring, sortedHashes := map[], [];
      new;
      assert nodes[..0] == [];
      for k := 0 to |nodes|
        invariant Valid() && ring == RingAfter(Joins(nodes[..k]), hash, virtualNodes)
      {
        assert Joins(nodes[..k + 1])[..k] == Joins(nodes[..k]);
        AddNode(nodes[k]);
      }
      assert nodes[..|nodes|] == nodes;
    }

    method AddNode(node: string)
      modifies this
      ensures Valid() && ring == AfterAdd(old(ring), node, Positions(hash, node, virtualNodes))
    {
      for i := 0 to virtualNodes
        invariant ring == AfterAdd(old(ring), node, Positions(hash, node, i))
      {
        PositionsGrow(hash, node, i);
        AddOnePoint(old(ring), node, Positions(hash, node, i), Position(hash, node, i));
        ring := ring[Position(hash, node, i) := node];
      }
      RebuildSorted();
    }

    method RemoveNode(node: string)
      modifies this
      ensures Valid() && ring == AfterRemove(old(ring), Positions(hash, node, virtualNodes))
    {
      for i := 0 to virtualNodes
        invariant ring == AfterRemove(old(ring), Positions(hash, node, i))
      {
        PositionsGrow(hash, node, i);
        ring := ring - {Position(hash, node, i)};
      }
      RebuildSorted();
    }

    method RebuildSorted()
      modifies this`sortedHashes
      ensures Valid()
    {
      sortedHashes := [];
      var rest := ring.Keys;
      while rest != {}
        invariant rest <= ring.Keys && Increasing(sortedHashes)
        invariant Lists(sortedHashes, ring.Keys - rest)
        decreases rest
      {
        var p :| p in rest;
        InsertMembers(sortedHashes, p);
        InsertIncreasing(sortedHashes, p);
        sortedHashes := Insert(sortedHashes, p);
        rest := rest - {p};
      }
    }

    lemma IndexEmptyIffRingEmpty()
      requires Valid()
      ensures |ring| == 0 <==> sortedHashes == []
      ensures forall i :: 0 <= i < |sortedHashes| ==> sortedHashes[i] in ring
    {
      assert forall i :: 0 <= i < |sortedHashes| ==> sortedHashes[i] in sortedHashes;
      assert sortedHashes != [] ==> sortedHashes[0] in ring;
      if |ring| != 0 {
        var p :| p in ring;
        assert p in sortedHashes;
      }
    }

    method GetNode(key: string) returns (r: Result<string, string>)
      requires Valid()
      ensures r == match Owner(ring, sortedHashes, hash(key))
                   case None => Err("ConsistentHashRing has no nodes")
                   case Some(node) => Ok(node)
    {
      IndexEmptyIffRingEmpty();
      if |ring| == 0 { return Err("ConsistentHashRing has no nodes"); }
      var h := hash(key);
      var lo, hi := 0, |sortedHashes| - 1;
      if h > sortedHashes[hi] {
        OwnerIsAtSearchResult(ring, sortedHashes, h, |sortedHashes|);
        return Ok(ring[sortedHashes[0]]);
      }
      while lo < hi
        invariant 0 <= lo <= hi < |sortedHashes|
        invariant forall i :: 0 <= i < lo ==> sortedHashes[i] < h
        invariant h <= sortedHashes[hi]
      {
        var mid := (lo + hi) / 2;
        if sortedHashes[mid] < h { lo := mid + 1; } else { hi := mid; }
      }
      OwnerIsAtSearchResult(ring, sortedHashes, h, lo);
      r := Ok(ring[sortedHashes[lo]]);
    }

    /** The index of the first sorted hash at or after `h`, or -1. */
    method FindIndex(h: Hash) returns (idx: int)
      ensures idx == if Rank(sortedHashes, h) == |sortedHashes| then -1 else Rank(sortedHashes, h)
    {
      for i := 0 to |sortedHashes|
        invariant forall j :: 0 <= j < i ==> sortedHashes[j] < h
      {
        if sortedHashes[i] >= h { return i; }
      }
      idx := -1;
    }

    method GetNodes(key: string, count: int) returns (result: seq<string>)
      requires Valid()
      ensures result == Replicas(ring, sortedHashes, hash(key), count)
    {
      result := [];
      IndexEmptyIffRingEmpty();
      if |ring| == 0 { return; }
      var h := hash(key);
      var idx := FindIndex(h);
      result := Walk(ring, sortedHashes, h, count, if idx == -1 then 0 else idx);
    }

    /** Clockwise from index `start`, wrapping, until enough nodes or all of them have been seen. */
    static method Walk(nodes: Ring, points: seq<Hash>, ghost h: Hash, count: int, start: int)
      returns (result: seq<string>)
      requires IsIndex(points, nodes) && points != []
      requires start == if Rank(points, h) == |points| then 0 else Rank(points, h)
      ensures result == Replicas(nodes, points, h, count)
    {
      result := [];
      var seen: set<string> := {};
      var i := start;
      ghost var k := 0;
      WalkStart(nodes, points, h, count, start);
      while |seen| < count && |seen| < |nodes.Values|
        invariant Walking(nodes, points, h, count, k, i, result, seen)
        decreases |points| - k
      {
        WalkStep(nodes, points, h, count, k, i, result, seen);
        var node := nodes[points[i]];
        if node !in seen {
          seen := seen + {node};
          result := result + [node];
        }
        i := (i + 1) % |points|;
        k := k + 1;
      }
      WalkIsDone(nodes, points, h, count, k, i, result, seen);
    }
  }

  // ---- The loop of GetNodes ---------------------------------------------------

  /** The walk has made `k` steps of the lap and next looks at index `i`. */
  ghost predicate Walking(ring: Ring, points: seq<Hash>, h: Hash, count: int,
                          k: nat, i: int, result: seq<string>, seen: set<string>) {
    && k <= |points|
    && i == LapIndex(points, h, k)
    && result == FirstOccurrences(Lap(ring, points, h)[..k])
    && Lists(result, seen) && |seen| == |result| <= Max(count, 0)
  }

  /** While a node is still unseen the lap is not over, so the walk can make another step. */
  lemma WalkStep(ring: Ring, points: seq<Hash>, h: Hash, count: int,
                 k: nat, i: int, result: seq<string>, seen: set<string>)
    requires IsIndex(points, ring) && Walking(ring, points, h, count, k, i, result, seen)
    requires |seen| < count && |seen| < |ring.Values|
    ensures k < |points| && 0 <= i < |points| && points[i] in ring
    ensures
      var node := ring[points[i]];
      if node in seen then Walking(ring, points, h, count, k + 1, (i + 1) % |points|, result, seen)
      else Walking(ring, points, h, count, k + 1, (i + 1) % |points|, result + [node], seen + {node})
  {
    if k == |points| { LapIsComplete(ring, points, h, seen); }
    LapEntry(ring, points, h, k);
    NextLapIndex(points, h, k);
    SeenStep(Lap(ring, points, h), k, result, seen);
  }

  lemma SeenStep(lap: seq<string>, k: nat, result: seq<string>, seen: set<string>)
    requires k < |lap| && result == FirstOccurrences(lap[..k]) && Lists(result, seen) && |seen| == |result|
    ensures lap[k] in seen ==> FirstOccurrences(lap[..k + 1]) == result
    ensures lap[k] !in seen ==>
      && FirstOccurrences(lap[..k + 1]) == result + [lap[k]]
      && Lists(result + [lap[k]], seen + {lap[k]}) && |seen + {lap[k]}| == |result + [lap[k]]|
  {
    FirstOccurrencesStep(lap, k);
  }

  /** The search position starts the walk. */
  lemma WalkStart(ring: Ring, points: seq<Hash>, h: Hash, count: int, i: int)
    requires points != [] && i == if Rank(points, h) == |points| then 0 else Rank(points, h)
    ensures Walking(ring, points, h, count, 0, i, [], {})
  {
    assert Lap(ring, points, h)[..0] == [];
  }

  lemma FirstOccurrencesStep(s: seq<string>, k: nat)
    requires k < |s|
    ensures FirstOccurrences(s[..k + 1]) ==
      var r := FirstOccurrences(s[..k]); if s[k] in r then r else r + [s[k]]
  {
    assert s[..k + 1][..k] == s[..k];
  }

  lemma NextLapIndex(points: seq<Hash>, h: Hash, k: nat)
    requires k < |points|
    ensures (LapIndex(points, h, k) + 1) % |points| == LapIndex(points, h, k + 1)
  {
    NextModulo(LapIndex(points, h, k), |points|);
  }

  /** One step round a cycle of length `n`. */
  lemma NextModulo(i: nat, n: nat)
    requires i < n
    ensures (i + 1) % n == if i + 1 == n then 0 else i + 1
  {
  }

  /** After a whole lap every node of the ring has been seen. */
  lemma LapIsComplete(ring: Ring, points: seq<Hash>, h: Hash, seen: set<string>)
    requires IsIndex(points, ring) && Lists(FirstOccurrences(Lap(ring, points, h)[..|points|]), seen)
    ensures seen == ring.Values
  {
    var lap := Lap(ring, points, h);
    assert lap[..|points|] == lap;
    LapNames(ring, points, h);
    FirstOccurrencesMembers(lap);
  }

  lemma WalkIsDone(ring: Ring, points: seq<Hash>, h: Hash, count: int,
                   k: nat, i: int, result: seq<string>, seen: set<string>)
    requires IsIndex(points, ring) && Walking(ring, points, h, count, k, i, result, seen)
    requires |seen| >= count || |seen| >= |ring.Values|
    ensures result == Replicas(ring, points, h, count)
  {
    var lap := Lap(ring, points, h);
    LapNames(ring, points, h);
    EnoughOccurrences(lap, k, count, ring.Values);
  }

  /** A prefix with as many different names as are wanted, or as there are, gives the first so many of them all. */
  lemma EnoughOccurrences(s: seq<string>, k: nat, count: int, names: set<string>)
    requires k <= |s| && Lists(s, names) && |FirstOccurrences(s[..k])| <= Max(count, 0)
    requires |FirstOccurrences(s[..k])| >= count || |FirstOccurrences(s[..k])| >= |names|
    ensures FirstOccurrences(s[..k]) == Take(FirstOccurrences(s), count)
  {
    FirstOccurrencesPrefix(s, k);
    FirstOccurrencesMembers(s);
    NoDuplicatesSize(FirstOccurrences(s), names);
  }
}
