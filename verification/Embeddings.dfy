// Two-stage vector search: a Hamming pass over sign bits, then an exact rescore of the
// candidates it yields.
module Embeddings {
  import opened Tables

  type Vector = seq<real>
  type Bytes = seq<bv8>

  const OVERSAMPLE_FACTOR: nat := 4
  const U32_MAX: nat := 0xFFFF_FFFF

  // ------------------------------------------------------------ sign bits

  /** Bit `k` of a byte, least significant first. */
  predicate Bit(b: bv8, k: nat)
    requires k < 8
  {
    if k == 0 then b & 1 != 0 else if k == 1 then b & 2 != 0
    else if k == 2 then b & 4 != 0 else if k == 3 then b & 8 != 0
    else if k == 4 then b & 16 != 0 else if k == 5 then b & 32 != 0
    else if k == 6 then b & 64 != 0 else b & 128 != 0
  }

  predicate BitAt(bytes: Bytes, i: nat)
    requires i < 8 * |bytes|
  {
    Bit(bytes[i / 8], i % 8)
  }

  function DivCeil8(n: nat): (r: nat)
    ensures 8 * r >= n && 8 * r < n + 8
  {
    (n + 7) / 8
  }

  function SetBit(b: bv8, k: nat): (r: bv8)
    requires k < 8
    ensures forall j :: 0 <= j < 8 ==> (Bit(r, j) <==> j == k || Bit(b, j))
  {
    b | (1 as bv8 << k)
  }

  /** One bit per dimension, its sign, 0 counting as non-negative. */
  ghost predicate IsQuantized(v: Vector, bytes: Bytes) {
    && |bytes| == DivCeil8(|v|)
    && forall i :: 0 <= i < 8 * |bytes| ==> (BitAt(bytes, i) <==> i < |v| && v[i] >= 0.0)
  }

  method QuantizeBits(v: Vector) returns (bytes: Bytes)
    ensures IsQuantized(v, bytes)
  {
    bytes := seq(DivCeil8(|v|), _ => 0 as bv8);
    for i := 0 to |v|
      invariant |bytes| == DivCeil8(|v|)
      invariant forall j :: 0 <= j < 8 * |bytes| ==> (BitAt(bytes, j) <==> j < i && v[j] >= 0.0)
    {
      if v[i] >= 0.0 {
        ghost var was := bytes;
        bytes := bytes[i / 8 := SetBit(bytes[i / 8], i % 8)];
        forall j | 0 <= j < 8 * |bytes| ensures BitAt(bytes, j) <==> j < i + 1 && v[j] >= 0.0 {
          assert j == 8 * (j / 8) + j % 8 && i == 8 * (i / 8) + i % 8;
          assert BitAt(bytes, j) <==> j == i || BitAt(was, j);
        }
      }
    }
  }

  // ------------------------------------------------------ Hamming distance

  function One(b: bool): nat {
    if b then 1 else 0
  }

  /** Bits set among the `k` least significant. */
  function BitsSet(b: bv8, k: nat): nat
    requires k <= 8
  {
    if k == 0 then 0 else BitsSet(b, k - 1) + One(Bit(b, k - 1))
  }

  function PopCount(b: bv8): nat {
    BitsSet(b, 8)
  }

  function Hamming(a: Bytes, b: Bytes): nat
    requires |a| == |b|
  {
    if a == [] then 0
    else Hamming(a[..|a| - 1], b[..|b| - 1]) + PopCount(a[|a| - 1] ^ b[|b| - 1])
  }

  predicate SignsDiffer(x: real, y: real) {
    (x >= 0.0) != (y >= 0.0)
  }

  /** Dimensions, among the first `n`, whose signs differ. */
  function SignDifferences(u: Vector, v: Vector, n: nat): nat
    requires n <= |u| == |v|
  {
    if n == 0 then 0 else SignDifferences(u, v, n - 1) + One(SignsDiffer(u[n - 1], v[n - 1]))
  }

  function BitDifferences(a: Bytes, b: Bytes, n: nat): nat
    requires |a| == |b| && n <= 8 * |a|
  {
    if n == 0 then 0 else BitDifferences(a, b, n - 1) + One(BitAt(a, n - 1) != BitAt(b, n - 1))
  }

  lemma XorMask(a: bv8, b: bv8)
    ensures (a ^ b) & 1 != 0 <==> (a & 1 != 0) != (b & 1 != 0)
    ensures (a ^ b) & 2 != 0 <==> (a & 2 != 0) != (b & 2 != 0)
    ensures (a ^ b) & 4 != 0 <==> (a & 4 != 0) != (b & 4 != 0)
    ensures (a ^ b) & 8 != 0 <==> (a & 8 != 0) != (b & 8 != 0)
    ensures (a ^ b) & 16 != 0 <==> (a & 16 != 0) != (b & 16 != 0)
    ensures (a ^ b) & 32 != 0 <==> (a & 32 != 0) != (b & 32 != 0)
    ensures (a ^ b) & 64 != 0 <==> (a & 64 != 0) != (b & 64 != 0)
    ensures (a ^ b) & 128 != 0 <==> (a & 128 != 0) != (b & 128 != 0)
  {
  }

  lemma XorBit(a: bv8, b: bv8, k: nat)
    requires k < 8
    ensures Bit(a ^ b, k) <==> Bit(a, k) != Bit(b, k)
  {
    XorMask(a, b);
    if k == 0 {
    } else if k == 1 {
    } else if k == 2 {
    } else if k == 3 {
    } else if k == 4 {
    } else if k == 5 {
    } else if k == 6 {
    } else {
    }
  }

  lemma {:induction false} BitDifferencesPrefix(a: Bytes, b: Bytes, m: nat, n: nat)
    requires |a| == |b| && m <= |a| && n <= 8 * m
    ensures BitDifferences(a[..m], b[..m], n) == BitDifferences(a, b, n)
  {
    if n > 0 {
      BitDifferencesPrefix(a, b, m, n - 1);
    }
  }

  lemma {:induction false} HammingCountsBits(a: Bytes, b: Bytes)
    requires |a| == |b|
    ensures Hamming(a, b) == BitDifferences(a, b, 8 * |a|)
  {
    if a != [] {
      var m := |a| - 1;
      HammingCountsBits(a[..m], b[..m]);
      BitDifferencesPrefix(a, b, m, 8 * m);
      forall j | 0 <= j < 8 ensures Bit(a[m] ^ b[m], j) <==> Bit(a[m], j) != Bit(b[m], j) {
        XorBit(a[m], b[m], j);
      }
      LastByte(a, b, m, 8, 8 * m + 8, a[m] ^ b[m]);
    }
  }

  lemma {:induction false} LastByte(a: Bytes, b: Bytes, m: nat, k: nat, n: nat, x: bv8)
    requires |a| == |b| && m < |a| && k <= 8 && n == 8 * m + k
    requires forall j :: 0 <= j < 8 ==> (Bit(x, j) <==> Bit(a[m], j) != Bit(b[m], j))
    ensures BitDifferences(a, b, n) == BitDifferences(a, b, 8 * m) + BitsSet(x, k)
    decreases k
  {
    if k > 0 {
      LastByte(a, b, m, k - 1, n - 1, x);
      OneMoreBit(a, b, m, k - 1, n - 1);
    }
  }

  lemma OneMoreBit(a: Bytes, b: Bytes, m: nat, k: nat, n: nat)
    requires |a| == |b| && m < |a| && k < 8 && n == 8 * m + k
    ensures BitDifferences(a, b, n + 1) == BitDifferences(a, b, n) + One(Bit(a[m], k) != Bit(b[m], k))
  {
    BitOfByte(a, m, k, n);
    BitOfByte(b, m, k, n);
  }

  lemma BitOfByte(bytes: Bytes, m: nat, k: nat, n: nat)
    requires m < |bytes| && k < 8 && n == 8 * m + k
    ensures BitAt(bytes, n) == Bit(bytes[m], k)
  {
    assert n / 8 == m && n % 8 == k;
  }

  lemma BitOfSign(v: Vector, bytes: Bytes, n: nat)
    requires IsQuantized(v, bytes) && n < 8 * |bytes|
    ensures BitAt(bytes, n) <==> n < |v| && v[n] >= 0.0
  {
  }

  // ------------------------------------------------------ differing widths

  function Least(m: nat, n: nat): nat {
    if m <= n then m else n
  }

  /** Dimensions from `m` to `n` that are not negative. */
  function NonNegative(v: Vector, m: nat, n: nat): nat
    requires m <= n <= |v|
  {
    if m == n then 0 else NonNegative(v, m, n - 1) + One(v[n - 1] >= 0.0)
  }

  lemma {:induction false} BitsOfUnequal(u: Vector, v: Vector, a: Bytes, b: Bytes, n: nat)
    requires |u| <= |v| && |a| == |b| && IsQuantized(u, a) && IsQuantized(v, b) && n <= 8 * |a|
    ensures BitDifferences(a, b, n) == UnequalBits(u, v, n)
  {
    if n > 0 {
      BitsOfUnequal(u, v, a, b, n - 1);
      UnequalStep(u, v, n);
      BitOfSign(u, a, n - 1);
      BitOfSign(v, b, n - 1);
    }
  }

  /** Sign differences within the common dimensions, non-negative ones beyond. */
  function UnequalBits(u: Vector, v: Vector, n: nat): nat
    requires |u| <= |v|
  {
    SignDifferences(u, v[..|u|], Least(n, |u|)) + (if n <= |u| then 0 else NonNegative(v, |u|, Least(n, |v|)))
  }

  lemma UnequalStep(u: Vector, v: Vector, n: nat)
    requires |u| <= |v| && n > 0
    ensures UnequalBits(u, v, n) == UnequalBits(u, v, n - 1)
              + One((n - 1 < |u| && u[n - 1] >= 0.0) != (n - 1 < |v| && v[n - 1] >= 0.0))
  {
    if n <= |u| {
      assert v[..|u|][n - 1] == v[n - 1];
      assert Least(n, |u|) == n && Least(n - 1, |u|) == n - 1;
    } else if n <= |v| {
      assert NonNegative(v, |u|, n) == NonNegative(v, |u|, n - 1) + One(v[n - 1] >= 0.0);
      assert n - 1 == |u| ==> NonNegative(v, |u|, n - 1) == 0;
    } else {
      assert Least(n - 1, |v|) == |v| == Least(n, |v|);
      assert n - 1 == |u| ==> NonNegative(v, |u|, |v|) == 0;
    }
  }

  /** Two widths that fill the same number of bytes are told apart by nothing: the distance
      is that of the common dimensions plus the longer vector's further ones that are not
      negative, so a longer query is ranked as its own prefix is. */
  lemma HammingOfUnequal(u: Vector, v: Vector, a: Bytes, b: Bytes)
    requires |u| <= |v| && |a| == |b| && IsQuantized(u, a) && IsQuantized(v, b)
    ensures Hamming(a, b) == SignDifferences(u, v[..|u|], |u|) + NonNegative(v, |u|, |v|)
  {
    HammingCountsBits(a, b);
    BitsOfUnequal(u, v, a, b, 8 * |a|);
    assert Least(8 * |a|, |u|) == |u| && Least(8 * |a|, |v|) == |v|;
    if 8 * |a| == |u| {
      assert |v| == |u|;
      assert NonNegative(v, |u|, |v|) == 0;
    }
  }

  /** The Hamming distance of two quantized vectors is the number of dimensions whose signs
      differ: the padding of the last byte never counts, whatever the width. */
  lemma HammingCountsSigns(u: Vector, v: Vector, a: Bytes, b: Bytes)
    requires |u| == |v| && IsQuantized(u, a) && IsQuantized(v, b)
    ensures Hamming(a, b) == SignDifferences(u, v, |u|)
  {
    HammingOfUnequal(u, v, a, b);
    assert v[..|u|] == v;
  }

  // ---------------------------------------------------------------- search

  datatype Hit = Hit(id: FileId, distance: real)

  /** Euclidean distance, squared: it orders as its root does. */
  function SquaredDistance(u: Vector, v: Vector): real {
    if u == [] || v == [] then 0.0
    else Square(u[0] - v[0]) + SquaredDistance(u[1..], v[1..])
  }

  function Square(x: real): real {
    x * x
  }

  /** The sum stops with the shorter vector: dimensions beyond it do not count. */
  lemma {:induction false} DistanceOfCommon(u: Vector, v: Vector)
    ensures SquaredDistance(u, v) == SquaredDistance(u[..Least(|u|, |v|)], v[..Least(|u|, |v|)])
  {
    if u != [] && v != [] {
      var n := Least(|u|, |v|);
      DistanceOfCommon(u[1..], v[1..]);
      assert u[..n][1..] == u[1..][..n - 1] && v[..n][1..] == v[1..][..n - 1];
    }
  }

  /** Equal vectors, and of one width only they, are at distance zero. */
  lemma {:induction false} DistanceZeroIff(u: Vector, v: Vector)
    requires |u| == |v|
    ensures if u == v then SquaredDistance(u, v) == 0.0 else SquaredDistance(u, v) > 0.0
  {
    if u != [] {
      DistanceZeroIff(u[1..], v[1..]);
      SquareFacts(u[0] - v[0]);
      assert u == [u[0]] + u[1..] && v == [v[0]] + v[1..];
    }
  }

  lemma SquareFacts(x: real)
    ensures if x == 0.0 then Square(x) == 0.0 else Square(x) > 0.0
  {
    if x > 0.0 {
      PositiveProduct(x, x, Square(x));
    } else if x < 0.0 {
      assert x * x == (-x) * (-x);
      PositiveProduct(-x, -x, Square(x));
    }
  }

  lemma PositiveProduct(x: real, y: real, p: real)
    requires x > 0.0 && y > 0.0 && p == x * y
    ensures p > 0.0
  {
  }

  /** Each dimension adds the square of its own difference. */
  lemma {:induction false} DistanceByDimension(u: Vector, v: Vector, i: nat, x: real)
    requires i < |u| == |v|
    ensures SquaredDistance(u[i := x], v)
         == SquaredDistance(u, v) - (u[i] - v[i]) * (u[i] - v[i]) + (x - v[i]) * (x - v[i])
  {
    if i == 0 {
      assert u[i := x][1..] == u[1..];
    } else {
      DistanceByDimension(u[1..], v[1..], i - 1, x);
      assert u[i := x][1..] == u[1..][i - 1 := x];
    }
  }

  function CandidateLimit(limit: nat): nat {
    if OVERSAMPLE_FACTOR * limit > U32_MAX then U32_MAX else OVERSAMPLE_FACTOR * limit
  }

  /** A right answer of the bit-table query: the `n` rows of least Hamming distance, nearest
      first, ties in any order. */
  ghost predicate IsNearestBits(bits: map<FileId, Bytes>, query: Bytes, n: nat, ids: seq<FileId>)
    requires forall id :: id in bits ==> |bits[id]| == |query|
  {
    && (forall i, j :: 0 <= i < j < |ids| ==> ids[i] != ids[j])
    && (forall i :: 0 <= i < |ids| ==> ids[i] in bits)
    && |ids| == (if n <= |bits| then n else |bits|)
    && (forall i, j :: 0 <= i < j < |ids| ==> Hamming(bits[ids[i]], query) <= Hamming(bits[ids[j]], query))
    && (forall id, i :: id in bits && id !in ids && 0 <= i < |ids| ==>
          Hamming(bits[ids[i]], query) <= Hamming(bits[id], query))
  }

  /** `sort_by`: stable, by distance. */
  function InsertHit(h: Hit, sorted: seq<Hit>): seq<Hit> {
    if sorted == [] || h.distance < sorted[0].distance then [h] + sorted
    else [sorted[0]] + InsertHit(h, sorted[1..])
  }

  function SortHits(hits: seq<Hit>): seq<Hit> {
    if hits == [] then [] else InsertHit(hits[|hits| - 1], SortHits(hits[..|hits| - 1]))
  }

  predicate Ascending(hits: seq<Hit>) {
    forall i, j :: 0 <= i < j < |hits| ==> hits[i].distance <= hits[j].distance
  }

  lemma {:induction false} InsertHitPermutes(h: Hit, sorted: seq<Hit>)
    ensures multiset(InsertHit(h, sorted)) == multiset{h} + multiset(sorted)
  {
    if sorted != [] && h.distance >= sorted[0].distance {
      InsertHitPermutes(h, sorted[1..]);
      assert sorted == [sorted[0]] + sorted[1..];
    }
  }

  lemma {:induction false} InsertHitAscends(h: Hit, sorted: seq<Hit>)
    requires Ascending(sorted)
    ensures Ascending(InsertHit(h, sorted))
    ensures forall i :: 0 <= i < |InsertHit(h, sorted)| ==> InsertHit(h, sorted)[i] == h || InsertHit(h, sorted)[i] in sorted
  {
    if sorted != [] && h.distance >= sorted[0].distance {
      InsertHitAscends(h, sorted[1..]);
      var rest := InsertHit(h, sorted[1..]);
      forall i | 0 <= i < |rest| ensures sorted[0].distance <= rest[i].distance && (rest[i] == h || rest[i] in sorted) {
      }
    }
  }

  lemma {:induction false} SortHitsFacts(hits: seq<Hit>)
    ensures Ascending(SortHits(hits)) && multiset(SortHits(hits)) == multiset(hits)
  {
    if hits != [] {
      var init, last := hits[..|hits| - 1], hits[|hits| - 1];
      SortHitsFacts(init);
      InsertHitPermutes(last, SortHits(init));
      InsertHitAscends(last, SortHits(init));
      assert hits == init + [last];
    }
  }

  /** The candidates with their true distances. */
  ghost predicate IsRescored(floats: map<FileId, Vector>, query: Vector, candidates: seq<FileId>, hits: seq<Hit>) {
    && |hits| == |candidates|
    && forall i :: 0 <= i < |hits| ==>
         hits[i].id == candidates[i] && candidates[i] in floats
         && hits[i].distance == SquaredDistance(floats[candidates[i]], query)
  }

  /** What a search of `k` promises, with `n` candidates rescored: the hits are stored files
      with their true distances, nearest first, as many as asked for if there are that many;
      and a stored file nearer than a hit is missing only when `n` others have sign bits no
      farther from the query's than its own. */
  ghost predicate Recalls(floats: map<FileId, Vector>, bits: map<FileId, Bytes>, query: Vector, sign: Bytes, k: nat, n: nat,
                          hits: seq<Hit>)
    requires floats.Keys == bits.Keys && forall id :: id in bits ==> |bits[id]| == |sign|
  {
    && Ascending(hits)
    && |hits| == (if k <= |floats| then k else |floats|)
    && (forall i :: 0 <= i < |hits| ==>
          hits[i].id in floats && hits[i].distance == SquaredDistance(floats[hits[i].id], query))
    && (forall i, j :: 0 <= i < j < |hits| ==> hits[i].id != hits[j].id)
    && (forall id, i :: id in floats && 0 <= i < |hits| && SquaredDistance(floats[id], query) < hits[i].distance ==>
          Returned(hits, id) || CrowdedOut(bits, sign, n, id))
  }

  predicate Returned(hits: seq<Hit>, id: FileId) {
    exists i :: 0 <= i < |hits| && hits[i].id == id
  }

  ghost predicate CrowdedOut(bits: map<FileId, Bytes>, sign: Bytes, n: nat, id: FileId)
    requires id in bits && forall other :: other in bits ==> |bits[other]| == |sign|
  {
    exists crowd: set<FileId> :: |crowd| == n && id !in crowd && crowd <= bits.Keys
      && forall other :: other in crowd ==> Hamming(bits[other], sign) <= Hamming(bits[id], sign)
  }

  lemma {:induction false} KeysBound<K, V>(m: map<K, V>, ids: seq<K>)
    requires forall i, j :: 0 <= i < j < |ids| ==> ids[i] != ids[j]
    requires forall i :: 0 <= i < |ids| ==> ids[i] in m
    ensures |ids| <= |m|
    ensures |ids| == |m| ==> forall k :: k in m ==> k in ids
    decreases |ids|
  {
    if ids != [] {
      var last := ids[|ids| - 1];
      var init := ids[..|ids| - 1];
      KeysBound(m - {last}, init);
      assert |m - {last}| == |m| - 1;
      if |ids| == |m| {
        forall k | k in m ensures k in ids {
          if k != last {
            assert k in m - {last};
            assert k in init;
          }
        }
      }
    } else if |m| == 0 {
      assert m == map[];
    }
  }

  function IdSet(ids: seq<FileId>): set<FileId> {
    set id | id in ids
  }

  lemma {:induction false} IdSetSize(ids: seq<FileId>)
    requires forall i, j :: 0 <= i < j < |ids| ==> ids[i] != ids[j]
    ensures |IdSet(ids)| == |ids|
  {
    if ids == [] {
      assert IdSet(ids) == {};
    } else {
      var init, last := ids[..|ids| - 1], ids[|ids| - 1];
      IdSetSize(init);
      assert IdSet(ids) == IdSet(init) + {last};
      assert last !in init;
    }
  }

  /** A stored file that is no candidate was crowded out by all of them. */
  lemma NoCandidate(bits: map<FileId, Bytes>, sign: Bytes, n: nat, candidates: seq<FileId>, id: FileId)
    requires forall other :: other in bits ==> |bits[other]| == |sign|
    requires IsNearestBits(bits, sign, n, candidates) && id in bits && id !in candidates
    ensures CrowdedOut(bits, sign, n, id)
  {
    IdSetSize(candidates);
    KeysBound(bits, candidates);
    var crowd := IdSet(candidates);
    forall other | other in crowd ensures Hamming(bits[other], sign) <= Hamming(bits[id], sign) {
      var i :| 0 <= i < |candidates| && candidates[i] == other;
    }
  }

  /** Sorting keeps the hits: each sorted hit is a rescored one and the other way round. */
  lemma SortedHits(hits: seq<Hit>)
    ensures |SortHits(hits)| == |hits|
    ensures forall h :: h in SortHits(hits) <==> h in hits
  {
    SortHitsFacts(hits);
    assert |multiset(SortHits(hits))| == |multiset(hits)|;
    forall h ensures h in SortHits(hits) <==> h in hits {
      assert h in multiset(SortHits(hits)) <==> h in multiset(hits);
    }
  }

  predicate DistinctIds(hits: seq<Hit>) {
    forall i, j :: 0 <= i < j < |hits| ==> hits[i].id != hits[j].id
  }

  lemma {:induction false} InsertHitDistinct(h: Hit, sorted: seq<Hit>)
    requires DistinctIds(sorted) && forall i :: 0 <= i < |sorted| ==> sorted[i].id != h.id
    ensures DistinctIds(InsertHit(h, sorted))
    ensures forall i :: 0 <= i < |InsertHit(h, sorted)| ==> InsertHit(h, sorted)[i] == h || InsertHit(h, sorted)[i] in sorted
  {
    if sorted != [] && h.distance >= sorted[0].distance {
      InsertHitDistinct(h, sorted[1..]);
      var rest := InsertHit(h, sorted[1..]);
      forall i | 0 <= i < |rest| ensures rest[i].id != sorted[0].id && (rest[i] == h || rest[i] in sorted) {
      }
    }
  }

  lemma {:induction false} SortHitsDistinct(hits: seq<Hit>)
    requires DistinctIds(hits)
    ensures DistinctIds(SortHits(hits))
  {
    if hits != [] {
      var init, last := hits[..|hits| - 1], hits[|hits| - 1];
      SortHitsDistinct(init);
      SortedHits(init);
      forall i | 0 <= i < |SortHits(init)| ensures SortHits(init)[i].id != last.id {
        assert SortHits(init)[i] in init;
      }
      InsertHitDistinct(last, SortHits(init));
    }
  }

  function Truncate(hits: seq<Hit>, k: nat): seq<Hit> {
    if |hits| <= k then hits else hits[..k]
  }

  lemma SearchRecalls(floats: map<FileId, Vector>, bits: map<FileId, Bytes>, query: Vector, sign: Bytes, k: nat, n: nat,
                      candidates: seq<FileId>, rescored: seq<Hit>)
    requires floats.Keys == bits.Keys && forall id :: id in bits ==> |bits[id]| == |sign|
    requires k <= n && IsNearestBits(bits, sign, n, candidates) && IsRescored(floats, query, candidates, rescored)
    ensures Recalls(floats, bits, query, sign, k, n, Truncate(SortHits(rescored), k))
  {
    var sorted := SortHits(rescored);
    var hits := Truncate(sorted, k);
    SortHitsFacts(rescored);
    SortedHits(rescored);
    SortHitsDistinct(rescored);
    assert |floats| == |floats.Keys| && |bits| == |bits.Keys|;
    TrueDistances(floats, query, candidates, rescored);
    assert forall i :: 0 <= i < |hits| ==> hits[i] == sorted[i];
    forall id, i | id in floats && 0 <= i < |hits| && SquaredDistance(floats[id], query) < hits[i].distance
      ensures Returned(hits, id) || CrowdedOut(bits, sign, n, id)
    {
      MissingIsCrowded(floats, bits, query, sign, k, n, candidates, rescored, id, i);
    }
  }

  lemma TrueDistances(floats: map<FileId, Vector>, query: Vector, candidates: seq<FileId>, rescored: seq<Hit>)
    requires IsRescored(floats, query, candidates, rescored)
    ensures var sorted := SortHits(rescored);
            forall i :: 0 <= i < |sorted| ==>
              sorted[i].id in floats && sorted[i].distance == SquaredDistance(floats[sorted[i].id], query)
  {
    SortedHits(rescored);
    var sorted := SortHits(rescored);
    forall i | 0 <= i < |sorted| ensures sorted[i] in rescored {
    }
  }

  lemma MissingIsCrowded(floats: map<FileId, Vector>, bits: map<FileId, Bytes>, query: Vector, sign: Bytes, k: nat, n: nat,
                         candidates: seq<FileId>, rescored: seq<Hit>, id: FileId, i: nat)
    requires floats.Keys == bits.Keys && forall id :: id in bits ==> |bits[id]| == |sign|
    requires IsNearestBits(bits, sign, n, candidates) && IsRescored(floats, query, candidates, rescored)
    requires id in floats && i < |Truncate(SortHits(rescored), k)|
    requires SquaredDistance(floats[id], query) < Truncate(SortHits(rescored), k)[i].distance
    ensures Returned(Truncate(SortHits(rescored), k), id) || CrowdedOut(bits, sign, n, id)
  {
    if id in candidates {
      NearerIsReturned(floats, query, candidates, rescored, k, id, i);
    } else {
      NoCandidate(bits, sign, n, candidates, id);
    }
  }

  lemma NearerIsReturned(floats: map<FileId, Vector>, query: Vector, candidates: seq<FileId>, rescored: seq<Hit>, k: nat,
                         id: FileId, i: nat)
    requires IsRescored(floats, query, candidates, rescored) && id in candidates && id in floats
    requires i < |Truncate(SortHits(rescored), k)|
    requires SquaredDistance(floats[id], query) < Truncate(SortHits(rescored), k)[i].distance
    ensures Returned(Truncate(SortHits(rescored), k), id)
  {
    var sorted := SortHits(rescored);
    SortHitsFacts(rescored);
    SortedHits(rescored);
    var c :| 0 <= c < |candidates| && candidates[c] == id;
    assert rescored[c] in sorted;
    var j :| 0 <= j < |sorted| && sorted[j] == rescored[c];
    assert j < i;
    assert Truncate(sorted, k)[j].id == id;
  }

  /** With no more files than candidates, the answer is the exact k nearest. */
  lemma FewFilesExact(floats: map<FileId, Vector>, bits: map<FileId, Bytes>, query: Vector, sign: Bytes, k: nat, n: nat,
                      hits: seq<Hit>)
    requires floats.Keys == bits.Keys && forall id :: id in bits ==> |bits[id]| == |sign|
    requires Recalls(floats, bits, query, sign, k, n, hits) && |floats| <= n
    ensures forall id, i :: id in floats && !Returned(hits, id) && 0 <= i < |hits| ==>
              hits[i].distance <= SquaredDistance(floats[id], query)
  {
    forall id, i | id in floats && !Returned(hits, id) && 0 <= i < |hits|
      ensures hits[i].distance <= SquaredDistance(floats[id], query)
    {
      if SquaredDistance(floats[id], query) < hits[i].distance {
        var crowd: set<FileId> :| |crowd| == n && id !in crowd && crowd <= bits.Keys;
        assert |floats| == |floats.Keys|;
        assert |crowd + {id}| == n + 1;
        SubsetSize(crowd + {id}, floats.Keys);
        assert false;
      }
    }
  }

  lemma {:induction false} SubsetSize(a: set<FileId>, b: set<FileId>)
    requires a <= b
    ensures |a| <= |b|
    decreases a
  {
    if a != {} {
      var x :| x in a;
      SubsetSize(a - {x}, b - {x});
    }
  }

  /** Every table width has a query width that is not its own and yet fills as many bytes. */
  lemma WrongWidthFits(dimensions: nat)
    requires dimensions > 0
    ensures exists width: nat :: width != dimensions && DivCeil8(width) == DivCeil8(dimensions)
  {
    var width := if dimensions % 8 == 0 then dimensions - 1 else dimensions + 1;
    assert DivCeil8(width) == DivCeil8(dimensions);
  }

  // ------------------------------------------------------------- the tables

  datatype Config = Config(model: string, dimensions: nat)
  {
    /** The declared width of the bit table. */
    function BitDimensions(): nat {
      DivCeil8(dimensions) * 8
    }
  }

  datatype SearchResult = Hits(hits: seq<Hit>) | Rejected

  class EmbeddingStore {
    var config: Option<Config>
    var floats: map<FileId, Vector>
    var bits: map<FileId, Bytes>
    var queue: map<FileId, int>

    /** The float and bit tables hold the same rows, each the signs of the other's. */
    ghost predicate Valid()
      reads this
    {
      && (config.None? ==> floats == map[])
      && floats.Keys == bits.Keys
      && forall id :: id in floats ==> |floats[id]| == config.value.dimensions && IsQuantized(floats[id], bits[id])
    }

    constructor ()
      ensures Valid() && config == None && floats == map[] && queue == map[]
    {
      config, floats, bits, queue := None, map[], map[], map[];
    }

    /** Created once; any other model or width is refused. */
    method EnsureTable(model: string, dimensions: nat) returns (ok: bool)
      requires Valid()
      modifies this`config
      ensures Valid()
      ensures ok <==> old(config) == None || old(config) == Some(Config(model, dimensions))
      ensures config == if old(config).None? then Some(Config(model, dimensions)) else old(config)
    {
      if config.Some? {
        return config.value.model == model && config.value.dimensions == dimensions;
      }
      config := Some(Config(model, dimensions));
      return true;
    }

    method Enqueue(id: FileId, at: int)
      requires Valid()
      modifies this`queue
      ensures Valid() && queue == old(queue)[id := at]
    {
      queue := queue[id := at];
    }

    /** Both rows and the dequeue in one transaction; a vector of the wrong width is refused
        by the table and changes nothing. */
    method StoreVector(id: FileId, vector: Vector) returns (ok: bool)
      requires Valid()
      modifies this`floats, this`bits, this`queue
      ensures Valid()
      ensures ok <==> config.Some? && |vector| == config.value.dimensions
      ensures ok ==> floats == old(floats)[id := vector] && queue == old(queue) - {id}
      ensures !ok ==> floats == old(floats) && bits == old(bits) && queue == old(queue)
    {
      ok := config.Some? && |vector| == config.value.dimensions;
      if ok {
        var signs := QuantizeBits(vector);
        floats := floats[id := vector];
        bits := bits[id := signs];
        queue := queue - {id};
      }
    }

    /** Whether the bit table takes a query: its own width is a whole number of bytes, and
        that is all it compares. */
    predicate Takes(query: Vector)
      reads this`config
    {
      config.Some? && 8 * DivCeil8(|query|) == config.value.BitDimensions()
    }

    /** `candidates` is the bit table's answer to the query it is sent. A query whose sign
        bits do not fill the table's bytes is refused by the table; any other is answered,
        of the table's width or not. */
    method Search(query: Vector, limit: nat, candidates: seq<FileId>) returns (result: SearchResult)
      requires Valid() && limit <= 0xFFFF_FFFF
      requires Takes(query) ==>
                 forall sign :: IsQuantized(query, sign) ==> IsNearestBits(bits, sign, CandidateLimit(limit), candidates)
      ensures result.Hits? <==> config.Some? && DivCeil8(|query|) == DivCeil8(config.value.dimensions)
      ensures result.Hits? ==> forall sign :: IsQuantized(query, sign) ==>
                Recalls(floats, bits, query, sign, limit, if 4 * limit <= 0xFFFF_FFFF then 4 * limit else 0xFFFF_FFFF, result.hits)
      ensures result.Hits? && |floats| <= 4 * limit && |floats| <= 0xFFFF_FFFF ==>
                forall id, i :: id in floats && !Returned(result.hits, id) && 0 <= i < |result.hits| ==>
                  result.hits[i].distance <= SquaredDistance(floats[id], query)
    {
      var sign := QuantizeBits(query);
      if config.None? || 8 * |sign| != config.value.BitDimensions() {
        return Rejected;
      }
      var rescored: seq<Hit> := [];
      for i := 0 to |candidates|
        invariant IsRescored(floats, query, candidates[..i], rescored)
      {
        assert IsNearestBits(bits, sign, CandidateLimit(limit), candidates);
        assert candidates[i] in floats;
        rescored := rescored + [Hit(candidates[i], SquaredDistance(floats[candidates[i]], query))];
      }
      assert candidates[..|candidates|] == candidates;
      result := Hits(Truncate(SortHits(rescored), limit));
      forall sign | IsQuantized(query, sign)
        ensures Recalls(floats, bits, query, sign, limit, CandidateLimit(limit), result.hits)
      {
        SearchRecalls(floats, bits, query, sign, limit, CandidateLimit(limit), candidates, rescored);
      }
      if |floats| <= 4 * limit && |floats| <= 0xFFFF_FFFF {
        FewFilesExact(floats, bits, query, sign, limit, CandidateLimit(limit), result.hits);
      }
    }
  }

  /** A table of 10 dimensions answers a query of 12, and the distance it reports leaves the
      last two out. */
  method LongQueryAnswered(id: FileId, vector: Vector, query: Vector) returns (result: SearchResult)
    requires |vector| == 10 && |query| == 12
    ensures result == Hits([Hit(id, SquaredDistance(vector, query[..10]))])
  {
    var store := new EmbeddingStore();
    var created := store.EnsureTable("m", 10);
    var stored := store.StoreVector(id, vector);
    assert store.floats == map[id := vector];
    assert store.floats.Keys == store.bits.Keys == {id};
    forall sign | IsQuantized(query, sign) ensures IsNearestBits(store.bits, sign, CandidateLimit(1), [id]) {
      assert |store.bits| == |store.bits.Keys| == 1;
    }
    result := store.Search(query, 1, [id]);
    var sign := QuantizeBits(query);
    assert Recalls(store.floats, store.bits, query, sign, 1, CandidateLimit(1), result.hits);
    assert |store.floats| == |store.floats.Keys| == 1;
    DistanceOfCommon(vector, query);
    assert vector[..10] == vector;
    assert result.hits == [result.hits[0]];
  }
}
