/**
 Shrinking a sharded cache: first stale entries are dropped from the old end of every
 shard, then, if that was not enough, live ones, oldest first and spread over the shards
 in proportion to their size.  `round` and `ceil` are taken on exact fractions.
 */
module CacheTrimmer {
  import opened CacheCleaner

  /** Dropping the stale entries among the first k. */
  function Scanned(s: seq<Entry>, k: nat, now: int): seq<Entry> {
    var k' := if k < |s| then k else |s|;
    Keep(s[..k'], StaleAt(now)) + s[k'..]
  }

  function CeilDiv(a: nat, b: nat): nat
    requires b > 0
  {
    (a + b - 1) / b
  }

  /** Rounding a / b to the nearest integer, halves upwards. */
  function RoundDiv(a: nat, b: nat): nat
    requires b > 0
  {
    (2 * a + b) / (2 * b)
  }

  /** The share of toTrim that a shard of this size has to give. */
  function Quota(toTrim: nat, size: nat, cacheSize: nat): nat
    requires cacheSize > 0
  {
    RoundDiv(toTrim * size, cacheSize)
  }

  /** The scan phase on every shard: its share of lookAt, rounded up, and one entry more. */
  function ScanAll(shards: seq<seq<Entry>>, now: int, lookAt: nat, cacheSize: nat): (r: seq<seq<Entry>>)
    requires cacheSize > 0
    ensures |r| == |shards|
  {
    seq(|shards|, i requires 0 <= i < |shards| =>
      Scanned(shards[i], CeilDiv(lookAt * |shards[i]|, cacheSize) + 1, now))
  }

  /** The trim phase: each shard gives its share of toTrim from its old end. */
  function Trimmed(shards: seq<seq<Entry>>, toTrim: nat, cacheSize: nat): (r: seq<seq<Entry>>)
    requires toTrim <= cacheSize == Total(shards)
    ensures |r| == |shards|
  {
    if toTrim == 0 then shards
    else
      var quota := Quota(toTrim, |shards[0]|, cacheSize);
      QuotaFits(toTrim, |shards[0]|, cacheSize);
      [shards[0][quota..]] + Trimmed(shards[1..], toTrim - quota, cacheSize - |shards[0]|)
  }

  function LookAt(toTrim: nat, cacheSize: nat): nat {
    var wide := (5 * toTrim) % 0x1_0000_0000_0000_0000;
    if toTrim > 0 && wide > cacheSize / 10 then wide else cacheSize / 10
  }

  function Excess(cacheSize: nat, maxCached: nat): nat {
    if cacheSize > maxCached then cacheSize - maxCached else 0
  }

  /** What pruneMutexCollectionsVector turns the shards into. */
  function Pruned(shards: seq<seq<Entry>>, now: int, maxCached: nat): seq<seq<Entry>> {
    var size := Total(shards);
    if size == 0 then shards
    else
      var toTrim := Excess(size, maxCached);
      var scanned := ScanAll(shards, now, LookAt(toTrim, size), size);
      ScanShrinks(shards, now, LookAt(toTrim, size), size);
      var erased := size - Total(scanned);
      if erased >= toTrim then scanned else Trimmed(scanned, toTrim - erased, Total(scanned))
  }

  // ---------------------------------------------------------------- arithmetic of the quota

  lemma DivAtMost(x: int, d: int, hi: int)
    requires d > 0 && x < d * (hi + 1)
    ensures x / d <= hi
  {
    var q := x / d;
    assert d * q <= x;
    if hi < q { assert d * (hi + 1) + d * (q - hi - 1) == d * q; Positive(d, q - hi - 1); }
  }

  lemma DivAtLeast(x: int, d: int, lo: int)
    requires d > 0 && d * lo <= x
    ensures lo <= x / d
  {
    var q := x / d;
    assert x < d * (q + 1);
    if q < lo { assert d * (q + 1) + d * (lo - q - 1) == d * lo; Positive(d, lo - q - 1); }
  }

  lemma Positive(a: int, b: int)
    requires a >= 0 && b >= 0
    ensures a * b >= 0
  {
  }

  /** A share is never more than the shard holds or the rest needs, and leaves the rest enough. */
  lemma QuotaFits(toTrim: nat, size: nat, cacheSize: nat)
    requires toTrim <= cacheSize && size <= cacheSize && cacheSize > 0
    ensures Quota(toTrim, size, cacheSize) <= toTrim
    ensures Quota(toTrim, size, cacheSize) <= size
    ensures toTrim - Quota(toTrim, size, cacheSize) <= cacheSize - size
  {
    QuotaUpper(toTrim, size, cacheSize);
    QuotaUpper(size, toTrim, cacheSize);
    assert toTrim * size == size * toTrim;
    QuotaLower(toTrim, size, cacheSize);
  }

  lemma QuotaUpper(t: int, s: int, c: int)
    requires 0 <= t <= c && 0 <= s <= c && c > 0
    ensures (2 * (t * s) + c) / (2 * c) <= t
  {
    Positive(t, c - s);
    assert t * c == t * s + t * (c - s);
    assert 2 * c * (t + 1) == 2 * (t * c) + 2 * c;
    DivAtMost(2 * (t * s) + c, 2 * c, t);
  }

  lemma QuotaLower(t: int, s: int, c: int)
    requires 0 <= t <= c && 0 <= s <= c && c > 0
    ensures t + s - c <= (2 * (t * s) + c) / (2 * c)
  {
    Positive(c - t, c - s);
    assert (c - t) * (c - s) == c * c - c * s - t * c + t * s;
    assert 2 * c * (t + s - c) == 2 * (t * c) + 2 * (c * s) - 2 * (c * c);
    DivAtLeast(2 * (t * s) + c, 2 * c, t + s - c);
  }

  // ---------------------------------------------------------------- what pruning does

  lemma TotalCons<T>(shards: seq<seq<T>>)
    requires shards != []
    ensures Total(shards) == |shards[0]| + Total(shards[1..])
  {
  }

  lemma {:induction false} TotalMonotone<T>(a: seq<seq<T>>, b: seq<seq<T>>)
    requires |a| == |b| && forall i :: 0 <= i < |a| ==> |a[i]| <= |b[i]|
    ensures Total(a) <= Total(b)
  {
    if a != [] { TotalMonotone(a[1..], b[1..]); }
  }

  lemma ScanShrinks(shards: seq<seq<Entry>>, now: int, lookAt: nat, cacheSize: nat)
    requires cacheSize > 0
    ensures Total(ScanAll(shards, now, lookAt, cacheSize)) <= Total(shards)
  {
    TotalMonotone(ScanAll(shards, now, lookAt, cacheSize), shards);
  }

  predicate SuffixOf<T(==)>(r: seq<T>, s: seq<T>) {
    |r| <= |s| && s[|s| - |r|..] == r
  }

  lemma SelfSuffix<T>(s: seq<T>)
    ensures SuffixOf(s, s)
  {
    assert s[0..] == s;
  }

  lemma TrimmedStep(shards: seq<seq<Entry>>, toTrim: nat)
    requires 0 < toTrim <= Total(shards)
    ensures var quota := Quota(toTrim, |shards[0]|, Total(shards));
            && quota <= toTrim && quota <= |shards[0]| && toTrim - quota <= Total(shards[1..])
            && Trimmed(shards, toTrim, Total(shards)) ==
               [shards[0][quota..]] + Trimmed(shards[1..], toTrim - quota, Total(shards[1..]))
  {
    hide Quota;
    QuotaFits(toTrim, |shards[0]|, Total(shards));
  }

  lemma TrimmedZero(shards: seq<seq<Entry>>)
    ensures Trimmed(shards, 0, Total(shards)) == shards
  {
  }

  /** Exactly toTrim entries go. */
  lemma {:induction false} TrimExact(shards: seq<seq<Entry>>, toTrim: nat)
    requires toTrim <= Total(shards)
    ensures Total(Trimmed(shards, toTrim, Total(shards))) == Total(shards) - toTrim
    decreases |shards|
  {
    if toTrim == 0 {
      TrimmedZero(shards);
    } else {
      hide RoundDiv, Trimmed;
      var quota := Quota(toTrim, |shards[0]|, Total(shards));
      TrimmedStep(shards, toTrim);
      TrimExact(shards[1..], toTrim - quota);
      assert Trimmed(shards, toTrim, Total(shards))[1..] == Trimmed(shards[1..], toTrim - quota, Total(shards[1..]));
    }
  }

  /** Every shard loses its oldest entries only. */
  lemma {:induction false} TrimOldest(shards: seq<seq<Entry>>, toTrim: nat, i: nat)
    requires toTrim <= Total(shards) && i < |shards|
    ensures SuffixOf(Trimmed(shards, toTrim, Total(shards))[i], shards[i])
    decreases i
  {
    if toTrim == 0 {
      SelfSuffix(shards[i]);
    } else {
      hide RoundDiv, Trimmed;
      TrimmedStep(shards, toTrim);
      if i > 0 {
        TrimOldest(shards[1..], toTrim - Quota(toTrim, |shards[0]|, Total(shards)), i - 1);
      }
    }
  }

  // ---------------------------------------------------------------- shares

  lemma RoundNear(a: nat, b: nat)
    requires b > 0
    ensures 2 * a - b < 2 * b * RoundDiv(a, b) <= 2 * a + b
  {
    var x, d := 2 * a + b, 2 * b;
    assert d * (x / d) + x % d == x;
  }

  /** What a shard loses. */
  function Lost(shards: seq<seq<Entry>>, r: seq<seq<Entry>>, i: nat): int
    requires i < |shards| == |r|
  {
    |shards[i]| - |r[i]|
  }

  /** What the shards from i on lose together. */
  function LostFrom(shards: seq<seq<Entry>>, r: seq<seq<Entry>>, i: nat): int
    requires i <= |shards| == |r|
  {
    Total(shards[i..]) - Total(r[i..])
  }

  /** t * s / c, rounded to the nearest number. */
  ghost predicate Near(t: int, s: int, c: int, g: int) {
    0 <= g <= s && 0 <= t <= c && (c > 0 ==> 2 * t * s - c < 2 * c * g <= 2 * t * s + c)
  }

  lemma QuotaNear(t: nat, s: nat, c: nat)
    requires 0 < c && t <= c && s <= c
    ensures Near(t, s, c, Quota(t, s, c))
  {
    hide RoundDiv;
    QuotaFits(t, s, c);
    RoundNear(t * s, c);
    assert 2 * t * s == 2 * (t * s);
  }

  lemma NearZero(s: nat, c: nat)
    ensures Near(0, s, c, 0)
  {
    assert 2 * 0 * s == 0 && 2 * c * 0 == 0;
  }

  lemma {:induction false} TrimNear(shards: seq<seq<Entry>>, toTrim: nat, i: nat)
    requires toTrim <= Total(shards) && i < |shards|
    ensures var r := Trimmed(shards, toTrim, Total(shards));
            Near(LostFrom(shards, r, i), |shards[i]|, Total(shards[i..]), Lost(shards, r, i))
    decreases i
  {
    hide Quota, Trimmed, Total, Near;
    var r := Trimmed(shards, toTrim, Total(shards));
    assert shards[0..] == shards && r[0..] == r;
    if toTrim == 0 {
      TrimmedZero(shards);
      NearZero(|shards[i]|, Total(shards[i..]));
    } else {
      var quota := Quota(toTrim, |shards[0]|, Total(shards));
      TrimmedStep(shards, toTrim);
      TotalCons(shards);
      if i == 0 {
        TrimExact(shards, toTrim);
        QuotaNear(toTrim, |shards[0]|, Total(shards));
      } else {
        assert r[1..] == Trimmed(shards[1..], toTrim - quota, Total(shards[1..]));
        TrimNear(shards[1..], toTrim - quota, i - 1);
        assert shards[1..][i - 1..] == shards[i..] && r[1..][i - 1..] == r[i..];
      }
    }
  }

  /**
   Every shard gives its share, rounded to the nearest number: with t still to go from shards of c entries, one of
   s entries loses t * s / c up to a half.
   */
  lemma TrimShare(shards: seq<seq<Entry>>, toTrim: nat, i: nat)
    requires toTrim <= Total(shards) && i < |shards|
    ensures var r := Trimmed(shards, toTrim, Total(shards));
            var c, s := Total(shards[i..]), |shards[i]|;
            var t, g := Total(shards[i..]) - Total(r[i..]), |shards[i]| - |r[i]|;
            && (i == 0 ==> t == toTrim) && 0 <= g <= s && 0 <= t <= c
            && (c > 0 ==> 2 * t * s - c < 2 * c * g <= 2 * t * s + c)
  {
    hide Trimmed, Total;
    TrimNear(shards, toTrim, i);
    TrimExact(shards, toTrim);
    var r := Trimmed(shards, toTrim, Total(shards));
    assert shards[0..] == shards && r[0..] == r;
  }

  /** The share of one shard lies between q and q + 1. */
  ghost predicate Between(q: int, t: int, s: int, c: int) {
    q * c <= t * s <= q * c + c
  }

  lemma LessFactor(c: int, a: int, b: int)
    requires c > 0 && c * a < c * b
    ensures a < b
  {
    if b <= a { Positive(c, a - b); }
  }

  lemma BetweenHere(q: int, t: int, s: int, c: int, g: int)
    requires c > 0 && Between(q, t, s, c) && 2 * t * s - c < 2 * c * g <= 2 * t * s + c
    ensures q <= g <= q + 1
  {
    assert 2 * t * s == 2 * (t * s) && 2 * c * g == 2 * (g * c);
    assert c * (q - 1) == q * c - c && c * (q + 2) == q * c + 2 * c && c * g == g * c;
    LessFactor(c, q - 1, g);
    LessFactor(c, g, q + 2);
  }

  lemma BetweenNext(q: int, t: int, s: int, c: int, g: int)
    requires 0 < 2 * s <= c && Between(q, t, s, c) && 2 * t * s - c < 2 * c * g <= 2 * t * s + c
    ensures Between(q, t - g, s, c - s)
  {
    BetweenHere(q, t, s, c, g);
    assert 2 * t * s == 2 * (t * s) && 2 * c * g == 2 * (c * g);
    assert (t - g) * s == t * s - g * s && q * (c - s) == q * c - q * s;
    if g == q {
      assert c * g == q * c && g * s == q * s;
    } else {
      assert c * g == q * c + c && g * s == q * s + s;
    }
  }

  lemma SomeBetween(t: int, s: int, c: int) returns (q: int)
    requires c > 0
    ensures Between(q, t, s, c)
  {
    q := (t * s) / c;
    assert c * q + (t * s) % c == t * s;
    assert c * q == q * c;
  }

  lemma LostNext(shards: seq<seq<Entry>>, r: seq<seq<Entry>>, i: nat)
    requires i < |shards| == |r|
    ensures LostFrom(shards, r, i + 1) == LostFrom(shards, r, i) - Lost(shards, r, i)
    ensures Total(shards[i + 1..]) == Total(shards[i..]) - |shards[i]|
  {
    assert shards[i..][0] == shards[i] && shards[i..][1..] == shards[i + 1..];
    assert r[i..][0] == r[i] && r[i..][1..] == r[i + 1..];
  }

  /** In a run of shards of one size the shares stay between the same two numbers. */
  lemma {:induction false} RunBetween(shards: seq<seq<Entry>>, toTrim: nat, i: nat, k: nat, q: int)
    requires toTrim <= Total(shards) && i <= k < |shards| && |shards[i]| > 0
    requires forall x :: i <= x <= k ==> |shards[x]| == |shards[i]|
    requires Between(q, LostFrom(shards, Trimmed(shards, toTrim, Total(shards)), i), |shards[i]|, Total(shards[i..]))
    ensures Between(q, LostFrom(shards, Trimmed(shards, toTrim, Total(shards)), k), |shards[k]|, Total(shards[k..]))
    decreases k
  {
    hide Trimmed, Total, Between;
    if i < k {
      var r := Trimmed(shards, toTrim, Total(shards));
      RunBetween(shards, toTrim, i, k - 1, q);
      TrimShare(shards, toTrim, k - 1);
      LostNext(shards, r, k - 1);
      LostNext(shards, r, k);
      BetweenNext(q, LostFrom(shards, r, k - 1), |shards[i]|, Total(shards[k - 1..]), Lost(shards, r, k - 1));
    }
  }

  /** Shards of one size next to each other lose numbers that differ by at most one. */
  lemma EqualShards(shards: seq<seq<Entry>>, toTrim: nat, i: nat, j: nat)
    requires toTrim <= Total(shards) && i <= j < |shards|
    requires forall x :: i <= x <= j ==> |shards[x]| == |shards[i]|
    ensures var r := Trimmed(shards, toTrim, Total(shards));
            -1 <= (|shards[i]| - |r[i]|) - (|shards[j]| - |r[j]|) <= 1
  {
    hide Trimmed, Total, Between;
    var r := Trimmed(shards, toTrim, Total(shards));
    TrimShare(shards, toTrim, i);
    TrimShare(shards, toTrim, j);
    if |shards[i]| > 0 {
      LostNext(shards, r, i);
      LostNext(shards, r, j);
      var q := SomeBetween(LostFrom(shards, r, i), |shards[i]|, Total(shards[i..]));
      RunBetween(shards, toTrim, i, j, q);
      BetweenHere(q, LostFrom(shards, r, i), |shards[i]|, Total(shards[i..]), Lost(shards, r, i));
      BetweenHere(q, LostFrom(shards, r, j), |shards[j]|, Total(shards[j..]), Lost(shards, r, j));
    }
  }

  /** With others in between they may differ by more: of 8 entries, the first shard loses 3 and the last 5. */
  lemma ApartTheyDiffer(shards: seq<seq<Entry>>)
    requires |shards| == 5 && |shards[0]| == |shards[4]| == 10 && |shards[1]| == |shards[2]| == |shards[3]| == 1
    ensures Total(shards) == 23
    ensures var r := Trimmed(shards, 8, 23);
            |shards[0]| - |r[0]| == 3 && |shards[4]| - |r[4]| == 5
  {
    FiveShards(shards);
    hide Total, Trimmed, LostFrom;
    assert shards[0..] == shards;
    NextLoses(shards, 8, 0, 8, 10, 23, 3);
    NextLoses(shards, 8, 1, 5, 1, 13, 0);
    NextLoses(shards, 8, 2, 5, 1, 12, 0);
    NextLoses(shards, 8, 3, 5, 1, 11, 0);
    NextLoses(shards, 8, 4, 5, 10, 10, 5);
  }

  /** With t to go, g is what the shard loses if it is nearest to its share. */
  lemma NextLoses(shards: seq<seq<Entry>>, toTrim: nat, i: nat, t: nat, s: nat, c: nat, g: nat)
    requires toTrim <= Total(shards) && i < |shards| && s == |shards[i]| && c == Total(shards[i..]) > 0
    requires t == if i == 0 then toTrim else LostFrom(shards, Trimmed(shards, toTrim, Total(shards)), i)
    requires 2 * t * s - c < 2 * c * g <= 2 * t * s + c
    ensures var r := Trimmed(shards, toTrim, Total(shards));
            |shards[i]| - |r[i]| == g && LostFrom(shards, r, i + 1) == t - g
  {
    hide Total, Trimmed;
    var r := Trimmed(shards, toTrim, Total(shards));
    TrimShare(shards, toTrim, i);
    LostNext(shards, r, i);
    SameShare(c, 2 * t * s, g, Lost(shards, r, i));
  }

  lemma SameShare(c: int, x: int, a: int, b: int)
    requires c > 0 && x - c < 2 * c * a <= x + c && x - c < 2 * c * b <= x + c
    ensures a == b
  {
    assert 2 * c * (a - 1) == 2 * c * a - 2 * c && 2 * c * (b - 1) == 2 * c * b - 2 * c;
    LessFactor(2 * c, a - 1, b);
    LessFactor(2 * c, b - 1, a);
  }

  lemma FiveShards(shards: seq<seq<Entry>>)
    requires |shards| == 5
    ensures Total(shards[4..]) == |shards[4]| && Total(shards[3..]) == |shards[3]| + Total(shards[4..])
    ensures Total(shards[2..]) == |shards[2]| + Total(shards[3..]) && Total(shards[1..]) == |shards[1]| + Total(shards[2..])
    ensures Total(shards) == |shards[0]| + Total(shards[1..])
  {
    assert shards[1..][1..] == shards[2..] && shards[2..][1..] == shards[3..] && shards[3..][1..] == shards[4..];
    assert shards[4..][1..] == [];
  }

  /** Scanning leaves all but the stale ones among the first k entries. */
  lemma {:induction false} ScannedLeaves(s: seq<Entry>, k: nat, now: int)
    ensures Leaves(s, StaleAmong(s, k, now), Scanned(s, k, now))
    decreases |s| - k
  {
    hide Leaves, Scanned, StaleAmong;
    if |s| <= k {
      WholeLeaves(s, k, now);
    } else {
      var n := |s| - 1;
      var t, e := s[..n], s[n];
      ScannedLeaves(t, k, now);
      ScannedSnoc(t, e, k, now);
      StaleAmongSnoc(t, e, k, now);
      assert s == t + [e];
      LeavesSnoc(t, StaleAmong(t, k, now), Scanned(t, k, now), e);
    }
  }

  lemma WholeLeaves(s: seq<Entry>, k: nat, now: int)
    requires |s| <= k
    ensures Leaves(s, StaleAmong(s, k, now), Scanned(s, k, now))
  {
    hide Leaves, Keep;
    var kept := Keep(s, StaleAt(now));
    assert s[..|s|] == s && s[|s|..] == [] && kept + [] == kept;
    KeepLeaves(s, StaleAt(now));
    assert SelectedAt(s, StaleAt(now)) == StaleAmong(s, k, now);
  }

  /** Where the stale ones among the first k entries stand. */
  function StaleAmong(s: seq<Entry>, k: nat, now: int): set<int> {
    set x | 0 <= x < |s| && x < k && s[x].ttd < now
  }

  lemma ScannedSnoc(t: seq<Entry>, e: Entry, k: nat, now: int)
    requires k <= |t|
    ensures Scanned(t + [e], k, now) == Scanned(t, k, now) + [e]
  {
    hide Keep;
    assert (t + [e])[..k] == t[..k] && (t + [e])[k..] == t[k..] + [e];
    assert Keep(t[..k], StaleAt(now)) + (t[k..] + [e]) == Keep(t[..k], StaleAt(now)) + t[k..] + [e];
  }

  lemma StaleAmongSnoc(t: seq<Entry>, e: Entry, k: nat, now: int)
    requires k <= |t|
    ensures StaleAmong(t + [e], k, now) == StaleAmong(t, k, now)
  {
    var s := t + [e];
    assert forall x :: 0 <= x < |t| ==> s[x] == t[x];
  }

  /**
   The scan phase, entry by entry: in a shard of s out of c entries the one with x before it goes iff it is stale
   and x is at most the share lookAt * s / c, rounded up.
   */
  lemma ScanAllLeaves(shards: seq<seq<Entry>>, now: int, lookAt: nat, c: nat, i: nat)
    requires c > 0 && i < |shards|
    ensures var s := shards[i];
            Leaves(s, (set x | 0 <= x < |s| && s[x].ttd < now && (x == 0 || (x - 1) * c < lookAt * |s|)),
                   ScanAll(shards, now, lookAt, c)[i])
  {
    hide Leaves, Scanned, CeilDiv;
    var s := shards[i];
    var k := CeilDiv(lookAt * |s|, c) + 1;
    ScannedLeaves(s, k, now);
    forall x | 0 <= x < |s|
      ensures x < k && s[x].ttd < now <==> s[x].ttd < now && (x == 0 || (x - 1) * c < lookAt * |s|)
    {
      ScanShare(lookAt, |s|, c, x);
    }
    assert StaleAmong(s, k, now) == set x | 0 <= x < |s| && s[x].ttd < now && (x == 0 || (x - 1) * c < lookAt * |s|);
  }

  /** A tenth of the cache is looked at, or five times the excess where that is more and fits 64 bits. */
  lemma LookAtIs(toTrim: nat, size: nat)
    ensures LookAt(0, size) == size / 10
    ensures 5 * toTrim < 0x1_0000_0000_0000_0000 ==>
              && LookAt(toTrim, size) >= 5 * toTrim && LookAt(toTrim, size) >= size / 10
              && (LookAt(toTrim, size) == 5 * toTrim || LookAt(toTrim, size) == size / 10)
  {
  }

  /** An entry goes in the scan iff it is stale and at most the rounded-up share of lookAt entries stands before it. */
  lemma ScanShare(lookAt: nat, s: nat, c: nat, x: nat)
    requires c > 0
    ensures x < CeilDiv(lookAt * s, c) + 1 <==> x == 0 || (x - 1) * c < lookAt * s
  {
    var a := lookAt * s;
    var q := (a + c - 1) / c;
    assert c * q + (a + c - 1) % c == a + c - 1;
    if x > q { Positive(c, x - 1 - q); assert c * (x - 1 - q) == (x - 1) * c - c * q; }
    if 0 < x <= q { Positive(c, q - x); assert c * (q - x) == c * q - (x - 1) * c - c; }
  }

  /**
   A cache above its limit ends with exactly maxCached entries, or fewer when that many were
   stale; live entries go only when dropping the scanned stale ones did not suffice.
   */
  lemma PrunedExact(shards: seq<seq<Entry>>, now: int, maxCached: nat)
    requires Total(shards) > maxCached
    ensures var size := Total(shards);
            var scanned := ScanAll(shards, now, LookAt(size - maxCached, size), size);
            var r := Pruned(shards, now, maxCached);
            && |r| == |shards|
            && Total(r) == (if Total(scanned) <= maxCached then Total(scanned) else maxCached)
            && (Total(scanned) <= maxCached ==> r == scanned)
            && (Total(scanned) > maxCached ==> r == Trimmed(scanned, Total(scanned) - maxCached, Total(scanned)))
            && forall i :: 0 <= i < |r| ==> SuffixOf(r[i], scanned[i])
  {
    hide ScanAll, LookAt, Trimmed, Total, SuffixOf;
    var size := Total(shards);
    var lookAt := LookAt(size - maxCached, size);
    var scanned := ScanAll(shards, now, lookAt, size);
    ScanShrinks(shards, now, lookAt, size);
    if Total(scanned) <= maxCached {
      forall i | 0 <= i < |scanned| ensures SuffixOf(scanned[i], scanned[i]) { SelfSuffix(scanned[i]); }
    } else {
      TrimExact(scanned, Total(scanned) - maxCached);
      forall i | 0 <= i < |scanned|
        ensures SuffixOf(Trimmed(scanned, Total(scanned) - maxCached, Total(scanned))[i], scanned[i])
      {
        TrimOldest(scanned, Total(scanned) - maxCached, i);
      }
    }
  }

  /** Within its limit a cache loses scanned stale entries only. */
  lemma PrunedBelowLimit(shards: seq<seq<Entry>>, now: int, maxCached: nat)
    requires 0 < Total(shards) <= maxCached
    ensures Pruned(shards, now, maxCached) == ScanAll(shards, now, LookAt(0, Total(shards)), Total(shards))
  {
    ScanShrinks(shards, now, LookAt(0, Total(shards)), Total(shards));
  }

  // ---------------------------------------------------------------- the code

  /** The scanning loops: look at the first k entries and erase the stale ones. */
  method ScanExpired(s: seq<Entry>, k: nat, now: int) returns (r: seq<Entry>, erased: nat)
    ensures r == Scanned(s, k, now)
    ensures erased == |s| - |r|
  {
    hide Scanned;
    r, erased := s, 0;
    var i, looked := 0, 0;
    NothingScanned(s, now);
    while i < |r| && looked < k
      invariant 0 <= looked <= |s| && looked <= k
      invariant r == Scanned(s, looked, now) && i + erased == looked && erased == |s| - |r|
    {
      OneMoreScanned(s, looked, now, i, r);
      if r[i].ttd < now {
        r := r[..i] + r[i + 1..];
        erased := erased + 1;
      } else {
        i := i + 1;
      }
      looked := looked + 1;
    }
    if looked < k { ScannedWhole(s, k, now); }
  }

  lemma ScannedWhole(s: seq<Entry>, k: nat, now: int)
    requires |s| <= k
    ensures Scanned(s, k, now) == Scanned(s, |s|, now)
  {
  }

  lemma KeepOne(e: Entry, now: int)
    ensures Keep([e], StaleAt(now)) == if e.ttd < now then [] else [e]
  {
    assert [e][1..] == [];
  }

  lemma ScanStep(s: seq<Entry>, k: nat, now: int)
    requires k < |s|
    ensures var kept := Keep(s[..k], StaleAt(now));
            && Keep(s[..k + 1], StaleAt(now)) == (if s[k].ttd < now then kept else kept + [s[k]])
            && s[k..] == [s[k]] + s[k + 1..]
  {
    hide Keep;
    KeepOne(s[k], now);
    assert s[..k + 1] == s[..k] + [s[k]];
    KeepConcat(s[..k], [s[k]], StaleAt(now));
  }

  lemma EraseAfter<T>(kept: seq<T>, tail: seq<T>)
    requires tail != []
    ensures var r := kept + tail;
            && r[|kept|] == tail[0] && r[..|kept|] + r[|kept| + 1..] == kept + tail[1..]
            && kept + [tail[0]] + tail[1..] == r
  {
  }

  /** How many entries the single-collection form may look at. */
  function LookAtMost(size: nat, maxCached: nat, scanFraction: nat): nat
    requires scanFraction > 0
  {
    if size > maxCached then 5 * (size - maxCached) % 0x1_0000_0000_0000_0000 else size / scanFraction
  }

  /** The scan of pruneCollection: it stops once enough stale entries are gone. */
  method ScanUntil(s: seq<Entry>, lookAt: nat, toTrim: nat, now: int) returns (r: seq<Entry>, looked: nat)
    ensures looked <= lookAt && looked <= |s| && r == Scanned(s, looked, now) && |r| <= |s|
    ensures toTrim > 0 ==> |s| - |r| <= toTrim
    ensures toTrim == 0 || |s| - |r| < toTrim ==> looked == lookAt || looked == |s|
  {
    hide Scanned;
    var i, erased := 0, 0;
    r, looked := s, 0;
    NothingScanned(s, now);
    while i < |r| && looked < lookAt
      invariant looked <= |s| && looked <= lookAt
      invariant r == Scanned(s, looked, now) && i + erased == looked && erased == |s| - |r|
      invariant toTrim > 0 ==> erased < toTrim
    {
      OneMoreScanned(s, looked, now, i, r);
      if r[i].ttd < now {
        r := r[..i] + r[i + 1..];
        erased := erased + 1;
      } else {
        i := i + 1;
      }
      looked := looked + 1;
      if toTrim > 0 && erased >= toTrim { return; }
    }
  }

  /**
   pruneCollection: within its limit a collection loses the stale entries among those looked at; above it
   ends with exactly maxCached entries, losing live ones, oldest first, only when looking at all the entries
   it may look at did not show enough stale ones.
   */
  method PruneCollection(s: seq<Entry>, maxCached: nat, scanFraction: nat, now: int) returns (r: seq<Entry>, looked: nat)
    requires scanFraction > 0
    ensures var most := if |s| > maxCached then 5 * (|s| - maxCached) % 0x1_0000_0000_0000_0000 else |s| / scanFraction;
            var scanned := Scanned(s, looked, now);
            && looked <= most && looked <= |s|
            && (|s| <= maxCached ==> (looked == most || looked == |s|) && r == scanned)
            && (|s| > maxCached ==>
                  && |r| == maxCached <= |scanned|
                  && r == scanned[|scanned| - maxCached..]
                  && (r != scanned ==> looked == most || looked == |s|))
  {
    hide Scanned;
    var toTrim := Excess(|s|, maxCached);
    var lookAt := LookAtMost(|s|, maxCached, scanFraction);
    r, looked := ScanUntil(s, lookAt, toTrim, now);
    var erased := |s| - |r|;
    if erased >= toTrim { return; }
    toTrim := toTrim - erased;
    ghost var scanned := r;
    var i := 0;
    while i < toTrim && r != []
      invariant 0 <= i <= toTrim && i <= |scanned| && r == scanned[i..]
    {
      r := r[1..];
      i := i + 1;
    }
  }

  lemma NothingScanned(s: seq<Entry>, now: int)
    ensures Scanned(s, 0, now) == s
  {
    assert Keep([], StaleAt(now)) == [];
    assert s[..0] == [];
  }

  lemma OneMoreScanned(s: seq<Entry>, k: nat, now: int, i: nat, r: seq<Entry>)
    requires k < |s| && r == Scanned(s, k, now) && i + (|s| - |r|) == k
    ensures i < |r| && r[i] == s[k]
    ensures Scanned(s, k + 1, now) == if s[k].ttd < now then r[..i] + r[i + 1..] else r
  {
    hide Keep;
    var kept := Keep(s[..k], StaleAt(now));
    assert i == |kept|;
    ScanStep(s, k, now);
    EraseAfter(kept, s[k..]);
  }

  /** pruneLockedCollectionsVector: a tenth of every shard is looked at. */
  method PruneLocked(maps: array<seq<Entry>>, now: int) returns (totErased: nat)
    modifies maps
    ensures forall i :: 0 <= i < maps.Length ==>
                          maps[i] == Scanned(old(maps[i]), (|old(maps[i])| + 9) / 10, now)
    ensures totErased == Total(old(maps[..])) - Total(maps[..])
  {
    hide Scanned, Total;
    totErased := 0;
    ghost var before := maps[..];
    var i := 0;
    while i < maps.Length
      invariant 0 <= i <= maps.Length
      invariant forall k :: 0 <= k < i ==> maps[k] == Scanned(before[k], (|before[k]| + 9) / 10, now)
      invariant forall k :: i <= k < maps.Length ==> maps[k] == before[k]
      invariant totErased == Total(before) - Total(maps[..])
    {
      var kept, erased := ScanExpired(maps[i], (|maps[i]| + 9) / 10, now);
      TotalUpdate(maps[..], i, kept);
      ghost var next := maps[..][i := kept];
      maps[i] := kept;
      assert maps[..] == next;
      totErased := totErased + erased;
      i := i + 1;
    }
  }

  method ScanPhase(maps: array<seq<Entry>>, now: int, lookAt: nat, cacheSize: nat) returns (totErased: nat)
    requires cacheSize > 0
    modifies maps
    ensures maps[..] == ScanAll(old(maps[..]), now, lookAt, cacheSize)
    ensures totErased == Total(old(maps[..])) - Total(maps[..])
  {
    hide Scanned, Total, CeilDiv;
    totErased := 0;
    ghost var before := maps[..];
    var i := 0;
    while i < maps.Length
      invariant 0 <= i <= maps.Length
      invariant forall k :: 0 <= k < i ==> maps[k] == ScanAll(before, now, lookAt, cacheSize)[k]
      invariant forall k :: i <= k < maps.Length ==> maps[k] == before[k]
      invariant totErased == Total(before) - Total(maps[..])
    {
      var toScan := CeilDiv(lookAt * |maps[i]|, cacheSize);
      var kept, erased := ScanExpired(maps[i], toScan + 1, now);
      TotalUpdate(maps[..], i, kept);
      ghost var next := maps[..][i := kept];
      maps[i] := kept;
      assert maps[..] == next;
      totErased := totErased + erased;
      i := i + 1;
    }
  }

  /** The inner loop of the trim phase: at most quota entries from the old end. */
  method DropOldest(s: seq<Entry>, quota: nat, toTrim: nat) returns (r: seq<Entry>, left: nat)
    requires quota <= |s| && quota <= toTrim
    ensures r == s[quota..] && left == toTrim - quota
  {
    r, left := s, toTrim;
    var removed := 0;
    while r != [] && removed < quota
      invariant removed <= quota && r == s[removed..] && left == toTrim - removed
    {
      r := r[1..];
      left := left - 1;
      removed := removed + 1;
      if left == 0 { return; }
    }
  }

  /** The trim phase; it always returns from inside the loop, having removed exactly toTrim entries. */
  method TrimPhase(maps: array<seq<Entry>>, toTrim: nat, cacheSize: nat)
    requires 0 < toTrim <= cacheSize == Total(maps[..])
    modifies maps
    ensures maps[..] == Trimmed(old(maps[..]), toTrim, cacheSize)
  {
    hide Quota, Trimmed, Total;
    ghost var shards := maps[..];
    var i, left, size := 0, toTrim, cacheSize;
    ghost var goal := Trimmed(shards, toTrim, cacheSize);
    assert shards[0..] == shards && goal[0..] == goal;
    while i < maps.Length
      invariant 0 <= i <= maps.Length == |shards|
      invariant 0 < left <= size == Total(shards[i..])
      invariant forall k :: i <= k < |shards| ==> maps[k] == shards[k]
      invariant forall k :: 0 <= k < i ==> maps[k] == goal[k]
      invariant goal[i..] == Trimmed(shards[i..], left, size)
    {
      var shardSize := |maps[i]|;
      var quota := Quota(left, shardSize, size);
      NextGoal(shards, goal, i, left);
      size := size - shardSize;
      if quota != 0 {
        var kept, rest := DropOldest(maps[i], quota, left);
        maps[i] := kept;
        left := rest;
        if left == 0 {
          TrimmedZero(shards[i + 1..]);
          assert forall k :: i < k < |shards| ==> goal[k] == goal[i + 1..][k - i - 1] == shards[k];
          return;
        }
      }
      i := i + 1;
    }
    EmptyTotal(shards[i..]);
  }

  /** One shard further in the trim phase. */
  lemma NextGoal(shards: seq<seq<Entry>>, goal: seq<seq<Entry>>, i: nat, left: nat)
    requires i < |shards| == |goal| && 0 < left <= Total(shards[i..]) && goal[i..] == Trimmed(shards[i..], left, Total(shards[i..]))
    ensures var quota := Quota(left, |shards[i]|, Total(shards[i..]));
            && quota <= left && quota <= |shards[i]|
            && Total(shards[i..]) == |shards[i]| + Total(shards[i + 1..])
            && goal[i] == shards[i][quota..]
            && left - quota <= Total(shards[i + 1..])
            && goal[i + 1..] == Trimmed(shards[i + 1..], left - quota, Total(shards[i + 1..]))
  {
    hide Quota, Trimmed, Total;
    assert shards[i..][0] == shards[i] && shards[i..][1..] == shards[i + 1..];
    assert goal[i..][0] == goal[i] && goal[i..][1..] == goal[i + 1..];
    TrimmedStep(shards[i..], left);
    TotalCons(shards[i..]);
  }

  /**
   pruneMutexCollectionsVector, called with the true number of entries: no division by zero,
   and toTrim never exceeds what the remaining shards hold.
   */
  method Prune(maps: array<seq<Entry>>, now: int, maxCached: nat, cacheSize: nat) returns (totErased: nat)
    requires cacheSize == Total(maps[..])
    modifies maps
    ensures maps[..] == Pruned(old(maps[..]), now, maxCached)
    ensures totErased == Total(old(maps[..])) - Total(maps[..])
  {
    hide Total, ScanAll, Trimmed, LookAt;
    var toTrim := Excess(cacheSize, maxCached);
    var lookAt := LookAt(toTrim, cacheSize);
    if maps.Length == 0 || cacheSize == 0 {
      EmptyTotal(maps[..]);
      return 0;
    }
    ScanShrinks(maps[..], now, lookAt, cacheSize);
    totErased := ScanPhase(maps, now, lookAt, cacheSize);
    if totErased >= toTrim { return; }
    toTrim := toTrim - totErased;
    TrimExact(maps[..], toTrim);
    TrimPhase(maps, toTrim, cacheSize - totErased);
    totErased := totErased + toTrim;
  }

  lemma EmptyTotal<T>(shards: seq<seq<T>>)
    ensures shards == [] ==> Total(shards) == 0
  {
  }
}
