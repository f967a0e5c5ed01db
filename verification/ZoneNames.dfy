/**
 ZoneName: a name with an optional variant, and the order that sorted zone lists use.
 Names are kept lower-cased, so that equal zones are equal values.
 */
module ZoneNames {
  import opened Wire

  datatype Zone = Zone(name: Name, variant: seq<Byte>)

  /** The storage string of a name, as numbers. */
  function Flat(n: Name): (r: seq<int>)
    ensures |r| == Octets(n) + 1
  {
    if n == [] then [0] else [|n[0]|] + n[0] + Flat(n[1..])
  }

  function Reversed(s: seq<int>): (r: seq<int>)
    ensures |r| == |s|
    ensures forall i :: 0 <= i < |s| ==> r[i] == s[|s| - 1 - i]
  {
    seq(|s|, i requires 0 <= i < |s| => s[|s| - 1 - i])
  }

  function Lex(a: seq<int>, b: seq<int>): int {
    if a == [] then (if b == [] then 0 else -1)
    else if b == [] then 1
    else if a[0] != b[0] then a[0] - b[0]
    else Lex(a[1..], b[1..])
  }

  /** The order of ZoneName::operator<: storage bytes from the end, then the variant. */
  function CompareZones(a: Zone, b: Zone): int {
    var d := Lex(Reversed(Flat(a.name)), Reversed(Flat(b.name)));
    if d != 0 then d else Lex(a.variant, b.variant)
  }

  predicate ZoneLess(a: Zone, b: Zone) {
    CompareZones(a, b) < 0
  }

  /** ZoneName::operator< as it runs, over the storage strings of the names. */
  method ZoneLessThan(a: Zone, b: Zone) returns (r: bool)
    ensures r <==> ZoneLess(a, b)
  {
    var s, t := Flat(a.name), Flat(b.name);
    ghost var x, y := Reversed(s), Reversed(t);
    var i := 0;
    assert x[0..] == x && y[0..] == y;
    while i != |s| && i != |t|
      invariant 0 <= i <= |s| && i <= |t|
      invariant Lex(x, y) == Lex(x[i..], y[i..])
      decreases |s| - i
    {
      var c, d := s[|s| - 1 - i], t[|t| - 1 - i];
      if c < d { return true; }
      if c > d { return false; }
      assert x[i..][1..] == x[i + 1..] && y[i..][1..] == y[i + 1..];
      i := i + 1;
    }
    if i == |s| {
      if i != |t| { return true; }
    } else {
      return false;
    }
    return Lex(a.variant, b.variant) < 0;
  }

  // ---------------------------------------------------------------- the order, octet by octet

  /** The strings agree on their first k numbers, and then x ends or has the smaller one. */
  ghost predicate BeforeAt(x: seq<int>, y: seq<int>, k: int) {
    && 0 <= k <= |x| && k <= |y| && (forall i :: 0 <= i < k ==> x[i] == y[i])
    && (k == |x| < |y| || (k < |x| && k < |y| && x[k] < y[k]))
  }

  lemma {:induction false} LexDeclarative(x: seq<int>, y: seq<int>)
    ensures Lex(x, y) < 0 <==> exists k :: BeforeAt(x, y, k)
  {
    if x == [] || y == [] || x[0] != y[0] {
      if Lex(x, y) < 0 { assert BeforeAt(x, y, 0); }
    } else {
      var s, t := x[1..], y[1..];
      LexDeclarative(s, t);
      if k :| BeforeAt(s, t, k) {
        assert forall i :: 0 < i < k + 1 ==> x[i] == s[i - 1] && y[i] == t[i - 1];
        assert BeforeAt(x, y, k + 1);
      }
      if k :| BeforeAt(x, y, k) {
        assert forall i :: 0 <= i < k - 1 ==> s[i] == x[i + 1] && t[i] == y[i + 1];
        assert BeforeAt(s, t, k - 1);
      }
    }
  }

  /** The storage strings agree on their last k octets, and before those s ends or has the smaller octet. */
  ghost predicate BehindAt(s: seq<Byte>, t: seq<Byte>, k: int) {
    && 0 <= k <= |s| && k <= |t| && s[|s| - k..] == t[|t| - k..]
    && (k == |s| < |t| || (k < |s| && k < |t| && s[|s| - 1 - k] < t[|t| - 1 - k]))
  }

  lemma {:induction false} FlatIsEncode(n: Name)
    requires LabelsOk(n)
    ensures Flat(n) == Encode(n)
  {
    if n != [] { FlatIsEncode(n[1..]); }
  }

  /** One zone sorts before another iff its storage string does, read from the end, or its variant does for equal names. */
  lemma ZoneLessDeclarative(a: Zone, b: Zone)
    requires LabelsOk(a.name) && LabelsOk(b.name)
    ensures ZoneLess(a, b) <==>
              || (exists k :: BehindAt(Encode(a.name), Encode(b.name), k))
              || (a.name == b.name && exists k :: BeforeAt(a.variant, b.variant, k))
  {
    var s, t := Encode(a.name), Encode(b.name);
    FlatIsEncode(a.name);
    FlatIsEncode(b.name);
    ReversedBehind(s, t);
    LexDeclarative(Reversed(Flat(a.name)), Reversed(Flat(b.name)));
    LexDeclarative(a.variant, b.variant);
    NameZero(a.name, b.name);
    hide Lex, Flat, Encode, BehindAt, BeforeAt, Reversed;
  }

  lemma ReversedBehind(s: seq<Byte>, t: seq<Byte>)
    ensures (exists k :: BeforeAt(Reversed(s), Reversed(t), k)) <==> exists k :: BehindAt(s, t, k)
  {
    var x, y := Reversed(s), Reversed(t);
    if k :| BeforeAt(x, y, k) {
      var p, q := s[|s| - k..], t[|t| - k..];
      forall j | 0 <= j < k ensures p[j] == q[j] {
        assert x[k - 1 - j] == y[k - 1 - j];
      }
      assert BehindAt(s, t, k);
    }
    if k :| BehindAt(s, t, k) {
      forall i | 0 <= i < k ensures x[i] == y[i] {
        assert s[|s| - k..][k - 1 - i] == t[|t| - k..][k - 1 - i];
      }
      assert BeforeAt(x, y, k);
    }
  }

  lemma NameZero(a: Name, b: Name)
    ensures Lex(Reversed(Flat(a)), Reversed(Flat(b))) == 0 <==> a == b
  {
    LexZero(Reversed(Flat(a)), Reversed(Flat(b)));
    if Reversed(Flat(a)) == Reversed(Flat(b)) {
      ReversedInjective(Flat(a), Flat(b));
      FlatInjective(a, b);
    }
  }

  // ---------------------------------------------------------------- a strict total order

  lemma {:induction false} LexAntisymmetric(a: seq<int>, b: seq<int>)
    ensures Lex(a, b) == -Lex(b, a)
  {
    if a != [] && b != [] && a[0] == b[0] { LexAntisymmetric(a[1..], b[1..]); }
  }

  lemma {:induction false} LexZero(a: seq<int>, b: seq<int>)
    ensures Lex(a, b) == 0 <==> a == b
  {
    if a != [] && b != [] {
      LexZero(a[1..], b[1..]);
      assert a == [a[0]] + a[1..] && b == [b[0]] + b[1..];
    }
  }

  lemma {:induction false} LexTransitive(a: seq<int>, b: seq<int>, c: seq<int>)
    requires Lex(a, b) <= 0 && Lex(b, c) <= 0
    ensures Lex(a, c) <= 0
    ensures Lex(a, c) == 0 ==> Lex(a, b) == 0 && Lex(b, c) == 0
  {
    if a != [] && b != [] && c != [] && a[0] == b[0] == c[0] { LexTransitive(a[1..], b[1..], c[1..]); }
  }

  /** The storage string determines the name. */
  lemma {:induction false} FlatInjective(a: Name, b: Name)
    requires Flat(a) == Flat(b)
    ensures a == b
  {
    if a != [] && b != [] {
      FlatHead(a);
      FlatHead(b);
      FlatInjective(a[1..], b[1..]);
      assert a == [a[0]] + a[1..] && b == [b[0]] + b[1..];
    }
  }

  lemma FlatHead(n: Name)
    requires n != []
    ensures var s, k := Flat(n), |n[0]|;
            s[0] == k && k + 1 < |s| && s[1..k + 1] == n[0] && s[k + 1..] == Flat(n[1..])
  {
    var k, t := |n[0]|, Flat(n[1..]);
    var head: seq<int> := [k] + n[0];
    assert Flat(n) == head + t;
    assert (head + t)[|head|..] == t;
    assert head[1..] == n[0] && (head + t)[1..k + 1] == head[1..];
  }

  lemma ReversedInjective(a: seq<int>, b: seq<int>)
    requires Reversed(a) == Reversed(b)
    ensures a == b
  {
    assert |a| == |Reversed(a)| == |b|;
    forall i | 0 <= i < |a| ensures a[i] == b[i] {
      assert a[i] == Reversed(a)[|a| - 1 - i] && b[i] == Reversed(b)[|b| - 1 - i];
    }
  }

  lemma ZonesZero(a: Zone, b: Zone)
    ensures CompareZones(a, b) == 0 <==> a == b
  {
    var x, y := Reversed(Flat(a.name)), Reversed(Flat(b.name));
    LexZero(x, y);
    LexZero(a.variant, b.variant);
    if x == y {
      ReversedInjective(Flat(a.name), Flat(b.name));
      FlatInjective(a.name, b.name);
    }
  }

  lemma ZonesAntisymmetric(a: Zone, b: Zone)
    ensures CompareZones(a, b) == -CompareZones(b, a)
  {
    LexAntisymmetric(Reversed(Flat(a.name)), Reversed(Flat(b.name)));
    LexAntisymmetric(a.variant, b.variant);
  }

  lemma ZonesTransitive(a: Zone, b: Zone, c: Zone)
    requires CompareZones(a, b) <= 0 && CompareZones(b, c) <= 0
    ensures CompareZones(a, c) <= 0
    ensures CompareZones(a, c) == 0 ==> CompareZones(a, b) == 0 && CompareZones(b, c) == 0
  {
    LexTransitive(Reversed(Flat(a.name)), Reversed(Flat(b.name)), Reversed(Flat(c.name)));
    if Lex(Reversed(Flat(a.name)), Reversed(Flat(c.name))) == 0 {
      LexTransitive(a.variant, b.variant, c.variant);
    }
  }

  /** Exactly one of before, equal, after. */
  lemma ZoneTrichotomy(a: Zone, b: Zone)
    ensures ZoneLess(a, b) ==> !ZoneLess(b, a) && a != b
    ensures !ZoneLess(a, b) && !ZoneLess(b, a) <==> a == b
  {
    ZonesZero(a, b);
    ZonesAntisymmetric(a, b);
  }

  lemma ZoneLessTransitive(a: Zone, b: Zone, c: Zone)
    requires ZoneLess(a, b) && ZoneLess(b, c)
    ensures ZoneLess(a, c)
  {
    ZonesTransitive(a, b, c);
  }
}
