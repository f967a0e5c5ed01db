/**
 Canonical DNS name order (section 6.1 of RFC 4034): names are compared label by
 label from the right, labels octet by octet from the left, up to ASCII case.
 */
module Canon {
  import opened Wire
  import opened DnsName

  // ---------------------------------------------------------------- reference

  function CompareLabels(a: Label, b: Label): int {
    if a == [] then (if b == [] then 0 else -1)
    else if b == [] then 1
    else if Lower(a[0]) != Lower(b[0]) then Lower(a[0]) - Lower(b[0])
    else CompareLabels(a[1..], b[1..])
  }

  function Last<T>(s: seq<T>): T
    requires s != []
  {
    s[|s| - 1]
  }

  function Init<T>(s: seq<T>): seq<T>
    requires s != []
  {
    s[..|s| - 1]
  }

  function CompareNames(a: Name, b: Name): int {
    if a == [] then (if b == [] then 0 else -1)
    else if b == [] then 1
    else if CompareLabels(Last(a), Last(b)) != 0 then CompareLabels(Last(a), Last(b))
    else CompareNames(Init(a), Init(b))
  }

  /** x sorts before y: they agree up to octet j, where x ends or has the smaller octet. */
  ghost predicate LabelBeforeAt(x: Label, y: Label, j: nat) {
    && j <= |x| && j < |y|
    && LowerAll(x[..j]) == LowerAll(y[..j])
    && (j == |x| || Lower(x[j]) < Lower(y[j]))
  }

  ghost predicate LabelBefore(x: Label, y: Label) {
    exists j: nat :: LabelBeforeAt(x, y, j)
  }

  /** a sorts before b: their last k labels agree, and there a ends or has the smaller label. */
  ghost predicate NameBeforeAt(a: Name, b: Name, k: nat) {
    && k <= |a| && k < |b|
    && SameName(a[|a| - k..], b[|b| - k..])
    && (k == |a| || LabelBefore(a[|a| - 1 - k], b[|b| - 1 - k]))
  }

  ghost predicate NameBefore(a: Name, b: Name) {
    exists k: nat :: NameBeforeAt(a, b, k)
  }

  // ---------------------------------------------------------------- the code

  /** pdns_ilexicographical_compare_three_way */
  method ILexCompare(a: seq<Byte>, b: seq<Byte>) returns (r: int)
    ensures r == CompareLabels(a, b)
  {
    var i := 0;
    assert a[0..] == a && b[0..] == b;
    while i != |a| && i != |b|
      invariant 0 <= i <= |a| && i <= |b|
      invariant CompareLabels(a, b) == CompareLabels(a[i..], b[i..])
      decreases |a| - i
    {
      if a[i] != b[i] {
        var rc := Lower(a[i]) - Lower(b[i]);
        if rc != 0 { return rc; }
      }
      assert a[i..][1..] == a[i + 1..] && b[i..][1..] == b[i + 1..];
      i := i + 1;
    }
    if i == |a| {
      if i != |b| { return -1; }
    } else {
      return 1;
    }
    return 0;
  }

  lemma CompareStep(a: Name, b: Name, i: nat, j: nat)
    requires 0 < i <= |a| && 0 < j <= |b|
    ensures CompareNames(a[..i], b[..j]) ==
            var d := CompareLabels(a[i - 1], b[j - 1]);
            if d != 0 then d else CompareNames(a[..i - 1], b[..j - 1])
  {
    assert Init(a[..i]) == a[..i - 1] && Init(b[..j]) == b[..j - 1];
  }

  /** slowCanonCompare_three_way: over the two label lists. */
  method SlowCanonCompare(us: DNSName, rhs: DNSName) returns (r: int)
    requires us.Valid() && rhs.Valid()
    ensures r == CompareNames(NameOf(us.storage), NameOf(rhs.storage))
  {
    var a := us.GetRawLabels();
    var b := rhs.GetRawLabels();
    var i, j := |a|, |b|;
    assert a[..i] == a && b[..j] == b;
    while i != 0 && j != 0
      invariant 0 <= i <= |a| && 0 <= j <= |b|
      invariant CompareNames(a, b) == CompareNames(a[..i], b[..j])
    {
      var res := ILexCompare(a[i - 1], b[j - 1]);
      CompareStep(a, b, i, j);
      if res != 0 { return res; }
      i := i - 1;
      j := j - 1;
    }
    if i == 0 {
      if j != 0 { return -1; }
    } else {
      return 1;
    }
    return 0;
  }

  /** The label whose length byte is at position p. */
  method LabelView(s: seq<Byte>, p: Byte, ghost i: nat) returns (l: Label)
    requires StorageOk(s) && i < |NameOf(s)| && p == Offset(NameOf(s), i)
    ensures l == NameOf(s)[i]
  {
    WalkStep(s, i);
    var length := s[p];
    l := s[p + 1..p + 1 + length];
  }

  /**
   canonCompare_three_way with `pretty` off: offsets of up to 64 labels are collected and
   the labels compared in place; with 64 labels or more the slow form decides.
   */
  method CanonCompare(us: DNSName, rhs: DNSName) returns (r: int)
    requires us.Valid() && rhs.Valid()
    ensures r == CompareNames(NameOf(us.storage), NameOf(rhs.storage))
  {
    var s, t := us.storage, rhs.storage;
    var ourpos := WalkLabels(s, 64);
    var rhspos := WalkLabels(t, 64);
    if |ourpos| == 64 || |rhspos| == 64 {
      r := SlowCanonCompare(us, rhs);
      return;
    }
    ghost var a, b := NameOf(s), NameOf(t);
    var ourcount, rhscount := |ourpos|, |rhspos|;
    assert a[..ourcount] == a && b[..rhscount] == b;
    while true
      invariant 0 <= ourcount <= |a| && 0 <= rhscount <= |b|
      invariant CompareNames(a, b) == CompareNames(a[..ourcount], b[..rhscount])
      decreases ourcount
    {
      if ourcount == 0 && rhscount != 0 { return -1; }
      if rhscount == 0 { return if ourcount == 0 then 0 else 1; }
      CompareStep(a, b, ourcount, rhscount);
      ourcount := ourcount - 1;
      rhscount := rhscount - 1;
      var ourstr := LabelView(s, ourpos[ourcount], ourcount);
      var rhsstr := LabelView(t, rhspos[rhscount], rhscount);
      var res := ILexCompare(ourstr, rhsstr);
      if res != 0 { return res; }
    }
  }

  // ---------------------------------------------------------------- labels are totally ordered

  lemma {:induction false} LabelsAntisymmetric(a: Label, b: Label)
    ensures CompareLabels(a, b) == -CompareLabels(b, a)
  {
    if a != [] && b != [] && Lower(a[0]) == Lower(b[0]) {
      LabelsAntisymmetric(a[1..], b[1..]);
    }
  }

  lemma {:induction false} LabelsZero(a: Label, b: Label)
    ensures CompareLabels(a, b) == 0 <==> LowerAll(a) == LowerAll(b)
  {
    if a != [] && b != [] {
      LabelsZero(a[1..], b[1..]);
      assert LowerAll(a) == [Lower(a[0])] + LowerAll(a[1..]);
      assert LowerAll(b) == [Lower(b[0])] + LowerAll(b[1..]);
    }
  }

  lemma {:induction false} LabelsTransitive(a: Label, b: Label, c: Label)
    requires CompareLabels(a, b) <= 0 && CompareLabels(b, c) <= 0
    ensures CompareLabels(a, c) <= 0
    ensures CompareLabels(a, c) == 0 ==> CompareLabels(a, b) == 0 && CompareLabels(b, c) == 0
  {
    if a != [] && b != [] && c != [] && Lower(a[0]) == Lower(b[0]) == Lower(c[0]) {
      LabelsTransitive(a[1..], b[1..], c[1..]);
    }
  }

  lemma {:induction false} LabelsDeclarative(x: Label, y: Label)
    ensures CompareLabels(x, y) < 0 <==> LabelBefore(x, y)
  {
    if x == [] || y == [] || Lower(x[0]) != Lower(y[0]) {
      if CompareLabels(x, y) < 0 {
        assert x[..0] == y[..0];
        assert LabelBeforeAt(x, y, 0);
      }
    } else {
      LabelsDeclarative(x[1..], y[1..]);
      if j: nat :| LabelBeforeAt(x[1..], y[1..], j) {
        LabelBeforeShift(x, y, j);
      }
      if j: nat :| LabelBeforeAt(x, y, j) {
        assert j > 0;
        LabelBeforeShift(x, y, j - 1);
      }
    }
  }

  lemma LabelBeforeShift(x: Label, y: Label, j: nat)
    requires x != [] && y != [] && Lower(x[0]) == Lower(y[0])
    ensures LabelBeforeAt(x[1..], y[1..], j) <==> LabelBeforeAt(x, y, j + 1)
  {
    if j + 1 <= |x| && j + 1 < |y| {
      assert x[..j + 1] == [x[0]] + x[1..][..j] && y[..j + 1] == [y[0]] + y[1..][..j];
      assert LowerAll(x[..j + 1]) == [Lower(x[0])] + LowerAll(x[1..][..j]);
      assert LowerAll(y[..j + 1]) == [Lower(y[0])] + LowerAll(y[1..][..j]);
    }
  }

  // ---------------------------------------------------------------- names are totally ordered

  lemma {:induction false} NamesAntisymmetric(a: Name, b: Name)
    ensures CompareNames(a, b) == -CompareNames(b, a)
  {
    if a != [] && b != [] {
      LabelsAntisymmetric(Last(a), Last(b));
      NamesAntisymmetric(Init(a), Init(b));
    }
  }

  lemma SameNameLast(a: Name, b: Name)
    requires a != [] && b != []
    ensures SameName(a, b) <==> LowerAll(Last(a)) == LowerAll(Last(b)) && SameName(Init(a), Init(b))
  {
    assert LowerName(a) == LowerName(Init(a)) + [LowerAll(Last(a))];
    assert LowerName(b) == LowerName(Init(b)) + [LowerAll(Last(b))];
  }

  /** Zero exactly when operator== holds between set names. */
  lemma {:induction false} NamesZero(a: Name, b: Name)
    ensures CompareNames(a, b) == 0 <==> SameName(a, b)
  {
    if a != [] && b != [] {
      LabelsZero(Last(a), Last(b));
      NamesZero(Init(a), Init(b));
      SameNameLast(a, b);
    } else {
      assert |LowerName(a)| == |a| && |LowerName(b)| == |b|;
    }
  }

  lemma {:induction false} NamesTransitive(a: Name, b: Name, c: Name)
    requires CompareNames(a, b) <= 0 && CompareNames(b, c) <= 0
    ensures CompareNames(a, c) <= 0
    ensures CompareNames(a, c) == 0 ==> CompareNames(a, b) == 0 && CompareNames(b, c) == 0
  {
    if a != [] && b != [] && c != [] {
      LabelsTransitive(Last(a), Last(b), Last(c));
      if CompareLabels(Last(a), Last(c)) == 0 {
        NamesTransitive(Init(a), Init(b), Init(c));
      }
    }
  }

  /** The comparison function is the order that RFC 4034 words. */
  lemma {:induction false} NamesDeclarative(a: Name, b: Name)
    ensures CompareNames(a, b) < 0 <==> NameBefore(a, b)
  {
    if a == [] || b == [] {
      if b != [] {
        assert a[|a| - 0..] == b[|b| - 0..];
        assert NameBeforeAt(a, b, 0);
      }
    } else {
      LabelsZero(Last(a), Last(b));
      LabelsDeclarative(Last(a), Last(b));
      assert a[|a| - 0..] == [] && b[|b| - 0..] == [];
      assert NameBeforeAt(a, b, 0) <==> LabelBefore(Last(a), Last(b));
      NamesDeclarative(Init(a), Init(b));
      if LowerAll(Last(a)) == LowerAll(Last(b)) {
        if k: nat :| NameBeforeAt(Init(a), Init(b), k) {
          NameBeforeShift(a, b, k);
        }
      }
      if k: nat :| NameBeforeAt(a, b, k) {
        if k > 0 { NameBeforeShift(a, b, k - 1); }
      }
    }
  }

  lemma NameBeforeShift(a: Name, b: Name, k: nat)
    requires a != [] && b != []
    ensures NameBeforeAt(a, b, k + 1) <==>
            LowerAll(Last(a)) == LowerAll(Last(b)) && NameBeforeAt(Init(a), Init(b), k)
  {
    hide SameName, LabelBefore;
    if k + 1 <= |a| && k + 1 < |b| {
      var x, y := a[|a| - (k + 1)..], b[|b| - (k + 1)..];
      assert Init(x) == Init(a)[|Init(a)| - k..] && Init(y) == Init(b)[|Init(b)| - k..];
      SameNameLast(x, y);
    }
  }

  // ---------------------------------------------------------------- intervals

  lemma PartOfLast(n: Name, z: Name)
    requires n != [] && z != []
    ensures PartOf(n, z) <==> LowerAll(Last(n)) == LowerAll(Last(z)) && PartOf(Init(n), Init(z))
  {
    if |z| <= |n| {
      var x := n[|n| - |z|..];
      assert Init(x) == Init(n)[|Init(n)| - |Init(z)|..];
      SameNameLast(x, z);
    }
  }

  /** A name sorts first among everything below it. */
  lemma {:induction false} SuffixFirst(n: Name, z: Name)
    requires PartOf(n, z)
    ensures CompareNames(z, n) <= 0
  {
    if z != [] {
      PartOfLast(n, z);
      LabelsZero(Last(z), Last(n));
      SuffixFirst(Init(n), Init(z));
    }
  }

  /** What lies between a suffix and one of its members is a member. */
  lemma {:induction false} SuffixInterval(z: Name, x: Name, y: Name)
    requires CompareNames(z, x) <= 0 && CompareNames(x, y) <= 0 && PartOf(y, z)
    ensures PartOf(x, z)
  {
    if z != [] {
      PartOfLast(y, z);
      LabelsZero(Last(y), Last(z));
      LabelsZero(Last(x), Last(z));
      LabelsTransitive(Last(x), Last(y), Last(z));
      LabelsAntisymmetric(Last(x), Last(z));
      LabelsAntisymmetric(Last(y), Last(z));
      PartOfLast(x, z);
      LabelsTransitive(Last(z), Last(x), Last(y));
      SuffixInterval(Init(z), Init(x), Init(y));
    }
  }
}
