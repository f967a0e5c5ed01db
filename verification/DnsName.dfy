/**
 DNSName: one byte string edited in place.

 Every method is proved against the label list of the string.  Methods that throw
 leave the object as it was.
 */
module DnsName {
  import opened Results
  import opened Wire

  /** Where label i of n starts in Encode(n). */
  function Offset(n: Name, i: nat): nat
    requires i <= |n|
  {
    Octets(n[..i])
  }

  /** makeRelative on label lists: n without its last |z| labels. */
  function Relative(n: Name, z: Name): Name
    requires |z| <= |n|
  {
    n[..|n| - |z|]
  }

  lemma SplitBytes(n: Name, i: nat)
    requires LabelsOk(n) && i <= |n|
    ensures LabelsOk(n[..i]) && LabelsOk(n[i..])
    ensures Body(n) == Body(n[..i]) + Body(n[i..])
    ensures Octets(n) == Offset(n, i) + Octets(n[i..])
  {
    var a, b := n[..i], n[i..];
    assert LabelsOk(a) && LabelsOk(b);
    assert a + b == n;
    BodyConcat(a, b);
    OctetsConcat(a, b);
  }

  lemma NextOffset(n: Name, i: nat)
    requires i < |n|
    ensures Offset(n, i + 1) == Offset(n, i) + 1 + |n[i]|
  {
    assert n[..i + 1] == n[..i] + [n[i]];
    OctetsConcat(n[..i], [n[i]]);
    assert Octets([n[i]]) == 1 + |n[i]|;
  }

  lemma SuffixBytes(n: Name, i: nat)
    requires LabelsOk(n) && i <= |n|
    ensures LabelsOk(n[..i]) && LabelsOk(n[i..])
    ensures |Encode(n)| == Offset(n, i) + |Encode(n[i..])|
    ensures Encode(n)[..Offset(n, i)] == Body(n[..i])
    ensures Encode(n)[Offset(n, i)..] == Encode(n[i..])
  {
    SplitBytes(n, i);
    assert Encode(n) == Body(n[..i]) + Encode(n[i..]);
    SplitConcat(Body(n[..i]), Encode(n[i..]));
  }

  lemma LabelBytes(n: Name, i: nat)
    requires LabelsOk(n) && i < |n|
    ensures Offset(n, i + 1) == Offset(n, i) + 1 + |n[i]| < |Encode(n)|
    ensures Encode(n)[Offset(n, i)] == |n[i]|
    ensures Encode(n)[Offset(n, i) + 1..Offset(n, i) + 1 + |n[i]|] == n[i]
  {
    NextOffset(n, i);
    SuffixBytes(n, i);
    UnfoldEncode(n[i..]);
    InnerSlice(Encode(n), Offset(n, i), 1, 1 + |n[i]|);
  }

  lemma InnerSlice<T>(s: seq<T>, p: nat, i: nat, j: nat)
    requires p <= |s| && i <= j <= |s| - p
    ensures s[p..][i..j] == s[p + i..p + j]
    ensures i < |s| - p ==> s[p..][i] == s[p + i]
    ensures 0 < |s| - p ==> s[p..][0] == s[p]
  {
  }

  /** What one step of a walk over the storage string finds at label i. */
  lemma WalkStep(s: seq<Byte>, i: nat)
    requires Walks(s) && i <= |Labels(s)|
    ensures Offset(Labels(s), i) < |s|
    ensures i == |Labels(s)| ==> s[Offset(Labels(s), i)] == 0 && Offset(Labels(s), i) == |s| - 1
    ensures i < |Labels(s)| ==>
              var n, p := Labels(s), Offset(Labels(s), i);
              && 1 <= s[p] == |n[i]| <= MAX_LABEL_LENGTH
              && Offset(n, i + 1) == p + 1 + s[p] < |s|
              && s[p + 1..p + 1 + s[p]] == n[i]
  {
    var n := Labels(s);
    LabelsThenEncode(s);
    if i == |n| {
      assert n[..i] == n;
    } else {
      LabelBytes(n, i);
    }
  }

  /**
   The label walk of RawLabelsVisitor and of the canonical comparison: start offsets of
   the first labels, at most `limit` of them.  Offsets fit in eight bits.
   */
  method WalkLabels(s: seq<Byte>, limit: nat) returns (pos: seq<Byte>)
    requires StorageOk(s)
    ensures |pos| == if |NameOf(s)| <= limit then |NameOf(s)| else limit
    ensures forall i :: 0 <= i < |pos| ==> pos[i] == Offset(NameOf(s), i)
    ensures |pos| <= 127
  {
    pos := [];
    if s == [] { return; }
    ghost var n := Labels(s);
    WalkBound(s);
    var p := 0;
    while p < |s| && s[p] != 0 && |pos| < limit
      invariant |pos| <= |n| && |pos| <= limit
      invariant p == Offset(n, |pos|)
      invariant forall i :: 0 <= i < |pos| ==> pos[i] == Offset(n, i)
      decreases |s| - p
    {
      WalkStep(s, |pos|);
      pos := pos + [p];
      p := p + s[p] + 1;
    }
    WalkStep(s, |pos|);
  }

  lemma WalkBound(s: seq<Byte>)
    requires Walks(s)
    ensures 2 * |Labels(s)| + 1 <= |s|
  {
    LabelsThenEncode(s);
    LabelCountBound(Labels(s));
  }

  /** The byte loop of isPartOf and operator==: does s from position us on equal p up to case? */
  method EqualFrom(s: seq<Byte>, us: nat, p: seq<Byte>) returns (r: bool)
    requires us <= |s| && |s| - us == |p|
    ensures r <==> LowerAll(s[us..]) == LowerAll(p)
  {
    var j := 0;
    while us + j < |s|
      invariant 0 <= j <= |p|
      invariant forall k :: 0 <= k < j ==> Lower(p[k]) == Lower(s[us + k])
    {
      if Lower(p[j]) != Lower(s[us + j]) {
        assert LowerAll(p)[j] != LowerAll(s[us..])[j];
        return false;
      }
      j := j + 1;
    }
    assert LowerAll(p) == LowerAll(s[us..]);
    return true;
  }

  /** Label lengths are tested after truncation to eight bits. */
  predicate LengthAccepted(length: nat) {
    1 <= length % 256 <= MAX_LABEL_LENGTH
  }

  class DNSName {
    var storage: seq<Byte>

    ghost predicate Valid()
      reads this
    {
      StorageOk(storage)
    }

    constructor ()
      ensures Valid() && storage == []
    {
      storage := [];
    }

    /** getRawLabels */
    method GetRawLabels() returns (ret: Name)
      requires Valid()
      ensures ret == NameOf(storage)
    {
      ret := [];
      var s := storage;
      if s == [] { return; }
      ghost var n := Labels(s);
      var p := 0;
      while p < |s| && s[p] != 0
        invariant |ret| <= |n| && ret == n[..|ret|]
        invariant p == Offset(n, |ret|)
        decreases |s| - p
      {
        WalkStep(s, |ret|);
        ret := ret + [s[p + 1..p + 1 + s[p]]];
        p := p + s[p] + 1;
      }
      WalkStep(s, |ret|);
    }

    /** isPartOf: an unset name on either side throws; label lengths above 63 would throw too. */
    method IsPartOf(parent: DNSName) returns (r: Result<bool>)
      requires Valid() && parent.Valid()
      ensures r.Thrown? <==> storage == [] || parent.storage == []
      ensures r.Ok? ==> (r.value <==> PartOf(NameOf(storage), NameOf(parent.storage)))
    {
      if parent.storage == [] || storage == [] { return Thrown; }
      var p, s := parent.storage, storage;
      ghost var n, z := Labels(s), Labels(p);
      if PartOf(n, z) { SuffixSize(s, p); }
      if |p| > |s| { return Ok(false); }
      var us := 0;
      ghost var i := 0;
      while us < |s|
        invariant 0 <= i <= |n| && us == Offset(n, i) < |s|
        invariant PartOf(n, z) ==> i <= |n| - |z|
        decreases |s| - us
      {
        var distance := |s| - us;
        if distance < |p| {
          if PartOf(n, z) && i < |n| - |z| { OffsetsGrow(n, i, |n| - |z|); }
          break;
        }
        if distance == |p| {
          SuffixAtDistance(s, p, i);
          var equal := EqualFrom(s, us, p);
          return Ok(equal);
        }
        WalkStep(s, i);
        if s[us] > MAX_LABEL_LENGTH { return Thrown; }
        us := us + s[us] + 1;
        i := i + 1;
      }
      return Ok(false);
    }

    /** operator== */
    method Equals(rhs: DNSName) returns (r: bool)
      requires Valid() && rhs.Valid()
      ensures r <==> (storage == [] <==> rhs.storage == []) && SameName(NameOf(storage), NameOf(rhs.storage))
    {
      var s, t := storage, rhs.storage;
      if (t == []) != (s == []) || |t| != |s| {
        if s != [] && t != [] { SameBytesIffSameName(s, t); }
        return false;
      }
      if s != [] { SameBytesIffSameName(s, t); }
      r := EqualFrom(s, 0, t);
      assert s[0..] == s;
    }

    /** appendRawLabel: the length passes through a 32-bit parameter, the test sees eight bits. */
    method AppendRawLabel(lab: seq<Byte>) returns (r: Result<()>)
      requires Valid()
      modifies this
      ensures Valid()
      ensures var length := |lab| % 0x1_0000_0000;
              && (r.Ok? <==> 1 <= length <= MAX_LABEL_LENGTH && |old(storage)| + length <= MAX_NAME_LENGTH - 1)
              && (r.Ok? ==> storage != [] && NameOf(storage) == NameOf(old(storage)) + [lab[..length]])
      ensures r.Thrown? ==> storage == old(storage)
    {
      var length := |lab| % 0x1_0000_0000;
      if !LengthAccepted(length) { return Thrown; }
      if |storage| + length > MAX_NAME_LENGTH - 1 { return Thrown; }
      assert length <= MAX_LABEL_LENGTH;
      AppendBytes(storage, lab[..length]);
      if storage == [] {
        storage := [length];
      } else {
        storage := storage[..|storage| - 1] + [length];
      }
      storage := storage + lab[..length] + [0];
      return Ok(());
    }

    /** prependRawLabel */
    method PrependRawLabel(lab: seq<Byte>) returns (r: Result<()>)
      requires Valid()
      modifies this
      ensures Valid()
      ensures r.Ok? <==> 1 <= |lab| <= MAX_LABEL_LENGTH && |old(storage)| + |lab| <= MAX_NAME_LENGTH - 1
      ensures r.Ok? ==> storage != [] && NameOf(storage) == [lab] + NameOf(old(storage))
      ensures r.Thrown? ==> storage == old(storage)
    {
      if !LengthAccepted(|lab|) { return Thrown; }
      if |storage| + |lab| > MAX_NAME_LENGTH - 1 { return Thrown; }
      assert |lab| <= MAX_LABEL_LENGTH;
      if storage == [] {
        storage := [0];
      }
      PrependBytes(storage, lab);
      storage := [|lab|] + lab + storage;
      return Ok(());
    }

    /** chopOff */
    method ChopOff() returns (chopped: bool)
      requires Valid()
      modifies this
      ensures Valid()
      ensures chopped <==> NameOf(old(storage)) != []
      ensures chopped ==> storage != [] && NameOf(storage) == NameOf(old(storage))[1..]
      ensures !chopped ==> storage == old(storage)
    {
      if storage == [] || storage[0] == 0 { return false; }
      storage := storage[storage[0] + 1..];
      return true;
    }

    /** operator+= */
    method Append(rhs: DNSName) returns (r: Result<()>)
      requires Valid() && rhs.Valid()
      modifies this
      ensures Valid()
      ensures r.Ok? <==> |old(storage)| + |old(rhs.storage)| <= MAX_NAME_LENGTH + 1
      ensures r.Ok? ==> (storage == [] <==> old(storage) == [] && old(rhs.storage) == [])
      ensures r.Ok? ==> NameOf(storage) == NameOf(old(storage)) + NameOf(old(rhs.storage))
      ensures r.Thrown? ==> storage == old(storage)
    {
      if |storage| + |rhs.storage| > MAX_NAME_LENGTH + 1 { return Thrown; }
      if rhs.storage == [] {
        return Ok(());
      }
      if storage == [] {
        storage := storage + rhs.storage;
        assert storage == old(rhs.storage);
      } else {
        ConcatBytes(storage, rhs.storage);
        storage := storage[..|storage| - 1] + rhs.storage;
      }
      return Ok(());
    }

    /** makeUsRelative: a name outside the zone becomes unset. */
    method MakeUsRelative(zone: DNSName) returns (r: Result<()>)
      requires Valid() && zone.Valid()
      modifies this
      ensures Valid()
      ensures r.Thrown? <==> old(storage) == [] || old(zone.storage) == []
      ensures r.Thrown? ==> storage == old(storage)
      ensures r.Ok? ==>
                var n, z := NameOf(old(storage)), NameOf(old(zone.storage));
                if PartOf(n, z) then storage != [] && NameOf(storage) == Relative(n, z) else storage == []
    {
      var part := IsPartOf(zone);
      if part.Thrown? { return Thrown; }
      if part.value {
        RelativeBytes(storage, zone.storage);
        storage := storage[..|storage| - |zone.storage|];
        storage := storage + [0];
      } else {
        storage := [];
      }
      return Ok(());
    }
  }

  // ---------------------------------------------------------------- byte-level steps

  lemma AppendBytes(s: seq<Byte>, l: Label)
    requires StorageOk(s) && 1 <= |l| <= MAX_LABEL_LENGTH && |s| + |l| <= MAX_NAME_LENGTH - 1
    ensures var t := (if s == [] then [] else s[..|s| - 1]) + [|l|] + l + [0];
            StorageOk(t) && NameOf(t) == NameOf(s) + [l]
  {
    var n := NameOf(s);
    assert LabelsOk(n) && Body(n) == (if s == [] then [] else s[..|s| - 1]) by {
      if s != [] { LabelsThenEncode(s); }
    }
    EncodeAppend(n, l);
    EncodeThenLabels(n + [l]);
  }

  lemma BodySingle(l: Label)
    requires 1 <= |l| <= MAX_LABEL_LENGTH
    ensures Body([l]) == [|l|] + l
  {
    assert [l][1..] == [];
  }

  lemma EncodeAppend(n: Name, l: Label)
    requires LabelsOk(n) && 1 <= |l| <= MAX_LABEL_LENGTH
    ensures LabelsOk(n + [l]) && Encode(n + [l]) == Body(n) + [|l|] + l + [0]
  {
    var b := [|l|] + l;
    assert Body(n + [l]) == Body(n) + b by { BodyConcat(n, [l]); BodySingle(l); }
    assert Body(n) + b + [0] == Body(n) + [|l|] + l + [0];
  }

  lemma PrependBytes(s: seq<Byte>, l: Label)
    requires Walks(s) && 1 <= |l| <= MAX_LABEL_LENGTH
    ensures Walks([|l|] + l + s) && Labels([|l|] + l + s) == [l] + Labels(s)
  {
    SplitConcat([|l|] + l, s);
    assert ([|l|] + l + s)[1..|l| + 1] == l;
  }

  lemma ConcatBytes(s: seq<Byte>, t: seq<Byte>)
    requires Walks(s) && Walks(t)
    ensures Walks(s[..|s| - 1] + t) && Labels(s[..|s| - 1] + t) == Labels(s) + Labels(t)
  {
    LabelsThenEncode(s);
    LabelsThenEncode(t);
    BodyConcat(Labels(s), Labels(t));
    EncodeThenLabels(Labels(s) + Labels(t));
    assert s[..|s| - 1] + t == Encode(Labels(s) + Labels(t));
  }

  lemma OffsetsGrow(n: Name, i: nat, j: nat)
    requires i < j <= |n|
    ensures Offset(n, i) < Offset(n, j)
  {
    assert n[..j] == n[..i] + n[i..j];
    OctetsConcat(n[..i], n[i..j]);
  }

  lemma OffsetInjective(n: Name, i: nat, k: nat)
    requires i <= |n| && k <= |n| && Offset(n, i) == Offset(n, k)
    ensures i == k
  {
    if i < k { OffsetsGrow(n, i, k); } else if k < i { OffsetsGrow(n, k, i); }
  }

  /** The string from the start of label i on is the name from label i on. */
  lemma SuffixNamed(s: seq<Byte>, i: nat)
    requires Walks(s) && i <= |Labels(s)|
    ensures Offset(Labels(s), i) <= |s| && |s| - Offset(Labels(s), i) == Octets(Labels(s)[i..]) + 1
    ensures Walks(s[Offset(Labels(s), i)..]) && Labels(s[Offset(Labels(s), i)..]) == Labels(s)[i..]
  {
    var n := Labels(s);
    LabelsThenEncode(s);
    SuffixBytes(n, i);
    EncodeThenLabels(n[i..]);
  }

  /** A suffix that is p up to case takes exactly as many octets as p. */
  lemma SuffixSize(s: seq<Byte>, p: seq<Byte>)
    requires Walks(s) && Walks(p) && PartOf(Labels(s), Labels(p))
    ensures |s| - Offset(Labels(s), |Labels(s)| - |Labels(p)|) == |p|
  {
    hide Walks, Labels, Encode, Octets, Offset, SameName;
    var k := |Labels(s)| - |Labels(p)|;
    SuffixNamed(s, k);
    SameNameSameLength(Labels(s)[k..], Labels(p));
    LabelsThenEncode(p);
  }

  /** At the one label start with |p| octets to go, equal bytes mean that s is part of p. */
  lemma SuffixAtDistance(s: seq<Byte>, p: seq<Byte>, i: nat)
    requires Walks(s) && Walks(p) && i <= |Labels(s)|
    requires Offset(Labels(s), i) <= |s| && |s| - Offset(Labels(s), i) == |p|
    ensures LowerAll(s[Offset(Labels(s), i)..]) == LowerAll(p) <==> PartOf(Labels(s), Labels(p))
  {
    SuffixNamed(s, i);
    SameBytesIffSameName(s[Offset(Labels(s), i)..], p);
    LabelsThenEncode(p);
    PartOfAt(Labels(s), Labels(p), i);
  }

  lemma SameSizeSameLabels(a: Name, b: Name)
    ensures SameName(a, b) ==> |a| == |b|
  {
    if SameName(a, b) { assert |a| == |LowerName(a)| == |b|; }
  }

  lemma PartOfAt(n: Name, z: Name, i: nat)
    requires i <= |n| && Octets(n[i..]) == Octets(z)
    ensures SameName(n[i..], z) <==> PartOf(n, z)
  {
    hide SameName, Octets;
    SameSizeSameLabels(n[i..], z);
    if PartOf(n, z) {
      var k := |n| - |z|;
      SameNameSameLength(n[k..], z);
      assert n == n[..k] + n[k..] == n[..i] + n[i..];
      OctetsConcat(n[..k], n[k..]);
      OctetsConcat(n[..i], n[i..]);
      OffsetInjective(n, i, k);
    }
  }

  lemma RelativeBytes(s: seq<Byte>, p: seq<Byte>)
    requires Walks(s) && Walks(p) && |s| <= MAX_NAME_LENGTH && PartOf(Labels(s), Labels(p))
    ensures |p| <= |s|
    ensures var t := s[..|s| - |p|] + [0];
            StorageOk(t) && NameOf(t) == Relative(Labels(s), Labels(p))
  {
    hide Walks, Labels, Octets, Body, SameName;
    var n, k := Labels(s), |Labels(s)| - |Labels(p)|;
    SuffixSize(s, p);
    LabelsThenEncode(s);
    SuffixBytes(n, k);
    EncodeThenLabels(n[..k]);
  }

  // ---------------------------------------------------------------- algebra

  /** Going relative and appending the zone again gives the name back, up to case. */
  lemma RelativeInvertsConcat(n: Name, z: Name)
    requires ValidName(n) && ValidName(z) && PartOf(n, z)
    ensures SameName(Relative(n, z) + z, n)
    ensures ValidName(Relative(n, z) + z)
    ensures |Encode(Relative(n, z))| + |Encode(z)| <= MAX_NAME_LENGTH + 1
  {
    var r, k := Relative(n, z), |n| - |z|;
    LowerConcat(r, z);
    LowerConcat(r, n[k..]);
    assert r + n[k..] == n;
    SameNameSameLength(r + z, n);
    OctetsConcat(r, z);
  }

  /** Concatenation lands inside the zone, and going relative takes the prefix back out. */
  lemma ConcatInvertsRelative(r: Name, z: Name)
    ensures PartOf(r + z, z) && Relative(r + z, z) == r
  {
    assert (r + z)[|r|..] == z;
  }
}
