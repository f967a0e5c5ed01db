/**
 Octets, labels and names.

 A DNSName keeps its labels in one byte string: every label is preceded by its
 length and the string ends with a zero byte (`3www8powerdns3com0`).  This module
 reads such a string as a list of labels and shows that the reading is a
 bijection, so that every later module may argue about label lists.
 */
module Wire {

  type Byte = b: int | 0 <= b < 256
  type Label = seq<Byte>

  /** Labels in writing order; the root is the empty list. */
  type Name = seq<Label>

  const MAX_NAME_LENGTH := 255
  const MAX_LABEL_LENGTH := 63

  /** dns_tolower: ASCII letters only. */
  function Lower(b: Byte): Byte {
    if 65 <= b <= 90 then b + 32 else b
  }

  function LowerAll(s: seq<Byte>): (r: seq<Byte>)
    ensures |r| == |s|
    ensures forall i :: 0 <= i < |s| ==> r[i] == Lower(s[i])
  {
    seq(|s|, i requires 0 <= i < |s| => Lower(s[i]))
  }

  function LowerName(n: Name): (r: Name)
    ensures |r| == |n|
    ensures forall i :: 0 <= i < |n| ==> r[i] == LowerAll(n[i])
  {
    seq(|n|, i requires 0 <= i < |n| => LowerAll(n[i]))
  }

  /** Two names are the same name when they agree up to ASCII case. */
  predicate SameName(a: Name, b: Name) {
    LowerName(a) == LowerName(b)
  }

  /** n is z itself or below z, up to ASCII case. */
  predicate PartOf(n: Name, z: Name) {
    |z| <= |n| && SameName(n[|n| - |z|..], z)
  }

  predicate LabelsOk(n: Name) {
    forall i :: 0 <= i < |n| ==> 1 <= |n[i]| <= MAX_LABEL_LENGTH
  }

  /** Octets of the labels with their length bytes. */
  function Octets(n: Name): nat {
    if n == [] then 0 else 1 + |n[0]| + Octets(n[1..])
  }

  /** Octets a name needs on the wire, the final zero included. */
  function WireLength(n: Name): nat {
    Octets(n) + 1
  }

  predicate ValidName(n: Name) {
    LabelsOk(n) && WireLength(n) <= MAX_NAME_LENGTH
  }

  /** The labels with their length bytes, without the final zero. */
  function Body(n: Name): (r: seq<Byte>)
    requires LabelsOk(n)
    ensures |r| == Octets(n)
  {
    if n == [] then [] else [|n[0]|] + n[0] + Body(n[1..])
  }

  function Encode(n: Name): seq<Byte>
    requires LabelsOk(n)
  {
    Body(n) + [0]
  }

  /** Following the length bytes of s reaches a zero byte exactly at its end. */
  predicate Walks(s: seq<Byte>)
    decreases |s|
  {
    && |s| > 0
    && if s[0] == 0 then |s| == 1
       else s[0] <= MAX_LABEL_LENGTH && s[0] + 1 < |s| && Walks(s[s[0] + 1..])
  }

  function Labels(s: seq<Byte>): Name
    requires Walks(s)
    decreases |s|
  {
    if s[0] == 0 then [] else [s[1..s[0] + 1]] + Labels(s[s[0] + 1..])
  }

  /** The storage invariant; an empty string is an unset name. */
  predicate StorageOk(s: seq<Byte>) {
    s == [] || (Walks(s) && |s| <= MAX_NAME_LENGTH)
  }

  /** The labels of a storage string, none for an unset name. */
  function NameOf(s: seq<Byte>): Name
    requires StorageOk(s)
  {
    if s == [] then [] else Labels(s)
  }

  // ---------------------------------------------------------------- case

  /** Octets fold together iff they are equal or the two cases of one ASCII letter; the fold is the lower one. */
  lemma LowerFolds(a: Byte, b: Byte)
    ensures Lower(a) == Lower(b) <==> a == b || (65 <= a <= 90 && b == a + 32) || (65 <= b <= 90 && a == b + 32)
    ensures Lower(a) >= a && Lower(Lower(a)) == Lower(a)
  {
  }

  predicate SameLabel(a: Label, b: Label) {
    && |a| == |b|
    && forall k :: 0 <= k < |a| ==>
         var x, y := a[k], b[k];
         x == y || (65 <= x <= 90 && y == x + 32) || (65 <= y <= 90 && x == y + 32)
  }

  lemma LabelFolds(a: Label, b: Label)
    ensures LowerAll(a) == LowerAll(b) <==> SameLabel(a, b)
  {
    var x, y := LowerAll(a), LowerAll(b);
    assert x == y <==> |x| == |y| && forall k :: 0 <= k < |x| ==> x[k] == y[k];
    forall k | 0 <= k < |a| && k < |b| ensures x[k] == y[k] <==> Lower(a[k]) == Lower(b[k]) {
      LowerFolds(a[k], b[k]);
    }
  }

  /** Names are the same iff they have the same labels, octet by octet up to the case of ASCII letters. */
  lemma SameNameMeans(a: Name, b: Name)
    ensures SameName(a, b) <==> |a| == |b| && forall i :: 0 <= i < |a| ==> SameLabel(a[i], b[i])
  {
    hide SameLabel, LowerAll;
    var x, y := LowerName(a), LowerName(b);
    assert x == y <==> |x| == |y| && forall i :: 0 <= i < |x| ==> x[i] == y[i];
    forall i | 0 <= i < |a| && i < |b| ensures x[i] == y[i] <==> SameLabel(a[i], b[i]) {
      LabelFolds(a[i], b[i]);
    }
  }

  // ---------------------------------------------------------------- bijection

  lemma SplitConcat<T>(a: seq<T>, b: seq<T>)
    ensures (a + b)[..|a|] == a && (a + b)[|a|..] == b
  {
  }

  lemma UnfoldEncode(n: Name)
    requires LabelsOk(n) && n != []
    ensures var s, k := Encode(n), |n[0]|;
            s[0] == k && k + 1 < |s| && s[1..k + 1] == n[0] && s[k + 1..] == Encode(n[1..])
  {
    var k, t := |n[0]|, Encode(n[1..]);
    assert Encode(n) == ([k] + n[0]) + t;
    SplitConcat([k] + n[0], t);
    assert Encode(n)[1..k + 1] == ([k] + n[0])[1..];
  }

  lemma {:induction false} EncodeThenLabels(n: Name)
    requires LabelsOk(n)
    ensures Walks(Encode(n)) && Labels(Encode(n)) == n && |Encode(n)| == WireLength(n)
  {
    hide Body;
    if n != [] {
      EncodeThenLabels(n[1..]);
      UnfoldEncode(n);
    }
  }

  lemma {:induction false} LabelsThenEncode(s: seq<Byte>)
    requires Walks(s)
    ensures LabelsOk(Labels(s)) && Encode(Labels(s)) == s && WireLength(Labels(s)) == |s|
    decreases |s|
  {
    if s[0] != 0 {
      var l, rest := s[1..s[0] + 1], s[s[0] + 1..];
      LabelsThenEncode(rest);
      var n := Labels(s);
      assert n[0] == l && n[1..] == Labels(rest);
      assert Encode(n) == [s[0]] + l + rest;
    }
  }

  lemma {:induction false} OctetsConcat(a: Name, b: Name)
    ensures Octets(a + b) == Octets(a) + Octets(b)
  {
    if a == [] {
      assert a + b == b;
    } else {
      assert (a + b)[1..] == a[1..] + b;
      OctetsConcat(a[1..], b);
    }
  }

  lemma {:induction false} BodyConcat(a: Name, b: Name)
    requires LabelsOk(a) && LabelsOk(b)
    ensures LabelsOk(a + b) && Body(a + b) == Body(a) + Body(b)
  {
    if a == [] {
      assert a + b == b;
    } else {
      var c, head := a + b, [|a[0]|] + a[0];
      assert c[0] == a[0] && c[1..] == a[1..] + b;
      BodyConcat(a[1..], b);
      assert Body(c) == head + (Body(a[1..]) + Body(b)) == (head + Body(a[1..])) + Body(b);
    }
  }

  /** Every label takes two octets at least, so at most 127 labels fit in 255 octets. */
  lemma {:induction false} LabelCountBound(n: Name)
    requires LabelsOk(n)
    ensures Octets(n) >= 2 * |n|
    ensures ValidName(n) ==> |n| <= 127
  {
    if n != [] {
      LabelCountBound(n[1..]);
    }
  }

  // ---------------------------------------------------------------- case

  lemma LowerIdempotent(n: Name)
    ensures LowerName(LowerName(n)) == LowerName(n)
  {
    forall i | 0 <= i < |n| ensures LowerAll(LowerAll(n[i])) == LowerAll(n[i]) {
    }
  }

  lemma LowerConcat(a: Name, b: Name)
    ensures LowerName(a + b) == LowerName(a) + LowerName(b)
  {
  }

  lemma LowerSlice(n: Name, i: nat, j: nat)
    requires i <= j <= |n|
    ensures LowerName(n[i..j]) == LowerName(n)[i..j]
  {
  }

  /** Length bytes are below 'A', so lower-casing the string lower-cases the labels. */
  lemma {:induction false} LowerBody(n: Name)
    requires LabelsOk(n)
    ensures LabelsOk(LowerName(n)) && LowerAll(Body(n)) == Body(LowerName(n))
  {
    if n != [] {
      LowerBody(n[1..]);
      var m := LowerName(n);
      assert m[0] == LowerAll(n[0]) && m[1..] == LowerName(n[1..]);
      assert Body(m) == [|n[0]|] + LowerAll(n[0]) + LowerAll(Body(n[1..]));
    }
  }

  lemma {:induction false} SameNameSameLength(a: Name, b: Name)
    requires SameName(a, b)
    ensures Octets(a) == Octets(b)
  {
    assert |a| == |LowerName(a)| == |b|;
    if a != [] {
      assert LowerName(a)[0] == LowerName(b)[0];
      LowerSlice(a, 1, |a|);
      LowerSlice(b, 1, |b|);
      SameNameSameLength(a[1..], b[1..]);
    }
  }

  lemma LowerEncode(n: Name)
    requires LabelsOk(n)
    ensures LabelsOk(LowerName(n)) && LowerAll(Encode(n)) == Encode(LowerName(n))
  {
    LowerBody(n);
  }

  /** Comparing storage bytes up to case is comparing names up to case. */
  lemma SameBytesIffSameName(s: seq<Byte>, t: seq<Byte>)
    requires Walks(s) && Walks(t)
    ensures LowerAll(s) == LowerAll(t) <==> SameName(Labels(s), Labels(t))
  {
    LoweredLabels(s);
    LoweredLabels(t);
  }

  lemma LoweredLabels(s: seq<Byte>)
    requires Walks(s)
    ensures LabelsOk(LowerName(Labels(s))) && LowerAll(s) == Encode(LowerName(Labels(s)))
    ensures Walks(LowerAll(s)) && Labels(LowerAll(s)) == LowerName(Labels(s))
  {
    LabelsThenEncode(s);
    LowerEncode(Labels(s));
    EncodeThenLabels(LowerName(Labels(s)));
  }

  // ---------------------------------------------------------------- suffixes

  lemma PartOfTransitive(a: Name, b: Name, c: Name)
    requires PartOf(a, b) && PartOf(b, c)
    ensures PartOf(a, c)
  {
    var k := |a| - |b|;
    LowerSlice(a, k, |a|);
    LowerSlice(a, |a| - |c|, |a|);
    LowerSlice(b, |b| - |c|, |b|);
    assert LowerName(a)[|a| - |c|..] == LowerName(a)[k..][|b| - |c|..];
  }
}
