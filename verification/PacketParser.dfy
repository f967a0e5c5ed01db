/**
 Reading a possibly compressed name out of a packet (section 4.1.4 of RFC 1035).

 Reference: a name is a run of labels ended by a zero byte or by a pointer to an
 earlier run.  A pointer byte that is the last octet of the buffer ends the name.
 */
module PacketParser {
  import opened Results
  import opened Wire
  import opened DnsName

  const COMPRESSION := 0xc0

  /** The limits in force; all of them are 16-bit settings. */
  datatype Limits = Limits(maxPointersToPointers: nat, maxPointersPerName: nat, minOffset: nat) {
    ghost predicate Valid() {
      maxPointersToPointers < 0x1_0000 && maxPointersPerName < 0x1_0000 && minOffset < 0x1_0000
    }
  }

  /** Bare pointers that may still be met in this packet. */
  datatype Budget = Unlimited | Limited(left: nat) {
    predicate Covers(used: nat) {
      Limited? ==> used <= left
    }

    function Minus(used: nat): Budget
      requires Covers(used)
    {
      if Limited? then Limited(left - used) else this
    }
  }

  datatype Segment = Segment(labels: Name, stop: nat)

  // ---------------------------------------------------------------- reference

  /** The labels from pos on and the position of the zero or pointer byte behind them. */
  function ReadSegment(v: seq<Byte>, pos: nat): (r: Option<Segment>)
    ensures r.Some? ==>
              && LabelsOk(r.value.labels)
              && pos <= r.value.stop < |v|
              && (v[r.value.stop] == 0 || v[r.value.stop] >= COMPRESSION)
              && (r.value.stop == pos <==> r.value.labels == [])
              && (r.value.stop == pos <==> v[pos] == 0 || v[pos] >= COMPRESSION)
    decreases |v| - pos
  {
    if pos >= |v| then None
    else if v[pos] == 0 || v[pos] >= COMPRESSION then Some(Segment([], pos))
    else if v[pos] > MAX_LABEL_LENGTH || pos + 1 + v[pos] >= |v| then None
    else
      var rest := ReadSegment(v, pos + 1 + v[pos]);
      if rest.None? then None
      else Some(Segment([v[pos + 1..pos + 1 + v[pos]]] + rest.value.labels, rest.value.stop))
  }

  /** A pointer is followed unless it is cut off by the end of the buffer. */
  predicate Follows(v: seq<Byte>, stop: nat)
    requires stop < |v|
  {
    v[stop] != 0 && stop + 1 < |v|
  }

  function Target(v: seq<Byte>, stop: nat): nat
    requires stop < |v| && v[stop] >= COMPRESSION && stop + 1 < |v|
  {
    (v[stop] - COMPRESSION) * 256 + v[stop + 1]
  }

  /** The decompressed name: pointers may only lead to before the segment that holds them. */
  function Decompress(v: seq<Byte>, start: nat): (r: Option<Name>)
    ensures r.Some? ==> LabelsOk(r.value) && start < |v|
    decreases start
  {
    var seg := ReadSegment(v, start);
    if seg.None? then None
    else if !Follows(v, seg.value.stop) then Some(seg.value.labels)
    else if Target(v, seg.value.stop) >= start then None
    else
      var rest := Decompress(v, Target(v, seg.value.stop));
      if rest.None? then None else Some(seg.value.labels + rest.value)
  }

  /** Starts of the segments a name is assembled from. */
  function Trail(v: seq<Byte>, start: nat): (r: seq<nat>)
    requires Decompress(v, start).Some?
    ensures r != [] && r[0] == start
    ensures forall i :: 0 <= i < |r| ==> r[i] < |v|
    decreases start
  {
    var stop := ReadSegment(v, start).value.stop;
    [start] + if Follows(v, stop) then Trail(v, Target(v, stop)) else []
  }

  /** 1 for a segment that is nothing but a pointer. */
  function Bare(v: seq<Byte>, start: nat): nat
    requires start < |v|
  {
    if v[start] >= COMPRESSION then 1 else 0
  }

  /** Segments that are nothing but a pointer. */
  function BarePointers(v: seq<Byte>, trail: seq<nat>): nat
    requires forall i :: 0 <= i < |trail| ==> trail[i] < |v|
  {
    if trail == [] then 0
    else Bare(v, trail[0]) + BarePointers(v, trail[1..])
  }

  /** Every bare pointer is reached with at most max bare pointers right before it, c of them already seen. */
  predicate ChainOk(v: seq<Byte>, trail: seq<nat>, c: nat, max: nat)
    requires forall i :: 0 <= i < |trail| ==> trail[i] < |v|
  {
    trail != [] ==>
      if v[trail[0]] >= COMPRESSION then c <= max && ChainOk(v, trail[1..], c + 1, max)
      else ChainOk(v, trail[1..], 0, max)
  }

  /** A trail respects the limits, depth pointers having been followed to get to it. */
  predicate TrailOk(v: seq<Byte>, trail: seq<nat>, lim: Limits, depth: nat, chain: nat, budget: Budget)
    requires forall i :: 0 <= i < |trail| ==> trail[i] < |v|
  {
    && (forall i :: 0 <= i < |trail| ==> lim.minOffset <= trail[i])
    && depth + |trail| - 1 <= lim.maxPointersPerName
    && ChainOk(v, trail, chain, lim.maxPointersToPointers)
    && budget.Covers(BarePointers(v, trail))
  }

  predicate Accepts(v: seq<Byte>, start: nat, before: Name, uncompress: bool, lim: Limits,
                    depth: nat, chain: nat, budget: Budget)
  {
    && Decompress(v, start).Some?
    && WireLength(before + Decompress(v, start).value) <= MAX_NAME_LENGTH
    && TrailOk(v, Trail(v, start), lim, depth, chain, budget)
    && (v[ReadSegment(v, start).value.stop] != 0 ==> uncompress)
  }

  /** What reading the name at start takes from the packet's pointer budget. */
  function Spent(v: seq<Byte>, start: nat): nat
    requires Decompress(v, start).Some?
  {
    BarePointers(v, Trail(v, start))
  }

  /** Octets the name takes at start: up to and including its zero byte or pointer. */
  function Consumed(v: seq<Byte>, start: nat): nat
    requires Decompress(v, start).Some?
  {
    var stop := ReadSegment(v, start).value.stop;
    stop - start + if Follows(v, stop) then 2 else 1
  }

  // ---------------------------------------------------------------- segments

  lemma {:induction false} SegmentBytes(v: seq<Byte>, pos: nat)
    requires ReadSegment(v, pos).Some?
    ensures v[pos..ReadSegment(v, pos).value.stop] == Body(ReadSegment(v, pos).value.labels)
    decreases |v| - pos
  {
    var seg := ReadSegment(v, pos).value;
    if seg.labels != [] {
      var next := pos + 1 + v[pos];
      SegmentBytes(v, next);
      assert seg.labels[1..] == ReadSegment(v, next).value.labels;
      SliceParts(v, pos, next, seg.stop);
    }
  }

  lemma SliceParts<T>(v: seq<T>, a: nat, b: nat, c: nat)
    requires a < b <= c <= |v|
    ensures v[a..c] == [v[a]] + v[a + 1..b] + v[b..c]
  {
  }

  /** One label further in a segment. */
  lemma SegmentStep(v: seq<Byte>, pos: nat)
    requires pos < |v| && 1 <= v[pos] <= MAX_LABEL_LENGTH && pos + 1 + v[pos] < |v|
    ensures ReadSegment(v, pos).Some? <==> ReadSegment(v, pos + 1 + v[pos]).Some?
    ensures ReadSegment(v, pos).Some? ==>
              var a, b := ReadSegment(v, pos).value, ReadSegment(v, pos + 1 + v[pos]).value;
              a.stop == b.stop && Octets(a.labels) == 1 + v[pos] + Octets(b.labels)
  {
    var a, b := ReadSegment(v, pos), ReadSegment(v, pos + 1 + v[pos]);
    if b.Some? {
      assert a.value.labels[1..] == b.value.labels;
    }
  }

  lemma ExtendBytes(s: seq<Byte>, more: Name)
    requires StorageOk(s) && LabelsOk(more) && Octets(NameOf(s)) + Octets(more) + 1 <= MAX_NAME_LENGTH
    ensures var t := (if s == [] then [] else s[..|s| - 1]) + Body(more) + [0];
            StorageOk(t) && NameOf(t) == NameOf(s) + more
  {
    var n := NameOf(s);
    assert LabelsOk(n) && Body(n) == (if s == [] then [] else s[..|s| - 1]) by {
      if s != [] { LabelsThenEncode(s); }
    }
    BodyConcat(n, more);
    OctetsConcat(n, more);
    EncodeThenLabels(n + more);
  }

  lemma StorageSize(s: seq<Byte>)
    requires StorageOk(s)
    ensures |s| == if s == [] then 0 else Octets(NameOf(s)) + 1
    ensures s == [] ==> Octets(NameOf(s)) == 0
  {
    if s != [] { LabelsThenEncode(s); }
  }

  /** A segment fits behind a storage string of `existing` octets. */
  predicate Fits(existing: nat, labels: Name) {
    labels != [] ==> (if existing == 0 then 0 else existing - 1) + Octets(labels) + 1 <= MAX_NAME_LENGTH
  }

  /** A segment that ends or breaks off where it starts. */
  lemma SegmentHere(v: seq<Byte>, pos: nat)
    requires pos < |v|
    ensures v[pos] == 0 || v[pos] >= COMPRESSION ==> ReadSegment(v, pos) == Some(Segment([], pos))
    ensures MAX_LABEL_LENGTH < v[pos] < COMPRESSION ==> ReadSegment(v, pos) == None
    ensures 0 < v[pos] < COMPRESSION && pos + 1 + v[pos] >= |v| ==> ReadSegment(v, pos) == None
    ensures Octets([]) == 0
  {
  }

  /** The scanning loop of parsePacketUncompressed. */
  method ScanLabels(view: seq<Byte>, start: nat, existing: nat, uncompress: bool) returns (r: Result<nat>)
    requires start < |view|
    ensures r.Ok? <==>
            var seg := ReadSegment(view, start);
            && seg.Some? && Fits(existing, seg.value.labels)
            && (view[seg.value.stop] != 0 ==> uncompress)
    ensures r.Ok? ==> r.value == ReadSegment(view, start).value.stop
  {
    hide ReadSegment, Octets, LabelsOk;
    var pos, total := start, 0;
    var forFinalLabel := if existing == 0 then 1 else 0;
    ghost var seg := ReadSegment(view, start);
    while true
      invariant start <= pos < |view| && pos == start + total
      invariant total > 0 ==> existing + total + forFinalLabel <= MAX_NAME_LENGTH
      invariant seg.Some? <==> ReadSegment(view, pos).Some?
      invariant seg.Some? ==> seg.value.stop == ReadSegment(view, pos).value.stop
      invariant seg.Some? ==> Octets(seg.value.labels) == total + Octets(ReadSegment(view, pos).value.labels)
      decreases |view| - pos
    {
      var labellen := view[pos];
      SegmentHere(view, pos);
      if labellen == 0 { break; }
      if labellen >= COMPRESSION {
        if !uncompress { return Thrown; }
        break;
      }
      if labellen >= 0x40 { return Thrown; }
      if existing + total + labellen + 1 + forFinalLabel > MAX_NAME_LENGTH {
        if pos + 1 + labellen < |view| { SegmentStep(view, pos); }
        return Thrown;
      }
      if pos + 1 + labellen >= |view| { return Thrown; }
      SegmentStep(view, pos);
      pos := pos + 1 + labellen;
      total := total + 1 + labellen;
    }
    return Ok(pos);
  }

  /** parsePacketUncompressed: appends the labels up to a zero byte or pointer. */
  method ParseUncompressed(name: DNSName, view: seq<Byte>, start: nat, uncompress: bool) returns (r: Result<nat>)
    requires name.Valid() && start < |view|
    modifies name
    ensures name.Valid()
    ensures r.Ok? <==>
            var seg := ReadSegment(view, start);
            && seg.Some? && Fits(|old(name.storage)|, seg.value.labels)
            && (view[seg.value.stop] != 0 ==> uncompress)
    ensures r.Ok? ==>
              var seg := ReadSegment(view, start).value;
              && r.value == seg.stop
              && NameOf(name.storage) == NameOf(old(name.storage)) + seg.labels
              && (name.storage == [] <==> old(name.storage) == [] && seg.labels == [])
  {
    var existing := |name.storage|;
    r := ScanLabels(view, start, existing, uncompress);
    if r.Thrown? { return; }
    var total := r.value - start;
    ghost var seg := ReadSegment(view, start).value;
    if total != 0 {
      StorageSize(name.storage);
      SegmentBytes(view, start);
      ExtendBytes(name.storage, seg.labels);
      if existing > 0 { existing := existing - 1; }
      if existing + total + 1 > MAX_NAME_LENGTH { return Thrown; }
      name.storage := name.storage[..existing] + view[start..start + total];
      name.storage := name.storage + [0];
    }
  }

  // ---------------------------------------------------------------- whole names

  datatype Parsed = Parsed(consumed: nat, budget: Budget, qtype: Option<nat>, qclass: Option<nat>)

  function Word(v: seq<Byte>, pos: nat): nat
    requires pos + 2 <= |v|
  {
    v[pos] as int * 256 + v[pos + 1]
  }

  lemma TrailCons(v: seq<Byte>, t: nat, rest: seq<nat>, lim: Limits, depth: nat, chain: nat, budget: Budget)
    requires t < |v| && forall i :: 0 <= i < |rest| ==> rest[i] < |v|
    requires budget.Covers(Bare(v, t))
    ensures TrailOk(v, [t] + rest, lim, depth, chain, budget) <==>
            var bare := v[t] >= COMPRESSION;
            && lim.minOffset <= t && depth + |rest| <= lim.maxPointersPerName
            && (bare ==> chain <= lim.maxPointersToPointers)
            && (rest != [] ==>
                  TrailOk(v, rest, lim, depth + 1, if bare then chain + 1 else 0, budget.Minus(Bare(v, t))))
    ensures BarePointers(v, [t] + rest) == Bare(v, t) + BarePointers(v, rest)
  {
    var trail := [t] + rest;
    assert trail[1..] == rest;
    assert budget.Covers(BarePointers(v, trail)) <==> budget.Minus(Bare(v, t)).Covers(BarePointers(v, rest));
    var max := lim.maxPointersToPointers;
    assert ChainOk(v, trail, chain, max) <==>
           if v[t] >= COMPRESSION then chain <= max && ChainOk(v, rest, chain + 1, max) else ChainOk(v, rest, 0, max);
    assert (forall i :: 0 <= i < |trail| ==> lim.minOffset <= trail[i]) <==>
           lim.minOffset <= t && forall i :: 0 <= i < |rest| ==> lim.minOffset <= rest[i] by {
      assert forall i :: 0 < i < |trail| ==> trail[i] == rest[i - 1];
      assert forall i :: 0 <= i < |rest| ==> rest[i] == trail[i + 1];
    }
  }

  /** Whether the segment a pointer leads to is accepted, as part of the name that starts before it. */
  predicate AcceptsTarget(v: seq<Byte>, start: nat, before: Name, lim: Limits, depth: nat, chain: nat, budget: Budget)
    requires ReadSegment(v, start).Some? && Follows(v, ReadSegment(v, start).value.stop)
    requires budget.Covers(Bare(v, start))
  {
    var seg := ReadSegment(v, start).value;
    var bare := v[start] >= COMPRESSION;
    Accepts(v, Target(v, seg.stop), before + seg.labels, true, lim, depth + 1,
            if bare then chain + 1 else 0, budget.Minus(Bare(v, start)))
  }

  lemma FollowsForward(v: seq<Byte>, start: nat, before: Name, uncompress: bool, lim: Limits,
                       depth: nat, chain: nat, budget: Budget)
    requires ReadSegment(v, start).Some? && Follows(v, ReadSegment(v, start).value.stop)
    requires Target(v, ReadSegment(v, start).value.stop) < start
    requires budget.Covers(Bare(v, start))
    requires Accepts(v, start, before, uncompress, lim, depth, chain, budget)
    ensures AcceptsTarget(v, start, before, lim, depth, chain, budget)
  {
    hide Decompress, Trail, ReadSegment, TrailOk, Octets, LabelsOk;
    DecompressFollows(v, start, before);
    var target := Target(v, ReadSegment(v, start).value.stop);
    TrailCons(v, start, Trail(v, target), lim, depth, chain, budget);
  }

  lemma FollowsBack(v: seq<Byte>, start: nat, before: Name, uncompress: bool, lim: Limits,
                    depth: nat, chain: nat, budget: Budget)
    requires ReadSegment(v, start).Some? && Follows(v, ReadSegment(v, start).value.stop)
    requires Target(v, ReadSegment(v, start).value.stop) < start
    requires budget.Covers(Bare(v, start))
    requires lim.minOffset <= start && uncompress
    requires v[start] >= COMPRESSION ==> chain <= lim.maxPointersToPointers
    requires AcceptsTarget(v, start, before, lim, depth, chain, budget)
    ensures Accepts(v, start, before, uncompress, lim, depth, chain, budget)
  {
    var target := Target(v, ReadSegment(v, start).value.stop);
    assert depth + |Trail(v, target)| <= lim.maxPointersPerName;
    hide Decompress, Trail, ReadSegment, TrailOk, Octets, LabelsOk;
    DecompressFollows(v, start, before);
    TrailCons(v, start, Trail(v, target), lim, depth, chain, budget);
  }

  lemma AcceptsSome(v: seq<Byte>, start: nat, before: Name, uncompress: bool, lim: Limits,
                    depth: nat, chain: nat, budget: Budget)
    requires Accepts(v, start, before, uncompress, lim, depth, chain, budget)
    ensures Decompress(v, start).Some? && budget.Covers(Spent(v, start))
  {
  }

  lemma BareFollows(v: seq<Byte>, start: nat, before: Name)
    requires Decompress(v, start).Some? && Follows(v, ReadSegment(v, start).value.stop)
    ensures var target := Target(v, ReadSegment(v, start).value.stop);
            && target < start && Decompress(v, target).Some?
            && Spent(v, start) == Bare(v, start) + Spent(v, target)
  {
    var target := Target(v, ReadSegment(v, start).value.stop);
    assert target < start;
    hide Decompress, Trail, ReadSegment, Octets, LabelsOk;
    DecompressFollows(v, start, before);
    assert ([start] + Trail(v, target))[1..] == Trail(v, target);
  }

  lemma DecompressFollows(v: seq<Byte>, start: nat, before: Name)
    requires ReadSegment(v, start).Some? && Follows(v, ReadSegment(v, start).value.stop)
    requires Target(v, ReadSegment(v, start).value.stop) < start
    ensures var seg := ReadSegment(v, start).value;
            var target := Target(v, seg.stop);
            && (Decompress(v, start).Some? <==> Decompress(v, target).Some?)
            && (Decompress(v, start).Some? ==>
                  && Trail(v, start) == [start] + Trail(v, target)
                  && before + Decompress(v, start).value == before + seg.labels + Decompress(v, target).value)
  {
    var seg := ReadSegment(v, start).value;
    var target := Target(v, seg.stop);
    if Decompress(v, target).Some? {
      assert before + (seg.labels + Decompress(v, target).value) == before + seg.labels + Decompress(v, target).value;
    }
  }

  lemma AcceptsEnds(v: seq<Byte>, start: nat, before: Name, uncompress: bool, lim: Limits,
                    depth: nat, chain: nat, budget: Budget)
    requires ReadSegment(v, start).Some? && !Follows(v, ReadSegment(v, start).value.stop)
    requires budget.Covers(Bare(v, start))
    ensures Accepts(v, start, before, uncompress, lim, depth, chain, budget) <==>
            var seg := ReadSegment(v, start).value;
            && WireLength(before + seg.labels) <= MAX_NAME_LENGTH
            && lim.minOffset <= start && depth <= lim.maxPointersPerName
            && (v[start] >= COMPRESSION ==> chain <= lim.maxPointersToPointers)
            && (v[seg.stop] != 0 ==> uncompress)
    ensures Decompress(v, start) == Some(ReadSegment(v, start).value.labels)
    ensures Consumed(v, start) == ReadSegment(v, start).value.stop - start + 1
    ensures Spent(v, start) == Bare(v, start)
  {
    assert Trail(v, start) == [start] + [];
    TrailCons(v, start, [], lim, depth, chain, budget);
  }

  /** A name too long, a chain too long or a spent budget shows in the first segment already. */
  lemma RejectedEarly(v: seq<Byte>, start: nat, existing: seq<Byte>, uncompress: bool, lim: Limits,
                      depth: nat, chain: nat, budget: Budget)
    requires StorageOk(existing) && lim.Valid()
    requires Accepts(v, start, NameOf(existing), uncompress, lim, depth, chain, budget)
    ensures start < |v| && lim.minOffset <= start && depth <= lim.maxPointersPerName && ReadSegment(v, start).Some?
    ensures v[ReadSegment(v, start).value.stop] != 0 ==> uncompress
    ensures Follows(v, ReadSegment(v, start).value.stop) ==>
              var target := Target(v, ReadSegment(v, start).value.stop);
              target < start && lim.minOffset <= target && depth < lim.maxPointersPerName
    ensures Fits(|existing|, ReadSegment(v, start).value.labels)
    ensures v[start] >= COMPRESSION ==> chain <= lim.maxPointersToPointers && budget.Covers(1)
  {
    var labels, all := ReadSegment(v, start).value.labels, Decompress(v, start).value;
    StorageSize(existing);
    OctetsConcat(NameOf(existing), all);
    var trail := Trail(v, start);
    assert trail[0] == start;
    if Follows(v, ReadSegment(v, start).value.stop) {
      var target := Target(v, ReadSegment(v, start).value.stop);
      OctetsConcat(labels, Decompress(v, target).value);
      assert trail == [start] + Trail(v, target);
      assert trail[1] == target;
    }
  }

  /** The accounting of packetParser for a segment that is nothing but a pointer. */
  method CountPointer(bare: bool, lim: Limits, chain: nat, budget: Budget) returns (r: Result<(nat, Budget)>)
    ensures r.Ok? <==> (bare ==> chain <= lim.maxPointersToPointers && budget.Covers(1))
    ensures r.Ok? ==> r.value.0 == (if bare then (chain + 1) % 0x1_0000 else 0) && r.value.1 == budget.Minus(if bare then 1 else 0)
  {
    if !bare { return Ok((0, budget)); }
    var budget' := budget;
    if budget.Limited? {
      if budget.left == 0 { return Thrown; }
      budget' := Limited(budget.left - 1);
    }
    if chain > lim.maxPointersToPointers { return Thrown; }
    return Ok(((chain + 1) % 0x1_0000, budget'));
  }

  /**
   packetParser up to the end of the name: `name` holds what was read before following a
   pointer.  The recursion ends because a pointer leads strictly before the segment
   holding it, whatever the limits.  Returns the position behind the name.
   */
  method ParseName(name: DNSName, v: seq<Byte>, offset: nat, uncompress: bool, lim: Limits,
                   depth: nat, chain: nat, budget: Budget) returns (r: Result<(nat, Budget)>)
    requires name.Valid() && lim.Valid() && chain <= depth <= lim.maxPointersPerName
    modifies name
    ensures name.Valid()
    ensures r.Ok? <==> Accepts(v, offset, NameOf(old(name.storage)), uncompress, lim, depth, chain, budget)
    ensures r.Ok? ==> Decompress(v, offset).Some?
    ensures r.Ok? ==>
              && name.storage != []
              && NameOf(name.storage) == NameOf(old(name.storage)) + Decompress(v, offset).value
              && r.value.0 == offset + Consumed(v, offset)
              && budget.Covers(Spent(v, offset)) && r.value.1 == budget.Minus(Spent(v, offset))
    decreases offset
  {
    hide Accepts, Decompress, Trail, Spent, ReadSegment, Octets, LabelsOk, Labels, Walks;
    ghost var before := NameOf(name.storage);
    if Accepts(v, offset, before, uncompress, lim, depth, chain, budget) {
      RejectedEarly(v, offset, name.storage, uncompress, lim, depth, chain, budget);
    }
    if offset >= |v| || offset < lim.minOffset { return Thrown; }
    ghost var existing := name.storage;
    var seg := ParseUncompressed(name, v, offset, uncompress);
    if seg.Thrown? { return Thrown; }
    var pos := seg.value;
    var labellen := v[pos];
    var counted := CountPointer(pos == offset && labellen != 0, lim, chain, budget);
    if counted.Thrown? { return Thrown; }
    var (chain', budget') := counted.value;
    pos := pos + 1;
    if labellen != 0 && pos < |v| {
      var newpos := (labellen - COMPRESSION) * 256 + v[pos];
      if newpos >= offset || newpos < lim.minOffset || depth + 1 > lim.maxPointersPerName { return Thrown; }
      if Accepts(v, offset, before, uncompress, lim, depth, chain, budget) {
        FollowsForward(v, offset, before, uncompress, lim, depth, chain, budget);
      }
      var rest := ParseName(name, v, newpos, true, lim, depth + 1, chain', budget');
      if rest.Thrown? { return Thrown; }
      FollowsBack(v, offset, before, uncompress, lim, depth, chain, budget);
      AcceptsSome(v, offset, before, uncompress, lim, depth, chain, budget);
      DecompressFollows(v, offset, before);
      BareFollows(v, offset, before);
      return Ok((pos + 1, rest.value.1));
    } else {
      FinalFit(existing, ReadSegment(v, offset).value.labels);
      AcceptsEnds(v, offset, before, uncompress, lim, depth, chain, budget);
      RootStorage();
      if name.storage == [] { name.storage := [0]; }
      return Ok((pos, budget'));
    }
  }

  /** packetParser as called by the constructor, from an unset name. */
  method Parse(name: DNSName, v: seq<Byte>, offset: nat, uncompress: bool, wantType: bool, wantClass: bool,
               lim: Limits, budget: Budget) returns (r: Result<Parsed>)
    requires name.storage == [] && lim.Valid()
    modifies name
    ensures name.Valid()
    ensures r.Ok? <==>
            && Accepts(v, offset, [], uncompress, lim, 0, 0, budget)
            && (wantType ==> offset + Consumed(v, offset) + 2 <= |v|)
            && (wantClass ==> offset + Consumed(v, offset) + 4 <= |v|)
    ensures r.Ok? ==>
              var after := offset + Consumed(v, offset);
              && name.storage != [] && NameOf(name.storage) == Decompress(v, offset).value
              && budget.Covers(Spent(v, offset))
              && r.value == Parsed(after - offset, budget.Minus(Spent(v, offset)),
                                   if wantType then Some(Word(v, after)) else None,
                                   if wantClass then Some(Word(v, after + 2)) else None)
  {
    hide Accepts, Spent, ReadSegment, Octets, LabelsOk, Labels, Walks;
    var parsed := ParseName(name, v, offset, uncompress, lim, 0, 0, budget);
    if parsed.Thrown? { return Thrown; }
    r := ReadTypeAndClass(v, offset, parsed.value.0, wantType, wantClass, parsed.value.1);
  }

  lemma RootStorage()
    ensures StorageOk([0]) && NameOf([0]) == []
  {
  }

  lemma FinalFit(existing: seq<Byte>, labels: Name)
    requires StorageOk(existing) && Fits(|existing|, labels)
    ensures WireLength(NameOf(existing) + labels) <= MAX_NAME_LENGTH
  {
    StorageSize(existing);
    OctetsConcat(NameOf(existing), labels);
  }

  /** The tail of packetParser: type and class directly behind the name. */
  method ReadTypeAndClass(v: seq<Byte>, offset: nat, after: nat, wantType: bool, wantClass: bool, budget: Budget)
    returns (r: Result<Parsed>)
    requires offset <= after
    ensures r.Ok? <==> (wantType ==> after + 2 <= |v|) && (wantClass ==> after + 4 <= |v|)
    ensures r.Ok? ==>
              r.value == Parsed(after - offset, budget,
                                if wantType then Some(Word(v, after)) else None,
                                if wantClass then Some(Word(v, after + 2)) else None)
  {
    var pos := after;
    var parsed := Parsed(pos - offset, budget, None, None);
    if wantType {
      if pos + 2 > |v| { return Thrown; }
      parsed := parsed.(qtype := Some(v[pos] as int * 256 + v[pos + 1]));
    }
    pos := pos + 2;
    if wantClass {
      if pos + 2 > |v| { return Thrown; }
      parsed := parsed.(qclass := Some(v[pos] as int * 256 + v[pos + 1]));
    }
    return Ok(parsed);
  }

  // ---------------------------------------------------------------- what the reference means

  ghost predicate AllBare(v: seq<Byte>, trail: seq<nat>, i: nat, j: nat)
    requires forall k :: 0 <= k < |trail| ==> trail[k] < |v|
    requires i <= j <= |trail|
  {
    forall k :: i <= k < j ==> v[trail[k]] >= COMPRESSION
  }

  lemma {:induction false} BareSnoc(v: seq<Byte>, trail: seq<nat>, t: nat)
    requires t < |v| && forall k :: 0 <= k < |trail| ==> trail[k] < |v|
    ensures BarePointers(v, trail + [t]) == BarePointers(v, trail) + if v[t] >= COMPRESSION then 1 else 0
  {
    if trail == [] {
      assert [t][1..] == [];
    } else {
      assert (trail + [t])[1..] == trail[1..] + [t];
      BareSnoc(v, trail[1..], t);
    }
  }

  /** What a name takes from the budget: the number of segments on its trail that start with a pointer. */
  lemma {:induction false} BareCount(v: seq<Byte>, trail: seq<nat>)
    requires forall k :: 0 <= k < |trail| ==> trail[k] < |v|
    ensures BarePointers(v, trail) == |set k | 0 <= k < |trail| && v[trail[k]] >= 0xc0|
  {
    if trail != [] {
      var n := |trail| - 1;
      BareCount(v, trail[..n]);
      assert trail == trail[..n] + [trail[n]];
      hide BarePointers;
      BareSnoc(v, trail[..n], trail[n]);
      BareGrows(v, trail, n);
    }
  }

  lemma BareGrows(v: seq<Byte>, trail: seq<nat>, n: nat)
    requires |trail| == n + 1 && forall k :: 0 <= k < |trail| ==> trail[k] < |v|
    ensures |set k | 0 <= k < |trail| && v[trail[k]] >= 0xc0| ==
            |set k | 0 <= k < |trail[..n]| && v[trail[..n][k]] >= 0xc0| + if v[trail[n]] >= 0xc0 then 1 else 0
  {
    var was := set k | 0 <= k < n && v[trail[k]] >= 0xc0;
    assert was == set k | 0 <= k < |trail[..n]| && v[trail[..n][k]] >= 0xc0;
    assert (set k | 0 <= k < |trail| && v[trail[k]] >= 0xc0) == was + if v[trail[n]] >= 0xc0 then {n} else {};
  }

  /** No more than max + 1 bare pointers in a row, c of them before the trail. */
  ghost predicate ShortRuns(v: seq<Byte>, trail: seq<nat>, c: nat, max: nat)
    requires forall k :: 0 <= k < |trail| ==> trail[k] < |v|
  {
    forall i: nat, j: nat :: i < j <= |trail| && AllBare(v, trail, i, j) ==> (if i == 0 then c else 0) + j - i <= max + 1
  }

  lemma {:induction false} ChainsAreShortRuns(v: seq<Byte>, trail: seq<nat>, c: nat, max: nat)
    requires forall k :: 0 <= k < |trail| ==> trail[k] < |v|
    ensures ChainOk(v, trail, c, max) <==> ShortRuns(v, trail, c, max)
  {
    if trail != [] {
      var rest, bare := trail[1..], v[trail[0]] >= COMPRESSION;
      var c' := if bare then c + 1 else 0;
      ChainsAreShortRuns(v, rest, c', max);
      assert forall k :: 0 < k < |trail| ==> trail[k] == rest[k - 1];
      if ShortRuns(v, rest, c', max) && (bare ==> c <= max) {
        forall i: nat, j: nat | i < j <= |trail| && AllBare(v, trail, i, j)
          ensures (if i == 0 then c else 0) + j - i <= max + 1
        {
          if i > 0 {
            assert AllBare(v, rest, i - 1, j - 1);
          } else if j > 1 {
            assert AllBare(v, rest, 0, j - 1);
          }
        }
      }
      if ShortRuns(v, trail, c, max) {
        if bare { assert AllBare(v, trail, 0, 1); }
        forall i: nat, j: nat | i < j <= |rest| && AllBare(v, rest, i, j)
          ensures (if i == 0 then c' else 0) + j - i <= max + 1
        {
          assert forall k :: i + 1 <= k < j + 1 ==> v[trail[k]] >= COMPRESSION;
          assert AllBare(v, trail, i + 1, j + 1);
          if i == 0 && bare { assert AllBare(v, trail, 0, j + 1); }
        }
      }
    }
  }

  /** The packet has the labels of n from pos on. */
  predicate Spells(v: seq<Byte>, pos: nat, n: Name)
    decreases |n|
  {
    n != [] ==>
      && pos + 1 + |n[0]| <= |v| && v[pos] == |n[0]|
      && v[pos + 1..pos + 1 + |n[0]|] == n[0]
      && Spells(v, pos + 1 + |n[0]|, n[1..])
  }

  lemma UnfoldBody(n: Name)
    requires LabelsOk(n) && n != []
    ensures LabelsOk(n[1..]) && |n[0]| < 256
    ensures Body(n) == ([|n[0]|] + n[0]) + Body(n[1..]) && Octets(n) == 1 + |n[0]| + Octets(n[1..])
  {
  }

  lemma {:induction false} SpelledAt(v: seq<Byte>, pos: nat, n: Name, rest: seq<Byte>)
    requires LabelsOk(n) && pos <= |v| && v[pos..] == Body(n) + rest
    ensures Spells(v, pos, n) && |Body(n)| == Octets(n)
    decreases |n|
  {
    if n != [] {
      UnfoldBody(n);
      hide Body, LabelsOk, Octets, Spells;
      LabelAt(v, pos, n[0], Body(n[1..]), rest);
      SpelledAt(v, pos + 1 + |n[0]|, n[1..], rest);
      SpellsMore(v, pos, n);
    }
  }

  lemma LabelAt(v: seq<Byte>, pos: nat, l: Label, t: seq<Byte>, rest: seq<Byte>)
    requires pos <= |v| && |l| < 256 && v[pos..] == ([|l|] + l) + t + rest
    ensures pos + 1 + |l| <= |v| && v[pos] == |l| && v[pos + 1..pos + 1 + |l|] == l && v[pos + 1 + |l|..] == t + rest
  {
    var head := [|l|] + l;
    var w := v[pos..];
    assert w == head + (t + rest);
    assert |v| == pos + |w|;
    assert v[pos + 1 + |l|..] == w[|head|..];
    assert v[pos] == w[0] && v[pos + 1..pos + 1 + |l|] == w[1..1 + |l|];
    assert w[1..1 + |l|] == head[1..] == l;
  }

  lemma SpelledOut(v: seq<Byte>, before: seq<Byte>, n: Name, rest: seq<Byte>)
    requires LabelsOk(n) && v == before + Body(n) + rest
    ensures Spells(v, |before|, n) && |Body(n)| == Octets(n)
  {
    hide Body, LabelsOk, Spells;
    assert v[|before|..] == Body(n) + rest;
    SpelledAt(v, |before|, n, rest);
  }

  lemma SpellsMore(v: seq<Byte>, pos: nat, n: Name)
    requires n != [] && pos + 1 + |n[0]| <= |v| && v[pos] == |n[0]| && v[pos + 1..pos + 1 + |n[0]|] == n[0]
    requires Spells(v, pos + 1 + |n[0]|, n[1..])
    ensures Spells(v, pos, n)
  {
  }

  lemma {:induction false} ReadsSpelled(v: seq<Byte>, pos: nat, n: Name)
    requires LabelsOk(n) && Spells(v, pos, n) && pos + Octets(n) < |v|
    requires v[pos + Octets(n)] == 0 || v[pos + Octets(n)] >= COMPRESSION
    ensures ReadSegment(v, pos) == Some(Segment(n, pos + Octets(n)))
    decreases |n|
  {
    if n != [] {
      LabelTail(n);
      ReadsSpelled(v, pos + 1 + |n[0]|, n[1..]);
    }
  }

  lemma Regroup<T>(a: seq<T>, b: seq<T>, c: seq<T>, d: seq<T>)
    ensures a + (b + c) + d == a + b + c + d == a + b + (c + d)
  {
  }

  lemma LabelTail(n: Name)
    requires n != []
    ensures n == [n[0]] + n[1..] && Octets(n) == 1 + |n[0]| + Octets(n[1..])
  {
  }

  /** The two octets of a pointer to a position below 0x4000: two one-bits and the position, high bits first. */
  function PointerTo(pos: nat): seq<Byte>
    requires pos < 0x4000
  {
    [0xc0 + pos / 256, pos % 256]
  }

  lemma EndsSpelled(v: seq<Byte>, pos: nat, n: Name)
    requires LabelsOk(n) && Spells(v, pos, n) && pos + Octets(n) < |v| && v[pos + Octets(n)] == 0
    ensures Decompress(v, pos) == Some(n) && Trail(v, pos) == [pos] && Consumed(v, pos) == Octets(n) + 1
  {
    hide ReadSegment, Spells, LabelsOk, Octets;
    ReadsSpelled(v, pos, n);
  }

  /** The labels at start are followed by a pointer. */
  predicate EndsInPointer(v: seq<Byte>, start: nat) {
    ReadSegment(v, start).Some? && v[ReadSegment(v, start).value.stop] != 0
  }

  lemma PointsSpelled(v: seq<Byte>, start: nat, p: Name, pos: nat)
    requires LabelsOk(p) && Spells(v, start, p) && start + Octets(p) + 2 <= |v| && pos < start && pos < 0x4000
    requires v[start + Octets(p)] == 0xc0 + pos / 256 && v[start + Octets(p) + 1] == pos % 256
    ensures Decompress(v, start).Some? <==> Decompress(v, pos).Some?
    ensures Decompress(v, pos).Some? ==>
              && Decompress(v, start) == Some(p + Decompress(v, pos).value)
              && Trail(v, start) == [start] + Trail(v, pos) && Consumed(v, start) == Octets(p) + 2
    ensures EndsInPointer(v, start)
  {
    hide ReadSegment, Spells, LabelsOk, Octets;
    ReadsSpelled(v, start, p);
    assert Target(v, start + Octets(p)) == pos;
  }

  /** A name written without compression anywhere in a packet is read back as it was, up to its zero byte. */
  lemma ReadsBack(before: seq<Byte>, n: Name, after: seq<Byte>)
    requires LabelsOk(n)
    ensures var v := before + Encode(n) + after;
            Decompress(v, |before|) == Some(n) && Trail(v, |before|) == [|before|] && Consumed(v, |before|) == |Encode(n)|
  {
    var v, rest := before + Encode(n) + after, [0] + after;
    assert v == before + Body(n) + rest by { Regroup(before, Body(n), [0], after); }
    SpelledOut(v, before, n, rest);
    hide Body, Spells, LabelsOk, Octets, Decompress, Trail, Consumed;
    Behind(before + Body(n), rest, 0);
    EndsSpelled(v, |before|, n);
  }

  lemma Behind<T>(a: seq<T>, b: seq<T>, i: nat)
    requires i < |b|
    ensures (a + b)[|a| + i] == b[i]
  {
  }

  /** Labels and a pointer back: the labels followed by whatever name the packet has at the position pointed to. */
  lemma ReadsPointer(before: seq<Byte>, p: Name, pos: nat, after: seq<Byte>)
    requires LabelsOk(p) && pos < |before| && pos < 0x4000
    ensures var v := before + Body(p) + [0xc0 + pos / 256, pos % 256] + after;
            && (Decompress(v, |before|).Some? <==> Decompress(v, pos).Some?) && EndsInPointer(v, |before|)
            && (Decompress(v, pos).Some? ==>
                  && Decompress(v, |before|) == Some(p + Decompress(v, pos).value)
                  && Trail(v, |before|) == [|before|] + Trail(v, pos)
                  && Consumed(v, |before|) == |Body(p)| + 2)
  {
    var v, rest := before + Body(p) + PointerTo(pos) + after, PointerTo(pos) + after;
    hide Body, Spells, LabelsOk, Octets, Decompress, Trail, Consumed, EndsInPointer;
    Regroup(before, Body(p), PointerTo(pos), after);
    assert v == before + Body(p) + rest;
    SpelledOut(v, before, p, rest);
    Behind(before + Body(p), rest, 0);
    Behind(before + Body(p), rest, 1);
    PointsSpelled(v, |before|, p, pos);
  }

  /** A pointer whose second octet is missing at the end of the packet ends the name. */
  lemma CutOffPointer(before: seq<Byte>, p: Name, last: Byte)
    requires LabelsOk(p) && last >= 0xc0
    ensures var v := before + Body(p) + [last];
            Decompress(v, |before|) == Some(p) && Consumed(v, |before|) == |Body(p)| + 1
  {
    var v := before + Body(p) + [last];
    hide Body, Spells, LabelsOk, Octets, ReadSegment;
    SpelledOut(v, before, p, [last]);
    Behind(before + Body(p), [last], 0);
    ReadsSpelled(v, |before|, p);
  }

  /** A packet with an uncompressed name n and, somewhere behind it, the labels p and a pointer to n. */
  function Compressed(before: seq<Byte>, n: Name, mid: seq<Byte>, p: Name, after: seq<Byte>): seq<Byte>
    requires LabelsOk(n) && LabelsOk(p) && |before| < 0x4000
  {
    before + Encode(n) + mid + Body(p) + PointerTo(|before|) + after
  }

  lemma CompressedSplit(before: seq<Byte>, n: Name, mid: seq<Byte>, p: Name, after: seq<Byte>)
    requires LabelsOk(n) && LabelsOk(p) && |before| < 0x4000
    ensures Compressed(before, n, mid, p, after) == before + Encode(n) + (mid + (Body(p) + (PointerTo(|before|) + after)))
  {
    hide Body, Encode, PointerTo;
    var a, e, b, t := before, Encode(n), Body(p), PointerTo(|before|);
    assert a + e + mid + b + t + after == a + e + (mid + (b + (t + after)));
  }

  /** A compressed name is read back as its labels and the name its pointer leads to. */
  lemma ReadsCompressed(before: seq<Byte>, n: Name, mid: seq<Byte>, p: Name, after: seq<Byte>)
    requires LabelsOk(n) && LabelsOk(p) && |before| < 0x4000
    ensures var start := |before + Encode(n) + mid|;
            var v := before + Encode(n) + mid + Body(p) + [0xc0 + |before| / 256, |before| % 256] + after;
            && Decompress(v, start) == Some(p + n) && EndsInPointer(v, start)
            && Trail(v, start) == [start, |before|] && Consumed(v, start) == |Body(p)| + 2
  {
    hide LabelsOk, Decompress, Trail, Consumed, Body, EndsInPointer;
    CompressedSplit(before, n, mid, p, after);
    ReadsBack(before, n, mid + (Body(p) + (PointerTo(|before|) + after)));
    ReadsPointer(before + Encode(n) + mid, p, |before|, after);
  }

  /** When the parser takes such a name: it is not too long, and the limits leave room for its one pointer. */
  lemma AcceptsCompressed(before: seq<Byte>, n: Name, mid: seq<Byte>, p: Name, after: seq<Byte>,
                          uncompress: bool, lim: Limits, budget: Budget)
    requires LabelsOk(n) && LabelsOk(p) && |before| < 0x4000
    ensures var start := |before + Encode(n) + mid|;
            var v := before + Encode(n) + mid + Body(p) + [0xc0 + |before| / 256, |before| % 256] + after;
            Accepts(v, start, [], uncompress, lim, 0, 0, budget) <==>
              && WireLength(p + n) <= MAX_NAME_LENGTH && uncompress
              && lim.minOffset <= |before| && lim.maxPointersPerName >= 1
              && (p == [] ==> budget != Limited(0))
  {
    hide LabelsOk, Decompress, Trail, Consumed, Body, Encode, Octets, ReadSegment, TrailOk;
    var head := before + Encode(n) + mid;
    var start, v := |head|, head + Body(p) + PointerTo(|before|) + after;
    ReadsCompressed(before, n, mid, p, after);
    CompressedSplit(before, n, mid, p, after);
    var rest := mid + (Body(p) + (PointerTo(|before|) + after));
    FirstByte(before, n, [0] + rest);
    EncodeFirst(before, n, rest);
    Regroup(head, Body(p), PointerTo(|before|), after);
    FirstByte(head, p, PointerTo(|before|) + after);
    assert [] + (p + n) == p + n;
    TwoSegments(v, start, |before|, lim, budget);
  }

  lemma EncodeFirst(before: seq<Byte>, n: Name, rest: seq<Byte>)
    requires LabelsOk(n)
    ensures before + Encode(n) + rest == before + Body(n) + ([0] + rest) && Encode(n) != []
  {
    Regroup(before, Body(n), [0], rest);
  }

  /** Whether a run of labels starts with a pointer. */
  lemma FirstByte(before: seq<Byte>, n: Name, rest: seq<Byte>)
    requires LabelsOk(n) && rest != []
    ensures var v := before + Body(n) + rest;
            |before| < |v| && if n == [] then v[|before|] == rest[0] else v[|before|] < COMPRESSION
  {
  }

  lemma TwoSegments(v: seq<Byte>, a: nat, b: nat, lim: Limits, budget: Budget)
    requires b < a < |v| && v[b] < COMPRESSION
    ensures TrailOk(v, [a, b], lim, 0, 0, budget) <==>
            && lim.minOffset <= b && lim.maxPointersPerName >= 1
            && (v[a] >= COMPRESSION ==> budget != Limited(0))
  {
    hide TrailOk;
    assert [a, b] == [a] + [b] && [b] == [b] + [];
    if budget.Covers(Bare(v, a)) {
      TrailCons(v, a, [b], lim, 0, 0, budget);
      TrailCons(v, b, [], lim, 1, if v[a] >= COMPRESSION then 1 else 0, budget.Minus(Bare(v, a)));
    } else {
      NotCovered(v, a, b, lim, budget);
    }
  }

  lemma NotCovered(v: seq<Byte>, a: nat, b: nat, lim: Limits, budget: Budget)
    requires b < a < |v| && !budget.Covers(Bare(v, a))
    ensures !TrailOk(v, [a, b], lim, 0, 0, budget)
  {
    assert [a, b][1..] == [b];
  }

  /** The two words behind a name are its type and class, high octet first. */
  lemma WordIs(v: seq<Byte>, pos: nat, w: nat)
    requires pos + 2 <= |v| && w < 0x1_0000
    ensures Word(v, pos) == w <==> v[pos] == w / 256 && v[pos + 1] == w % 256
  {
  }
}
