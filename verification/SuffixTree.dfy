/**
 SuffixMatchTree: a tree of labels, read from the right, that finds the longest stored
 name a query is part of.

 Children live in a set ordered case-insensitively and stored by value, so a node is a
 value here and its children a map keyed by the lower-cased label.
 */
module SuffixTree {
  import opened Results
  import opened Wire
  import opened DnsName
  import opened Canon

  datatype Node<T> = Node(children: map<Label, Node<T>>, endNode: bool, value: T)

  // ---------------------------------------------------------------- the code

  /** add on a label list; `blank` is the value of a fresh node. */
  function AddAt<T>(n: Node<T>, labels: Name, value: T, blank: T): Node<T>
    decreases |labels|
  {
    if labels == [] then n.(endNode := true, value := value)
    else
      var key := LowerAll(Last(labels));
      if |labels| == 1 then
        var child := if key in n.children then n.children[key] else Node(map[], true, blank);
        n.(children := n.children[key := child.(endNode := true, value := value)])
      else
        var child := if key in n.children then n.children[key] else Node(map[], false, blank);
        n.(children := n.children[key := AddAt(child, Init(labels), value, blank)])
  }

  /** remove on a label list, without the subtree flag: only a childless last node is dropped. */
  function RemoveAt<T>(n: Node<T>, labels: Name): Node<T> {
    if labels == [] then n.(endNode := false)
    else
      var key := LowerAll(Last(labels));
      if key !in n.children then n
      else if |labels| == 1 then
        var child := n.children[key].(endNode := false);
        if child.children == map[] then n.(children := n.children - {key})
        else n.(children := n.children[key := child])
      else n.(children := n.children[key := RemoveAt(n.children[key], Init(labels))])
  }

  /** getBestNode, reading the value of the node it returns. */
  function BestNode<T>(n: Node<T>, labels: Name): Option<T> {
    var own := if n.endNode then Some(n.value) else None;
    if labels == [] || LowerAll(Last(labels)) !in n.children then own
    else
      var result := BestNode(n.children[LowerAll(Last(labels))], Init(labels));
      if result.Some? then result else own
  }

  // ---------------------------------------------------------------- meaning

  /** The value stored exactly at a name. */
  function Get<T>(n: Node<T>, labels: Name): Option<T> {
    if labels == [] then (if n.endNode then Some(n.value) else None)
    else
      var key := LowerAll(Last(labels));
      if key in n.children then Get(n.children[key], Init(labels)) else None
  }

  /** Reference: try the name itself, then drop labels from the left. */
  function LongestIn<T>(m: map<Name, T>, labels: Name): Option<T> {
    if LowerName(labels) in m then Some(m[LowerName(labels)])
    else if labels == [] then None
    else LongestIn(m, labels[1..])
  }

  ghost predicate Represents<T(!new)>(n: Node<T>, m: map<Name, T>) {
    forall q: Name :: Get(n, q) == if LowerName(q) in m then Some(m[LowerName(q)]) else None
  }

  lemma {:induction false} GetCongruent<T>(n: Node<T>, p: Name, q: Name)
    requires SameName(p, q)
    ensures Get(n, p) == Get(n, q)
  {
    assert |p| == |LowerName(p)| == |q|;
    if p != [] {
      SameNameLast(p, q);
      var key := LowerAll(Last(p));
      if key in n.children { GetCongruent(n.children[key], Init(p), Init(q)); }
    }
  }

  lemma EmptySame(p: Name, q: Name)
    requires p == [] || q == []
    ensures SameName(p, q) <==> p == q
  {
    assert |LowerName(p)| == |p| && |LowerName(q)| == |q|;
  }

  lemma {:induction false} GetAfterAdd<T>(n: Node<T>, p: Name, value: T, blank: T, q: Name)
    ensures Get(AddAt(n, p, value, blank), q) == if SameName(p, q) then Some(value) else Get(n, q)
    decreases |p|
  {
    if p == [] || q == [] {
      EmptySame(p, q);
    } else {
      SameNameLast(p, q);
      var key := LowerAll(Last(p));
      var child := if key in n.children then n.children[key] else Node(map[], |p| == 1, blank);
      if LowerAll(Last(q)) == key {
        if |p| == 1 {
          EmptySame(Init(p), Init(q));
        } else {
          GetAfterAdd(child, Init(p), value, blank, Init(q));
          EmptySame([], Init(p));
        }
      }
    }
  }

  lemma {:induction false} GetAfterRemove<T>(n: Node<T>, p: Name, q: Name)
    ensures Get(RemoveAt(n, p), q) == if SameName(p, q) then None else Get(n, q)
  {
    if p == [] || q == [] {
      EmptySame(p, q);
    } else {
      SameNameLast(p, q);
      var key := LowerAll(Last(p));
      if key in n.children && LowerAll(Last(q)) == key {
        if |p| == 1 {
          EmptySame(Init(p), Init(q));
        } else {
          GetAfterRemove(n.children[key], Init(p), Init(q));
        }
      } else if SameName(p, q) {
        GetCongruent(n, p, q);
      }
    }
  }

  // ---------------------------------------------------------------- best match

  /** The value of the longest suffix of labels that has at most k labels. */
  function LongestGet<T>(n: Node<T>, labels: Name, k: nat): Option<T>
    requires k <= |labels|
  {
    var own := Get(n, labels[|labels| - k..]);
    if own.Some? || k == 0 then own else LongestGet(n, labels, k - 1)
  }

  /** Below the root, the search in the child over one label less decides first. */
  lemma {:induction false} LongestGetInChild<T>(n: Node<T>, labels: Name, k: nat)
    requires labels != [] && k <= |labels| && LowerAll(Last(labels)) in n.children
    ensures LongestGet(n, labels, k) ==
            var own := if n.endNode then Some(n.value) else None;
            if k == 0 then own
            else
              var below := LongestGet(n.children[LowerAll(Last(labels))], Init(labels), k - 1);
              if below.Some? then below else own
  {
    if k > 0 {
      var suffix := labels[|labels| - k..];
      assert Last(suffix) == Last(labels);
      assert Init(suffix) == Init(labels)[|Init(labels)| - (k - 1)..];
      LongestGetInChild(n, labels, k - 1);
    } else {
      assert labels[|labels| - k..] == [];
    }
  }

  lemma {:induction false} LongestGetNoChild<T>(n: Node<T>, labels: Name, k: nat)
    requires k <= |labels| && (labels == [] || LowerAll(Last(labels)) !in n.children)
    ensures LongestGet(n, labels, k) == if n.endNode then Some(n.value) else None
  {
    if k > 0 {
      assert Last(labels[|labels| - k..]) == Last(labels);
      LongestGetNoChild(n, labels, k - 1);
    } else {
      assert labels[|labels| - k..] == [];
    }
  }

  lemma {:induction false} BestNodeIsLongest<T>(n: Node<T>, labels: Name)
    ensures BestNode(n, labels) == LongestGet(n, labels, |labels|)
  {
    if labels == [] || LowerAll(Last(labels)) !in n.children {
      LongestGetNoChild(n, labels, |labels|);
    } else {
      BestNodeIsLongest(n.children[LowerAll(Last(labels))], Init(labels));
      LongestGetInChild(n, labels, |labels|);
    }
  }

  lemma {:induction false} LongestGetInMap<T(!new)>(n: Node<T>, m: map<Name, T>, labels: Name, k: nat)
    requires Represents(n, m) && k <= |labels|
    ensures LongestGet(n, labels, k) == LongestIn(m, labels[|labels| - k..])
  {
    hide Represents, Get, LongestIn, LongestGet, LowerName, LowerAll;
    GetInMap(n, m, labels[|labels| - k..]);
    LongestSteps(n, m, labels, k);
    if k > 0 { LongestGetInMap(n, m, labels, k - 1); }
  }

  lemma GetInMap<T(!new)>(n: Node<T>, m: map<Name, T>, q: Name)
    requires Represents(n, m)
    ensures Get(n, q) == if LowerName(q) in m then Some(m[LowerName(q)]) else None
  {
    hide Get, LowerName;
  }

  lemma LongestSteps<T>(n: Node<T>, m: map<Name, T>, labels: Name, k: nat)
    requires k <= |labels|
    ensures var suffix := labels[|labels| - k..];
            var own := Get(n, suffix);
            && LongestGet(n, labels, k) == (if own.Some? || k == 0 then own else LongestGet(n, labels, k - 1))
            && LongestIn(m, suffix) == (if LowerName(suffix) in m then Some(m[LowerName(suffix)])
                                        else if k == 0 then None
                                        else LongestIn(m, labels[|labels| - (k - 1)..]))
  {
    if k > 0 { assert labels[|labels| - k..][1..] == labels[|labels| - (k - 1)..]; }
  }

  /** The best node of a tree is the longest match in the map it represents. */
  lemma BestNodeMatchesMap<T(!new)>(n: Node<T>, m: map<Name, T>, labels: Name)
    requires Represents(n, m)
    ensures BestNode(n, labels) == LongestIn(m, labels)
  {
    BestNodeIsLongest(n, labels);
    LongestGetInMap(n, m, labels, |labels|);
    assert labels[|labels| - |labels|..] == labels;
  }

  /** The reference is the longest stored name the query is part of; nothing when there is none. */
  lemma {:induction false} LongestInMeaning<T>(m: map<Name, T>, labels: Name)
    requires forall s :: s in m ==> LowerName(s) == s
    ensures LongestIn(m, labels).None? <==> forall s :: s in m ==> !PartOf(labels, s)
    ensures LongestIn(m, labels).Some? ==>
              exists s :: s in m && PartOf(labels, s) && m[s] == LongestIn(m, labels).value
                && forall t :: t in m && PartOf(labels, t) ==> |t| <= |s|
  {
    var own := LowerName(labels);
    if own in m {
      LowerIdempotent(labels);
      assert labels[|labels| - |own|..] == labels;
      assert PartOf(labels, own);
    } else {
      forall s | s in m ensures PartOf(labels, s) <==> labels != [] && PartOf(labels[1..], s) {
        if |s| == |labels| {
          assert labels[|labels| - |s|..] == labels;
        } else if |s| < |labels| {
          assert labels[1..][|labels| - 1 - |s|..] == labels[|labels| - |s|..];
        }
      }
      if labels != [] { LongestInMeaning(m, labels[1..]); }
    }
  }

  // ---------------------------------------------------------------- lookup keys

  /** LightKey::operator<, used to search the children without copying the label. */
  function LightKeyLess(a: Label, b: Label): bool {
    var upTo := if |a| < |b| then |a| else |b|;
    var ret := CompareLabels(a[..upTo], b[..upTo]);
    if ret != 0 then ret < 0 else |a| < |b|
  }

  /** It orders labels exactly as the children are ordered. */
  lemma {:induction false} LightKeyAgrees(a: Label, b: Label)
    ensures LightKeyLess(a, b) <==> CompareLabels(a, b) < 0
  {
    if a != [] && b != [] {
      var upTo := if |a| < |b| then |a| else |b|;
      assert a[..upTo][1..] == a[1..][..upTo - 1] && b[..upTo][1..] == b[1..][..upTo - 1];
      if Lower(a[0]) == Lower(b[0]) { LightKeyAgrees(a[1..], b[1..]); }
    }
  }

  // ---------------------------------------------------------------- runs

  datatype Update<T> = Add(name: Name, value: T) | Remove(name: Name)

  function Run<T>(updates: seq<Update<T>>, blank: T): Node<T> {
    if updates == [] then Node(map[], false, blank)
    else
      var before := Run(Init(updates), blank);
      match Last(updates)
      case Add(name, value) => AddAt(before, name, value, blank)
      case Remove(name) => RemoveAt(before, name)
  }

  function RunMap<T>(updates: seq<Update<T>>): (m: map<Name, T>)
    ensures forall s :: s in m ==> LowerName(s) == s
  {
    if updates == [] then map[]
    else
      var before := RunMap(Init(updates));
      match Last(updates)
      case Add(name, value) => LowerIdempotent(name); before[LowerName(name) := value]
      case Remove(name) => before - {LowerName(name)}
  }

  lemma {:induction false} RunRepresents<T(!new)>(updates: seq<Update<T>>, blank: T)
    ensures Represents(Run(updates, blank), RunMap(updates))
  {
    if updates != [] {
      RunRepresents(Init(updates), blank);
      var before := Run(Init(updates), blank);
      forall q: Name
        ensures Get(Run(updates, blank), q) ==
                if LowerName(q) in RunMap(updates) then Some(RunMap(updates)[LowerName(q)]) else None
      {
        match Last(updates)
        case Add(name, value) => GetAfterAdd(before, name, value, blank, q);
        case Remove(name) => GetAfterRemove(before, name, q);
      }
    }
  }

  /** After any sequence of additions and removals a lookup finds the longest stored match. */
  lemma LookupAfterAnyRun<T(!new)>(updates: seq<Update<T>>, blank: T, query: Name)
    ensures BestNode(Run(updates, blank), query) == LongestIn(RunMap(updates), query)
  {
    RunRepresents(updates, blank);
    BestNodeMatchesMap(Run(updates, blank), RunMap(updates), query);
  }

  // ---------------------------------------------------------------- the object

  class SuffixMatchTree<T(!new)> {
    const blank: T
    var root: Node<T>
    ghost var contents: map<Name, T>

    ghost predicate Valid()
      reads this
    {
      Represents(root, contents)
    }

    constructor (blank: T)
      ensures Valid() && contents == map[]
    {
      this.blank := blank;
      root := Node(map[], false, blank);
      contents := map[];
    }

    method Add(name: DNSName, value: T)
      requires Valid() && name.Valid()
      modifies this
      ensures Valid() && contents == old(contents)[LowerName(NameOf(name.storage)) := value]
    {
      var labels := name.GetRawLabels();
      forall q: Name {
        GetAfterAdd(root, labels, value, blank, q);
      }
      root := AddAt(root, labels, value, blank);
      contents := contents[LowerName(labels) := value];
    }

    method Remove(name: DNSName)
      requires Valid() && name.Valid()
      modifies this
      ensures Valid() && contents == old(contents) - {LowerName(NameOf(name.storage))}
    {
      var labels := name.GetRawLabels();
      forall q: Name {
        GetAfterRemove(root, labels, q);
      }
      root := RemoveAt(root, labels);
      contents := contents - {LowerName(labels)};
    }

    method Lookup(name: DNSName) returns (r: Option<T>)
      requires Valid() && name.Valid()
      ensures r == LongestIn(contents, NameOf(name.storage))
    {
      BestNodeMatchesMap(root, contents, NameOf(name.storage));
      if root.children == map[] {
        return if root.endNode then Some(root.value) else None;
      }
      var positions := WalkLabels(name.storage, 128);
      r := GetBestNode(root, name.storage, positions, |positions|);
      assert NameOf(name.storage)[..|positions|] == NameOf(name.storage);
    }
  }

  /** getBestNode with its visitor: the labels before `position` are still to be matched. */
  method GetBestNode<T>(n: Node<T>, s: seq<Byte>, positions: seq<Byte>, position: nat) returns (r: Option<T>)
    requires StorageOk(s) && position <= |positions| == |NameOf(s)|
    requires forall i :: 0 <= i < |positions| ==> positions[i] == Offset(NameOf(s), i)
    ensures r == BestNode(n, NameOf(s)[..position])
    decreases position
  {
    if position == 0 {
      return if n.endNode then Some(n.value) else None;
    }
    var key := LabelView(s, positions[position - 1], position - 1);
    assert Init(NameOf(s)[..position]) == NameOf(s)[..position - 1];
    if LowerAll(key) !in n.children {
      return if n.endNode then Some(n.value) else None;
    }
    r := GetBestNode(n.children[LowerAll(key)], s, positions, position - 1);
    if r.None? && n.endNode { r := Some(n.value); }
  }
}
