/**
 * A generic tree: a list of root nodes, each with a key, some data, a
 * depth and a list of children.  Nodes are looked up or created along a
 * path of keys, sorted and filtered level by level, and visited either
 * parent first or children first.
 *
 * Node lists are values: a node owns its children.  The key equality is
 * a parameter, since the keys used with this tree compare by a relation
 * of their own.
 */
module Trees {
  import opened Wrappers
  import opened Utils

  datatype NodeData<K, T> = NodeData(key: K, data: T, depth: nat)

  datatype TreeNode<K, T> = TreeNode(children: seq<TreeNode<K, T>>, data: NodeData<K, T>)

  function NewNode<K, T>(key: K, data: T, depth: nat): (n: TreeNode<K, T>)
    ensures !HasChildren(n) && n.data == NodeData(key, data, depth)
  {
    TreeNode([], NodeData(key, data, depth))
  }

  /** `has_children`. */
  predicate HasChildren<K, T>(n: TreeNode<K, T>) {
    |n.children| != 0
  }

  /** The number of nodes in a list of trees. */
  function Count<K, T>(nodes: seq<TreeNode<K, T>>): nat
    decreases nodes
  {
    if nodes == [] then 0
    else Count(nodes[..|nodes| - 1]) + 1 + Count(nodes[|nodes| - 1].children)
  }

  // ---------------------------------------------------------------------
  // Fold over direct children
  // ---------------------------------------------------------------------

  /** A left fold over a list of nodes. */
  function FoldNodes<K, T, B>(nodes: seq<TreeNode<K, T>>, init: B, accumulate: (B, TreeNode<K, T>) -> B): B {
    if nodes == [] then init
    else accumulate(FoldNodes(nodes[..|nodes| - 1], init, accumulate), nodes[|nodes| - 1])
  }

  /** `fold`: the direct children, in order, folded into `init`. */
  function Fold<K, T, B>(n: TreeNode<K, T>, init: B, accumulate: (B, TreeNode<K, T>) -> B): B {
    FoldNodes(n.children, init, accumulate)
  }

  /** Folding two lists one after the other is folding the second from the first's result. */
  lemma {:induction false} FoldAppend<K, T, B>(xs: seq<TreeNode<K, T>>, ys: seq<TreeNode<K, T>>, init: B, accumulate: (B, TreeNode<K, T>) -> B)
    ensures FoldNodes(xs + ys, init, accumulate) == FoldNodes(ys, FoldNodes(xs, init, accumulate), accumulate)
  {
    if ys != [] {
      assert (xs + ys)[..|xs + ys| - 1] == xs + ys[..|ys| - 1];
      FoldAppend(xs, ys[..|ys| - 1], init, accumulate);
    } else {
      assert xs + ys == xs;
    }
  }

  /** Folding with a counter counts the direct children. */
  lemma {:induction false} FoldCounts<K, T>(nodes: seq<TreeNode<K, T>>)
    ensures FoldNodes(nodes, 0, (b: int, n: TreeNode<K, T>) => b + 1) == |nodes|
  {
    if nodes != [] {
      FoldCounts(nodes[..|nodes| - 1]);
    }
  }

  // ---------------------------------------------------------------------
  // Lookup and creation along a path
  // ---------------------------------------------------------------------

  /** `position`: the first node whose key equals `key`. */
  function Position<K, T>(nodes: seq<TreeNode<K, T>>, key: K, eq: (K, K) -> bool): (r: Option<nat>)
    ensures r.Some? ==> r.value < |nodes| && eq(nodes[r.value].data.key, key)
    ensures r.Some? ==> forall j :: 0 <= j < r.value ==> !eq(nodes[j].data.key, key)
    ensures r.None? ==> forall j :: 0 <= j < |nodes| ==> !eq(nodes[j].data.key, key)
  {
    if nodes == [] then None
    else if eq(nodes[0].data.key, key) then Some(0)
    else match Position(nodes[1..], key, eq)
      case None => None
      case Some(i) => Some(i + 1)
  }

  /**
   * `NodeList::try_get`: the index of the node with that key, appending a
   * new node with the created data and depth `selfDepth + 1` when there is
   * none.
   */
  function TryGetNode<K, T>(nodes: seq<TreeNode<K, T>>, key: K, create: K -> T, selfDepth: nat, eq: (K, K) -> bool): (r: (seq<TreeNode<K, T>>, nat))
    ensures r.1 < |r.0|
    ensures Position(nodes, key, eq).Some? ==> r == (nodes, Position(nodes, key, eq).value)
    ensures Position(nodes, key, eq).None? ==>
              r == (nodes + [NewNode(key, create(key), selfDepth + 1)], |nodes|)
  {
    match Position(nodes, key, eq)
    case Some(i) => (nodes, i)
    case None => (nodes + [NewNode(key, create(key), selfDepth + 1)], |nodes|)
  }

  /**
   * The descent of `Tree::try_get` along `keys`, from the roots (`keys` is
   * the parents from the outermost one, then the key itself): the new node
   * list and the index of the node at each level.
   */
  function InsertPath<K, T>(nodes: seq<TreeNode<K, T>>, keys: seq<K>, create: K -> T, depth: nat, eq: (K, K) -> bool): (r: (seq<TreeNode<K, T>>, seq<nat>))
    requires |keys| >= 1
    ensures |r.1| == |keys|
    decreases |keys|
  {
    var (list, i) := TryGetNode(nodes, keys[0], create, depth, eq);
    if |keys| == 1 then (list, [i])
    else
      var (children, rest) := InsertPath(list[i].children, keys[1..], create, depth + 1, eq);
      (list[i := list[i].(children := children)], [i] + rest)
  }

  /** A path of indices leads to a node. */
  predicate ValidPath<K, T>(nodes: seq<TreeNode<K, T>>, path: seq<nat>)
    decreases |path|
  {
    |path| >= 1 && path[0] < |nodes| && (|path| == 1 || ValidPath(nodes[path[0]].children, path[1..]))
  }

  function NodeAt<K, T>(nodes: seq<TreeNode<K, T>>, path: seq<nat>): TreeNode<K, T>
    requires ValidPath(nodes, path)
    decreases |path|
  {
    if |path| == 1 then nodes[path[0]] else NodeAt(nodes[path[0]].children, path[1..])
  }

  /** The node at each level of the path carries the key of that level (compared by `eq`, or as created). */
  ghost predicate KeysAlong<K, T>(nodes: seq<TreeNode<K, T>>, path: seq<nat>, keys: seq<K>, eq: (K, K) -> bool)
    requires ValidPath(nodes, path) && |keys| == |path|
    decreases |path|
  {
    var key := nodes[path[0]].data.key;
    (eq(key, keys[0]) || key == keys[0])
    && (|path| == 1 || KeysAlong(nodes[path[0]].children, path[1..], keys[1..], eq))
  }

  /** How many leading keys of the path already exist. */
  function Existing<K, T>(nodes: seq<TreeNode<K, T>>, keys: seq<K>, eq: (K, K) -> bool): (r: nat)
    ensures r <= |keys|
    decreases |keys|
  {
    if keys == [] then 0
    else match Position(nodes, keys[0], eq)
      case None => 0
      case Some(i) => 1 + Existing(nodes[i].children, keys[1..], eq)
  }

  /** The path returned leads to a node, with the right key at every level. */
  lemma {:induction false} InsertPathLeadsToKey<K, T>(nodes: seq<TreeNode<K, T>>, keys: seq<K>, create: K -> T, depth: nat, eq: (K, K) -> bool)
    requires |keys| >= 1
    ensures var r := InsertPath(nodes, keys, create, depth, eq);
            ValidPath(r.0, r.1) && KeysAlong(r.0, r.1, keys, eq)
    decreases |keys|
  {
    var (list, i) := TryGetNode(nodes, keys[0], create, depth, eq);
    if |keys| > 1 {
      InsertPathLeadsToKey(list[i].children, keys[1..], create, depth + 1, eq);
    }
  }

  /** When the whole path exists, nothing is inserted. */
  lemma {:induction false} ExistingPathUnchanged<K, T>(nodes: seq<TreeNode<K, T>>, keys: seq<K>, create: K -> T, depth: nat, eq: (K, K) -> bool)
    requires |keys| >= 1 && Existing(nodes, keys, eq) == |keys|
    ensures InsertPath(nodes, keys, create, depth, eq).0 == nodes
  {
    var i := Position(nodes, keys[0], eq).value;
    if |keys| > 1 {
      ExistingPathUnchanged(nodes[i].children, keys[1..], create, depth + 1, eq);
      assert nodes[i := nodes[i]] == nodes;
    }
  }

  lemma {:induction false} CountAppend<K, T>(nodes: seq<TreeNode<K, T>>, n: TreeNode<K, T>)
    ensures Count(nodes + [n]) == Count(nodes) + 1 + Count(n.children)
  {
    assert (nodes + [n])[..|nodes|] == nodes;
  }

  lemma {:induction false} CountUpdate<K, T>(nodes: seq<TreeNode<K, T>>, i: nat, n: TreeNode<K, T>)
    requires i < |nodes|
    ensures Count(nodes[i := n]) + Count(nodes[i].children) == Count(nodes) + Count(n.children)
  {
    var last := |nodes| - 1;
    if i < last {
      assert nodes[i := n][..last] == nodes[..last][i := n];
      CountUpdate(nodes[..last], i, n);
    } else {
      assert nodes[i := n][..last] == nodes[..last];
    }
  }

  /** Exactly one node is created for each level of the path that does not exist yet. */
  lemma {:induction false} InsertPathCount<K, T>(nodes: seq<TreeNode<K, T>>, keys: seq<K>, create: K -> T, depth: nat, eq: (K, K) -> bool)
    requires |keys| >= 1
    ensures Count(InsertPath(nodes, keys, create, depth, eq).0) == Count(nodes) + |keys| - Existing(nodes, keys, eq)
    decreases |keys|
  {
    var (list, i) := TryGetNode(nodes, keys[0], create, depth, eq);
    var pos := Position(nodes, keys[0], eq);
    assert Count(list) == Count(nodes) + (if pos.None? then 1 else 0) by {
      if pos.None? {
        CountAppend(nodes, NewNode(keys[0], create(keys[0]), depth + 1));
      }
    }
    if |keys| > 1 {
      var (children, rest) := InsertPath(list[i].children, keys[1..], create, depth + 1, eq);
      assert InsertPath(nodes, keys, create, depth, eq).0 == list[i := list[i].(children := children)];
      InsertPathCount(list[i].children, keys[1..], create, depth + 1, eq);
      CountUpdate(list, i, list[i].(children := children));
      assert Existing(nodes, keys, eq) == if pos.None? then 0 else 1 + Existing(list[i].children, keys[1..], eq);
      assert pos.None? ==> Existing(list[i].children, keys[1..], eq) == 0;
    } else {
      assert Existing(nodes, keys, eq) == if pos.None? then 0 else 1 + Existing(list[i].children, keys[1..], eq);
    }
  }

  /** Sibling keys are distinct: no node's key equals a later sibling's key. */
  predicate SiblingsUnique<K, T>(nodes: seq<TreeNode<K, T>>, eq: (K, K) -> bool) {
    forall i, j :: 0 <= i < j < |nodes| ==> !eq(nodes[i].data.key, nodes[j].data.key)
  }

  /** Sibling keys are distinct at every level. */
  predicate AllUnique<K, T>(nodes: seq<TreeNode<K, T>>, eq: (K, K) -> bool)
    decreases nodes
  {
    SiblingsUnique(nodes, eq) && forall i :: 0 <= i < |nodes| ==> AllUnique(nodes[i].children, eq)
  }

  /** `try_get` creates a node only when no sibling has its key, so keys stay unique. */
  lemma {:induction false} InsertPathKeepsUnique<K, T>(nodes: seq<TreeNode<K, T>>, keys: seq<K>, create: K -> T, depth: nat, eq: (K, K) -> bool)
    requires |keys| >= 1 && AllUnique(nodes, eq)
    ensures AllUnique(InsertPath(nodes, keys, create, depth, eq).0, eq)
    decreases |keys|
  {
    var (list, i) := TryGetNode(nodes, keys[0], create, depth, eq);
    assert AllUnique(list, eq) by {
      if Position(nodes, keys[0], eq).None? {
        var n := NewNode(keys[0], create(keys[0]), depth + 1);
        assert list == nodes + [n];
        assert AllUnique(n.children, eq);
        forall k | 0 <= k < |list|
          ensures AllUnique(list[k].children, eq)
        {
          if k < |nodes| {
            assert list[k] == nodes[k];
          }
        }
      }
    }
    if |keys| > 1 {
      var (children, rest) := InsertPath(list[i].children, keys[1..], create, depth + 1, eq);
      InsertPathKeepsUnique(list[i].children, keys[1..], create, depth + 1, eq);
      var updated := list[i := list[i].(children := children)];
      forall k | 0 <= k < |updated|
        ensures AllUnique(updated[k].children, eq)
      {
        if k != i {
          assert updated[k] == list[k];
        }
      }
      assert SiblingsUnique(updated, eq) by {
        forall a, b | 0 <= a < b < |updated|
          ensures !eq(updated[a].data.key, updated[b].data.key)
        {
          assert updated[a].data == list[a].data && updated[b].data == list[b].data;
        }
      }
    }
  }

  /**
   * On an empty list, `try_get` creates the whole path: at level `l` (the
   * roots being level 0) a node with that level's key, its created data
   * and depth `l + 1`, so roots have depth 1.
   */
  lemma {:induction false} InsertIntoEmpty<K, T>(keys: seq<K>, create: K -> T, depth: nat, eq: (K, K) -> bool)
    requires |keys| >= 1
    ensures var r := InsertPath([], keys, create, depth, eq);
            && ValidPath(r.0, r.1)
            && (forall l :: 0 <= l < |keys| ==> r.1[l] == 0)
            && NodeAt(r.0, r.1).data == NodeData(keys[|keys| - 1], create(keys[|keys| - 1]), depth + |keys|)
  {
    InsertPathLeadsToKey([], keys, create, depth, eq);
    var r := InsertPath([], keys, create, depth, eq);
    var list := [NewNode(keys[0], create(keys[0]), depth + 1)];
    if |keys| > 1 {
      InsertIntoEmpty(keys[1..], create, depth + 1, eq);
      var sub := InsertPath([], keys[1..], create, depth + 1, eq);
      assert r.1 == [0] + sub.1;
      assert NodeAt(r.0, r.1) == NodeAt(sub.0, sub.1);
      assert keys[1..][|keys[1..]| - 1] == keys[|keys| - 1];
    }
  }

  // ---------------------------------------------------------------------
  // Sorting
  // ---------------------------------------------------------------------

  /** The comparison is antisymmetric, as a sort expects. */
  ghost predicate Antisymmetric<K(!new), T(!new)>(cmp: (NodeData<K, T>, NodeData<K, T>) -> Ordering) {
    forall a, b :: cmp(a, b) == Reverse(cmp(b, a))
  }

  /** Each node compares as less than or equal to the next one. */
  predicate Sorted<K, T>(nodes: seq<TreeNode<K, T>>, cmp: (NodeData<K, T>, NodeData<K, T>) -> Ordering) {
    forall i :: 0 <= i < |nodes| - 1 ==> cmp(nodes[i].data, nodes[i + 1].data) != Greater
  }

  /** Inserts `x` before the first node that compares greater, so equal nodes keep their order. */
  function Insert<K, T>(x: TreeNode<K, T>, sorted: seq<TreeNode<K, T>>, cmp: (NodeData<K, T>, NodeData<K, T>) -> Ordering): (r: seq<TreeNode<K, T>>)
    ensures multiset(r) == multiset(sorted) + multiset{x}
    ensures |r| == |sorted| + 1
    ensures r[0] == x || (sorted != [] && r[0] == sorted[0])
  {
    if sorted == [] then [x]
    else if cmp(x.data, sorted[0].data) == Less then [x] + sorted
    else
      assert sorted == [sorted[0]] + sorted[1..];
      [sorted[0]] + Insert(x, sorted[1..], cmp)
  }

  /** The stable sort of `sort_by`: insertion of each node in turn. */
  function SortBy<K, T>(nodes: seq<TreeNode<K, T>>, cmp: (NodeData<K, T>, NodeData<K, T>) -> Ordering): (r: seq<TreeNode<K, T>>)
    ensures multiset(r) == multiset(nodes)
  {
    if nodes == [] then []
    else
      assert nodes == nodes[..|nodes| - 1] + [nodes[|nodes| - 1]];
      Insert(nodes[|nodes| - 1], SortBy(nodes[..|nodes| - 1], cmp), cmp)
  }

  lemma {:induction false} InsertSorted<K(!new), T(!new)>(x: TreeNode<K, T>, sorted: seq<TreeNode<K, T>>, cmp: (NodeData<K, T>, NodeData<K, T>) -> Ordering)
    requires Antisymmetric(cmp) && Sorted(sorted, cmp)
    ensures Sorted(Insert(x, sorted, cmp), cmp)
  {
    if sorted != [] && cmp(x.data, sorted[0].data) != Less {
      InsertSorted(x, sorted[1..], cmp);
      assert cmp(sorted[0].data, x.data) == Reverse(cmp(x.data, sorted[0].data));
      var r := Insert(x, sorted, cmp);
      assert r == [sorted[0]] + Insert(x, sorted[1..], cmp);
    }
  }

  /** `sort_by` leaves the list sorted by `cmp`, with the same nodes. */
  lemma {:induction false} SortBySorted<K(!new), T(!new)>(nodes: seq<TreeNode<K, T>>, cmp: (NodeData<K, T>, NodeData<K, T>) -> Ordering)
    requires Antisymmetric(cmp)
    ensures Sorted(SortBy(nodes, cmp), cmp)
  {
    if nodes != [] {
      SortBySorted(nodes[..|nodes| - 1], cmp);
      InsertSorted(nodes[|nodes| - 1], SortBy(nodes[..|nodes| - 1], cmp), cmp);
    }
  }

  /** The comparison is transitive, and strictly so when either step is strict. */
  ghost predicate Transitive<K(!new), T(!new)>(cmp: (NodeData<K, T>, NodeData<K, T>) -> Ordering) {
    forall a, b, c :: cmp(a, b) != Greater && cmp(b, c) != Greater ==>
      cmp(a, c) != Greater && (cmp(a, b) == Less || cmp(b, c) == Less ==> cmp(a, c) == Less)
  }

  /** The nodes that compare `Equal` to `key`. */
  function EqualTo<K, T>(key: NodeData<K, T>, cmp: (NodeData<K, T>, NodeData<K, T>) -> Ordering): TreeNode<K, T> -> bool {
    (n: TreeNode<K, T>) => cmp(n.data, key) == Equal
  }

  /** No node of a sorted list that starts above `x` compares equal to `x`'s key. */
  lemma {:induction false} NoneEqualAbove<K(!new), T(!new)>(x: TreeNode<K, T>, sorted: seq<TreeNode<K, T>>,
                                                           key: NodeData<K, T>, cmp: (NodeData<K, T>, NodeData<K, T>) -> Ordering)
    requires Antisymmetric(cmp) && Transitive(cmp) && Sorted(sorted, cmp)
    requires sorted != [] && cmp(x.data, sorted[0].data) == Less && cmp(x.data, key) == Equal
    ensures Filter(sorted, EqualTo(key, cmp)) == []
  {
    assert cmp(key, x.data) == Equal;
    assert cmp(key, sorted[0].data) == Less;
    assert cmp(sorted[0].data, key) == Greater;
    if |sorted| > 1 {
      assert cmp(x.data, sorted[1].data) == Less;
      NoneEqualAbove(x, sorted[1..], key, cmp);
    }
  }

  /** Inserted in front of a larger node, `x` comes after every node equal to it: there is none. */
  lemma InsertFrontStable<K(!new), T(!new)>(x: TreeNode<K, T>, sorted: seq<TreeNode<K, T>>,
                                           key: NodeData<K, T>, cmp: (NodeData<K, T>, NodeData<K, T>) -> Ordering)
    requires Antisymmetric(cmp) && Transitive(cmp) && Sorted(sorted, cmp)
    requires sorted != [] && cmp(x.data, sorted[0].data) == Less
    ensures Filter(Insert(x, sorted, cmp), EqualTo(key, cmp))
         == Filter(sorted, EqualTo(key, cmp)) + Filter([x], EqualTo(key, cmp))
  {
    var p := EqualTo(key, cmp);
    FilterSingle(x, p);
    assert Insert(x, sorted, cmp) == [x] + sorted;
    FilterAppend([x], sorted, p);
    if p(x) {
      NoneEqualAbove(x, sorted, key, cmp);
      assert Filter([x], p) + [] == [] + Filter([x], p);
    } else {
      assert [] + Filter(sorted, p) == Filter(sorted, p) + [];
    }
  }

  /** A node put in front of two lists whose retains differ by a tail keeps that difference. */
  lemma FilterInFront<K, T>(n: TreeNode<K, T>, xs: seq<TreeNode<K, T>>, ys: seq<TreeNode<K, T>>,
                            extra: seq<TreeNode<K, T>>, filter: TreeNode<K, T> -> bool)
    requires Filter(xs, filter) == Filter(ys, filter) + extra
    ensures Filter([n] + xs, filter) == Filter([n] + ys, filter) + extra
  {
    FilterAppend([n], xs, filter);
    FilterAppend([n], ys, filter);
    AppendAssoc(Filter([n], filter), Filter(ys, filter), extra);
  }

  /** Insertion puts `x` after every node that compares equal to it. */
  lemma {:induction false} InsertStable<K(!new), T(!new)>(x: TreeNode<K, T>, sorted: seq<TreeNode<K, T>>,
                                                         key: NodeData<K, T>, cmp: (NodeData<K, T>, NodeData<K, T>) -> Ordering)
    requires Antisymmetric(cmp) && Transitive(cmp) && Sorted(sorted, cmp)
    ensures Filter(Insert(x, sorted, cmp), EqualTo(key, cmp))
         == Filter(sorted, EqualTo(key, cmp)) + Filter([x], EqualTo(key, cmp))
  {
    if sorted == [] {
      FilterSingle(x, EqualTo(key, cmp));
    } else if cmp(x.data, sorted[0].data) == Less {
      InsertFrontStable(x, sorted, key, cmp);
    } else {
      InsertStable(x, sorted[1..], key, cmp);
      assert Insert(x, sorted, cmp) == [sorted[0]] + Insert(x, sorted[1..], cmp);
      FilterInFront(sorted[0], Insert(x, sorted[1..], cmp), sorted[1..], Filter([x], EqualTo(key, cmp)), EqualTo(key, cmp));
      assert [sorted[0]] + sorted[1..] == sorted;
    }
  }

  /**
   * `sort_by` is stable: the nodes that compare equal to any key come out
   * in the order they went in.
   */
  lemma {:induction false} SortByStable<K(!new), T(!new)>(nodes: seq<TreeNode<K, T>>, key: NodeData<K, T>,
                                                         cmp: (NodeData<K, T>, NodeData<K, T>) -> Ordering)
    requires Antisymmetric(cmp) && Transitive(cmp)
    ensures Filter(SortBy(nodes, cmp), EqualTo(key, cmp)) == Filter(nodes, EqualTo(key, cmp))
  {
    if nodes != [] {
      var init, last := nodes[..|nodes| - 1], nodes[|nodes| - 1];
      SortByStable(init, key, cmp);
      SortBySorted(init, cmp);
      InsertStable(last, SortBy(init, cmp), key, cmp);
      FilterAppend(init, [last], EqualTo(key, cmp));
      assert init + [last] == nodes;
    }
  }

  /** Every node's children, sorted recursively. */
  function SortChildren<K, T>(nodes: seq<TreeNode<K, T>>, cmp: (NodeData<K, T>, NodeData<K, T>) -> Ordering): (r: seq<TreeNode<K, T>>)
    ensures |r| == |nodes|
    ensures forall i :: 0 <= i < |nodes| ==> r[i].data == nodes[i].data
    decreases nodes, 1
  {
    seq(|nodes|, i requires 0 <= i < |nodes| => nodes[i].(children := SortRecursive(nodes[i].children, cmp)))
  }

  /**
   * `sort_recursive`: each list sorted by `cmp`, and each node's children
   * sorted the same way.  The source sorts a list before its children's
   * lists; the comparison reads only the node data, which sorting the
   * children leaves alone, so the order of the two steps does not matter.
   */
  function SortRecursive<K, T>(nodes: seq<TreeNode<K, T>>, cmp: (NodeData<K, T>, NodeData<K, T>) -> Ordering): (r: seq<TreeNode<K, T>>)
    decreases nodes, 2
  {
    SortBy(SortChildren(nodes, cmp), cmp)
  }

  /** Sorted at every level. */
  predicate AllSorted<K, T>(nodes: seq<TreeNode<K, T>>, cmp: (NodeData<K, T>, NodeData<K, T>) -> Ordering)
    decreases nodes
  {
    Sorted(nodes, cmp) && forall i :: 0 <= i < |nodes| ==> AllSorted(nodes[i].children, cmp)
  }

  /** The node data of a list, in order. */
  function Datas<K, T>(nodes: seq<TreeNode<K, T>>): (r: seq<NodeData<K, T>>)
    ensures |r| == |nodes| && forall i :: 0 <= i < |nodes| ==> r[i] == nodes[i].data
  {
    seq(|nodes|, i requires 0 <= i < |nodes| => nodes[i].data)
  }

  lemma DatasAppend<K, T>(xs: seq<TreeNode<K, T>>, ys: seq<TreeNode<K, T>>)
    ensures Datas(xs + ys) == Datas(xs) + Datas(ys)
  {
  }

  /** Inserting a node adds its data to the data of the list. */
  lemma {:induction false} InsertDatas<K, T>(x: TreeNode<K, T>, sorted: seq<TreeNode<K, T>>, cmp: (NodeData<K, T>, NodeData<K, T>) -> Ordering)
    ensures multiset(Datas(Insert(x, sorted, cmp))) == multiset(Datas(sorted)) + multiset{x.data}
  {
    if sorted == [] {
    } else if cmp(x.data, sorted[0].data) == Less {
      DatasAppend([x], sorted);
    } else {
      InsertDatas(x, sorted[1..], cmp);
      DatasAppend([sorted[0]], Insert(x, sorted[1..], cmp));
      DatasAppend([sorted[0]], sorted[1..]);
      assert sorted == [sorted[0]] + sorted[1..];
    }
  }

  /** `sort_by` keeps the data of the list. */
  lemma {:induction false} SortByDatas<K, T>(nodes: seq<TreeNode<K, T>>, cmp: (NodeData<K, T>, NodeData<K, T>) -> Ordering)
    ensures multiset(Datas(SortBy(nodes, cmp))) == multiset(Datas(nodes))
  {
    if nodes != [] {
      var init, last := nodes[..|nodes| - 1], nodes[|nodes| - 1];
      assert Datas(nodes) == Datas(init) + [last.data];
      var sortedInit := SortBy(init, cmp);
      assert SortBy(nodes, cmp) == Insert(last, sortedInit, cmp);
      SortByDatas(init, cmp);
      InsertDatas(last, sortedInit, cmp);
    }
  }

  /**
   * After `sort_recursive` every list is sorted by `cmp`, and each list
   * holds the same node data as before.
   */
  lemma {:induction false} SortRecursiveSorted<K(!new), T(!new)>(nodes: seq<TreeNode<K, T>>, cmp: (NodeData<K, T>, NodeData<K, T>) -> Ordering)
    requires Antisymmetric(cmp)
    ensures AllSorted(SortRecursive(nodes, cmp), cmp)
    ensures multiset(Datas(SortRecursive(nodes, cmp))) == multiset(Datas(nodes))
    decreases nodes
  {
    var mapped := SortChildren(nodes, cmp);
    var r := SortRecursive(nodes, cmp);
    SortBySorted(mapped, cmp);
    forall i | 0 <= i < |mapped|
      ensures AllSorted(mapped[i].children, cmp)
    {
      SortRecursiveSorted(nodes[i].children, cmp);
    }
    forall k | 0 <= k < |r|
      ensures AllSorted(r[k].children, cmp)
    {
      assert r[k] in multiset(mapped);
    }
    SortByDatas(mapped, cmp);
    assert Datas(mapped) == Datas(nodes);
  }

  // ---------------------------------------------------------------------
  // Filtering
  // ---------------------------------------------------------------------

  /** `Vec::retain`: the nodes the filter accepts, in order. */
  function Filter<K, T>(nodes: seq<TreeNode<K, T>>, filter: TreeNode<K, T> -> bool): (r: seq<TreeNode<K, T>>)
    ensures forall i :: 0 <= i < |r| ==> filter(r[i]) && r[i] in nodes
    ensures forall n :: n in nodes && filter(n) ==> n in r
  {
    if nodes == [] then []
    else if filter(nodes[0]) then [nodes[0]] + Filter(nodes[1..], filter)
    else Filter(nodes[1..], filter)
  }

  /** `retain` keeps a single node exactly when the filter accepts it. */
  lemma FilterSingle<K, T>(n: TreeNode<K, T>, filter: TreeNode<K, T> -> bool)
    ensures Filter([n], filter) == if filter(n) then [n] else []
  {
    assert [n][1..] == [];
  }

  /**
   * `retain` works piecewise: the nodes kept from two runs of siblings are
   * those kept from the first, then those kept from the second. With
   * `FilterSingle` this fixes the result to the accepted nodes in their
   * original order, each once.
   */
  lemma {:induction false} FilterAppend<K, T>(xs: seq<TreeNode<K, T>>, ys: seq<TreeNode<K, T>>, filter: TreeNode<K, T> -> bool)
    ensures Filter(xs + ys, filter) == Filter(xs, filter) + Filter(ys, filter)
  {
    if xs != [] {
      var head := if filter(xs[0]) then [xs[0]] else [];
      assert Filter(xs + ys, filter) == head + Filter(xs[1..] + ys, filter) by {
        assert (xs + ys)[0] == xs[0];
        assert (xs + ys)[1..] == xs[1..] + ys;
      }
      FilterAppend(xs[1..], ys, filter);
      AppendAssoc(head, Filter(xs[1..], filter), Filter(ys, filter));
    } else {
      assert xs + ys == ys;
    }
  }

  /** A node whose children were filtered first. */
  function Pruned<K, T>(n: TreeNode<K, T>, filter: TreeNode<K, T> -> bool): TreeNode<K, T>
    decreases n, 0
  {
    n.(children := RetainRecursive(n.children, filter))
  }

  /** Every node with its children pruned, in order. */
  function PruneAll<K, T>(nodes: seq<TreeNode<K, T>>, filter: TreeNode<K, T> -> bool): (r: seq<TreeNode<K, T>>)
    ensures |r| == |nodes| && forall i :: 0 <= i < |nodes| ==> r[i] == Pruned(nodes[i], filter)
    decreases nodes, 1
  {
    seq(|nodes|, i requires 0 <= i < |nodes| => Pruned(nodes[i], filter))
  }

  /** `retain_recursive`: the children are filtered first, then the node itself. */
  function RetainRecursive<K, T>(nodes: seq<TreeNode<K, T>>, filter: TreeNode<K, T> -> bool): seq<TreeNode<K, T>>
    decreases nodes, 2
  {
    Filter(PruneAll(nodes, filter), filter)
  }

  /** Every node at every level satisfies the filter. */
  predicate AllKept<K, T>(nodes: seq<TreeNode<K, T>>, filter: TreeNode<K, T> -> bool)
    decreases nodes
  {
    forall i :: 0 <= i < |nodes| ==> filter(nodes[i]) && AllKept(nodes[i].children, filter)
  }

  /**
   * A node stays exactly when the filter accepts it as it is once its own
   * children have been filtered, and then it stays with those children;
   * every node that remains, at any level, satisfies the filter.
   */
  lemma {:induction false} RetainSeesPrunedChildren<K, T>(nodes: seq<TreeNode<K, T>>, filter: TreeNode<K, T> -> bool)
    ensures forall n :: n in nodes ==> (Pruned(n, filter) in RetainRecursive(nodes, filter) <==> filter(Pruned(n, filter)))
    ensures AllKept(RetainRecursive(nodes, filter), filter)
    decreases nodes
  {
    var pruned := PruneAll(nodes, filter);
    var r := RetainRecursive(nodes, filter);
    forall n | n in nodes
      ensures Pruned(n, filter) in r <==> filter(Pruned(n, filter))
    {
      var i :| 0 <= i < |nodes| && nodes[i] == n;
      assert pruned[i] == Pruned(n, filter);
    }
    forall k | 0 <= k < |r|
      ensures AllKept(r[k].children, filter)
    {
      var i :| 0 <= i < |pruned| && pruned[i] == r[k];
      RetainSeesPrunedChildren(nodes[i].children, filter);
    }
  }

  /**
   * With a filter that keeps every node that still has children, which is
   * what the comment of `retain` has in mind, a node without children that
   * remains satisfies the rest of the filter.
   */
  lemma RetainKeepsParents<K, T>(nodes: seq<TreeNode<K, T>>, keep: TreeNode<K, T> -> bool)
    ensures var r := RetainRecursive(nodes, n => HasChildren(n) || keep(n));
            forall i :: 0 <= i < |r| && !HasChildren(r[i]) ==> keep(r[i])
  {
    RetainSeesPrunedChildren(nodes, n => HasChildren(n) || keep(n));
  }

  // ---------------------------------------------------------------------
  // Traversal
  // ---------------------------------------------------------------------

  /** The nodes `traverse_recursive` hands to `process`, in order. */
  function TraverseRecursive<K, T>(nodes: seq<TreeNode<K, T>>, parentFirst: bool): seq<TreeNode<K, T>>
    decreases nodes
  {
    if nodes == [] then []
    else
      var n := nodes[0];
      (if parentFirst then [n] + TraverseRecursive(n.children, parentFirst) else TraverseRecursive(n.children, parentFirst) + [n])
      + TraverseRecursive(nodes[1..], parentFirst)
  }

  /** Every node is visited once, whichever the order: the visits are the same nodes either way. */
  lemma {:induction false} TraverseVisitsAll<K, T>(nodes: seq<TreeNode<K, T>>)
    ensures multiset(TraverseRecursive(nodes, true)) == multiset(TraverseRecursive(nodes, false))
    ensures |TraverseRecursive(nodes, true)| == Count(nodes)
    decreases nodes
  {
    if nodes != [] {
      TraverseVisitsAll(nodes[0].children);
      TraverseVisitsAll(nodes[1..]);
      CountFirst(nodes);
    }
  }

  lemma {:induction false} CountFirst<K, T>(nodes: seq<TreeNode<K, T>>)
    requires nodes != []
    ensures Count(nodes) == 1 + Count(nodes[0].children) + Count(nodes[1..])
    decreases |nodes|
  {
    if |nodes| > 1 {
      var init := nodes[..|nodes| - 1];
      CountFirst(init);
      assert init[0] == nodes[0];
      assert init[1..] == nodes[1..][..|nodes[1..]| - 1];
    } else {
      assert nodes[..0] == [] && nodes[1..] == [];
    }
  }

  /** A node is visited before all of its descendants when parent first, after them otherwise. */
  lemma ParentPosition<K, T>(n: TreeNode<K, T>)
    ensures TraverseRecursive([n], true) == [n] + TraverseRecursive(n.children, true)
    ensures TraverseRecursive([n], false) == TraverseRecursive(n.children, false) + [n]
  {
    assert [n][1..] == [];
  }

  /**
   * `traverse_recursive_mut` with a `process` that computes a node's new
   * data: parent first, it sees the node before its children are
   * processed; otherwise after.
   */
  function TraverseRecursiveMut<K, T>(nodes: seq<TreeNode<K, T>>, process: TreeNode<K, T> -> NodeData<K, T>, parentFirst: bool): seq<TreeNode<K, T>>
    decreases nodes
  {
    if nodes == [] then []
    else
      var n := nodes[0];
      var m := if parentFirst then
                 var n1 := n.(data := process(n));
                 n1.(children := TraverseRecursiveMut(n.children, process, parentFirst))
               else
                 var n1 := n.(children := TraverseRecursiveMut(n.children, process, parentFirst));
                 n1.(data := process(n1));
      [m] + TraverseRecursiveMut(nodes[1..], process, parentFirst)
  }

  /** Same shape: the same number of nodes, each with the same number of children, at every level. */
  predicate SameShape<K, T>(xs: seq<TreeNode<K, T>>, ys: seq<TreeNode<K, T>>)
    decreases xs
  {
    |xs| == |ys| && forall i :: 0 <= i < |xs| ==> SameShape(xs[i].children, ys[i].children)
  }

  /** Processing changes data only, never the shape of the tree. */
  lemma {:induction false} TraverseMutKeepsShape<K, T>(nodes: seq<TreeNode<K, T>>, process: TreeNode<K, T> -> NodeData<K, T>, parentFirst: bool)
    ensures SameShape(TraverseRecursiveMut(nodes, process, parentFirst), nodes)
    decreases nodes
  {
    if nodes != [] {
      TraverseMutKeepsShape(nodes[0].children, process, parentFirst);
      TraverseMutKeepsShape(nodes[1..], process, parentFirst);
      var r := TraverseRecursiveMut(nodes, process, parentFirst);
      forall i | 0 <= i < |r|
        ensures SameShape(r[i].children, nodes[i].children)
      {
        if i > 0 {
          assert r[i] == TraverseRecursiveMut(nodes[1..], process, parentFirst)[i - 1];
          assert nodes[i] == nodes[1..][i - 1];
        }
      }
    }
  }

  // ---------------------------------------------------------------------
  // The tree
  // ---------------------------------------------------------------------

  class Tree<K, T> {
    var roots: seq<TreeNode<K, T>>

    /** `Tree::default`: no nodes. */
    constructor ()
      ensures roots == []
    {
      roots := [];
    }

    /**
     * `try_get`: `parents` lists the immediate parent first; the descent
     * goes from the outermost parent down to `key`, creating what is
     * missing.  Returns the index path to the node whose data the source
     * hands back.
     */
    method TryGet(key: K, parents: seq<K>, create: K -> T, eq: (K, K) -> bool) returns (path: seq<nat>)
      modifies this
      ensures var r := InsertPath(old(roots), Reversed(parents) + [key], create, 0, eq);
              roots == r.0 && path == r.1
      ensures ValidPath(roots, path) && KeysAlong(roots, path, Reversed(parents) + [key], eq)
      ensures |path| == |parents| + 1
    {
      var keys := Reversed(parents) + [key];
      var r := InsertPath(roots, keys, create, 0, eq);
      InsertPathLeadsToKey(roots, keys, create, 0, eq);
      roots, path := r.0, r.1;
    }

    /** `sort`. */
    method Sort(cmp: (NodeData<K, T>, NodeData<K, T>) -> Ordering)
      modifies this
      ensures roots == SortRecursive(old(roots), cmp)
    {
      roots := SortRecursive(roots, cmp);
    }

    /** `retain`. */
    method Retain(filter: TreeNode<K, T> -> bool)
      modifies this
      ensures roots == RetainRecursive(old(roots), filter)
    {
      roots := RetainRecursive(roots, filter);
    }

    /** `traverse_mut`. */
    method TraverseMut(process: TreeNode<K, T> -> NodeData<K, T>, parentFirst: bool)
      modifies this
      ensures roots == TraverseRecursiveMut(old(roots), process, parentFirst)
    {
      roots := TraverseRecursiveMut(roots, process, parentFirst);
    }

    /** `traverse`: the nodes handed to `process`, in order. */
    function Traverse(parentFirst: bool): seq<TreeNode<K, T>>
      reads this
    {
      TraverseRecursive(roots, parentFirst)
    }
  }

  /** The parents listed from the outermost one. */
  function Reversed<K>(s: seq<K>): (r: seq<K>)
    ensures |r| == |s| && forall i :: 0 <= i < |s| ==> r[i] == s[|s| - 1 - i]
  {
    if s == [] then [] else Reversed(s[1..]) + [s[0]]
  }
}
