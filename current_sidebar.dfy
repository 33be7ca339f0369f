/**
 * The sidebar tree of ui/Sidebar/Sidebar.ts: logs grouped by the path of their
 * source file, with a gate that withholds the root until the page has loaded and
 * a per-call-site counter that gives log nodes their ids.
 */
module CurrentSidebar {
  import opened Wrappers
  import opened Text
  import opened Sorting
  import opened PathTree
  import opened SidebarLog

  /** A node of the tree. Path nodes carry the part of the tree below them. */
  datatype Node =
    | PathNode(id: string, segment: string, value: Tree<TreeLog>)
    | LogNode(id: string, log: TreeLog)
    | ArgNode(id: string, log: TreeLog, preview: Preview)
    | PropNode(id: string, log: TreeLog, name: string, preview: Preview)

  /** The answer to a children request: the nodes, or a request that waits for the `load` signal. */
  datatype Children = Ready(nodes: seq<Node>) | Pending

  // ---------------------------------------------------------------------------
  // Root items

  predicate IdLe(a: Node, b: Node)
  {
    StrLe(a.id, b.id)
  }

  lemma IdLeIsTotalPreorder()
    ensures TotalPreorder(IdLe)
  {
    forall a: Node, b: Node ensures IdLe(a, b) || IdLe(b, a) { StrLeTotal(a.id, b.id); }
    forall a: Node, b: Node, c: Node | IdLe(a, b) && IdLe(b, c) ensures IdLe(a, c) {
      StrLeTransitive(a.id, b.id, c.id);
    }
  }

  /** The comparator of the root items: `a.id > b.id ? 1 : -1`. */
  function IdCompare(a: Node, b: Node): int
  {
    if !StrLe(a.id, b.id) then 1 else -1
  }

  /** For distinct ids the comparator puts `a` first exactly when `IdLe` does. */
  lemma IdCompareAgreesWithIdLe(a: Node, b: Node)
    requires a.id != b.id
    ensures IdCompare(a, b) < 0 <==> IdLe(a, b)
    ensures IdCompare(a, b) == -IdCompare(b, a)
  {
    if StrLe(a.id, b.id) && StrLe(b.id, a.id) { StrLeAntisymmetric(a.id, b.id); }
    StrLeTotal(a.id, b.id);
  }

  /** One path node per top-level key, the key being both id and label. */
  function TopNodes(es: seq<Entry<TreeLog>>): (r: seq<Node>)
    ensures |r| == |es|
    ensures forall i :: 0 <= i < |es| ==> r[i] == PathNode(es[i].key, es[i].key, es[i].node)
  {
    seq(|es|, i requires 0 <= i < |es| => PathNode(es[i].key, es[i].key, es[i].node))
  }

  /** `pathItems`: the top-level path nodes in ascending order of id. */
  function PathItems(es: seq<Entry<TreeLog>>): (r: seq<Node>)
    ensures multiset(r) == multiset(TopNodes(es))
    ensures SortedBy(r, IdLe)
  {
    IdLeIsTotalPreorder();
    SortByCorrect(TopNodes(es), IdLe);
    SortBy(TopNodes(es), IdLe)
  }

  /** The root lists every top-level key once, in strictly ascending order. */
  lemma PathItemsListKeysInOrder(es: seq<Entry<TreeLog>>)
    requires DistinctKeys(es)
    ensures |PathItems(es)| == |es|
    ensures forall e :: e in es ==> PathNode(e.key, e.key, e.node) in PathItems(es)
    ensures forall n :: n in PathItems(es) ==> n.PathNode? && Entry(n.segment, n.value) in es && n.id == n.segment
    ensures forall i, j :: 0 <= i < j < |PathItems(es)| ==> StrLe(PathItems(es)[i].id, PathItems(es)[j].id) && PathItems(es)[i].id != PathItems(es)[j].id
  {
    var r, t := PathItems(es), TopNodes(es);
    assert |r| == |multiset(r)| == |multiset(t)| == |t|;
    forall e | e in es ensures PathNode(e.key, e.key, e.node) in r {
      var i :| 0 <= i < |es| && es[i] == e;
      assert t[i] in multiset(t);
    }
    forall n | n in r ensures n.PathNode? && Entry(n.segment, n.value) in es && n.id == n.segment {
      assert n in multiset(t);
      var i :| 0 <= i < |t| && t[i] == n;
      assert es[i] == Entry(n.segment, n.value);
    }
    forall i, j | 0 <= i < j < |r| ensures r[i].id != r[j].id {
      DistinctIdsInPathItems(es, r, i, j);
    }
  }

  lemma DistinctIdsInPathItems(es: seq<Entry<TreeLog>>, r: seq<Node>, i: nat, j: nat)
    requires DistinctKeys(es) && r == PathItems(es) && i < j < |r|
    ensures r[i].id != r[j].id
  {
    DistinctIdsInPermutation(es, r, i, j);
  }

  /** Any reordering of the top-level nodes of a tree with distinct keys has distinct ids. */
  lemma DistinctIdsInPermutation(es: seq<Entry<TreeLog>>, r: seq<Node>, i: nat, j: nat)
    requires DistinctKeys(es) && multiset(r) == multiset(TopNodes(es)) && i < j < |r|
    ensures r[i].id != r[j].id
  {
    var t := TopNodes(es);
    assert r[i] in multiset(t) && r[j] in multiset(t);
    var a :| 0 <= a < |t| && t[a] == r[i];
    var b :| 0 <= b < |t| && t[b] == r[j];
    SingleOccurrence(t, a);
    OccursOnce(r, i);
    assert t[a] != t[b];
    assert es[a].key != es[b].key;
  }

  /** In a sequence of distinct path nodes each occurs once. */
  lemma SingleOccurrence(t: seq<Node>, a: nat)
    requires a < |t| && forall x, y :: 0 <= x < y < |t| ==> t[x].id != t[y].id
    ensures multiset(t)[t[a]] == 1
  {
    assert t == t[..a] + [t[a]] + t[a + 1..];
    assert forall k :: 0 <= k < |t[..a]| ==> t[..a][k] != t[a];
    var after := t[a + 1..];
    assert forall k :: 0 <= k < |after| ==> after[k] != t[a];
    assert multiset(t[..a])[t[a]] == 0 && multiset(t[a + 1..])[t[a]] == 0;
  }

  /** An element that occurs once in `r` is at no other position. */
  lemma OccursOnce<T>(r: seq<T>, i: nat)
    requires i < |r| && multiset(r)[r[i]] == 1
    ensures forall j :: 0 <= j < |r| && j != i ==> r[j] != r[i]
  {
    forall j | 0 <= j < |r| && j != i ensures r[j] != r[i] {
      var lo, hi := if i < j then i else j, if i < j then j else i;
      assert r == r[..lo] + [r[lo]] + r[lo + 1..hi] + [r[hi]] + r[hi + 1..];
      assert multiset(r)[r[i]] >= 1 + (if r[lo] == r[hi] then 1 else 0);
    }
  }

  // ---------------------------------------------------------------------------
  // Node ids of log nodes (`getArgId`)

  /** `key[n]`. */
  function IndexedId(key: string, n: nat): string
  {
    key + "[" + NatToString(n) + "]"
  }

  /** The call-site key `source:line:column` of a log. */
  function SiteKey(log: TreeLog): string
  {
    log.source + ":" + IntToString(log.line) + ":" + IntToString(log.column)
  }

  /**
   * The index `getArgId(key, id)` puts in the id, and the counter map after it: a
   * first request stores 0; a request whose position is within the stored counter
   * uses the position; any other increments the counter and uses it.
   */
  function NextArgIndex(cache: map<string, nat>, key: string, id: nat): (r: (nat, map<string, nat>))
    ensures key in r.1 && r.0 <= r.1[key] && r.0 <= id
    ensures key in cache ==> r.1[key] >= cache[key]
    ensures forall k :: k != key ==> (k in r.1 <==> k in cache) && (k in cache ==> r.1[k] == cache[k])
    ensures key !in cache ==> r == (0, cache[key := 0])
    ensures key in cache && id <= cache[key] ==> r == (id, cache)
    ensures key in cache && cache[key] < id ==> r.0 == cache[key] + 1 == r.1[key]
  {
    if key in cache then
      if cache[key] >= id then (id, cache)
      else (cache[key] + 1, cache[key := cache[key] + 1])
    else (0, cache[key := 0])
  }

  /** The indices `getArgId` hands out for the logs of one leaf with keys `keys`, and the counters after. */
  function ArgIndices(cache: map<string, nat>, keys: seq<string>): (r: (seq<nat>, map<string, nat>))
    ensures |r.0| == |keys|
  {
    if keys == [] then ([], cache)
    else
      var prev := ArgIndices(cache, keys[..|keys| - 1]);
      var next := NextArgIndex(prev.1, keys[|keys| - 1], |keys| - 1);
      (prev.0 + [next.0], next.1)
  }

  /**
   * Within one expansion of a leaf, logs of the same call site get distinct ids,
   * whatever the counters held before: every index handed out is at most its
   * position and at most the counter of its key, so a later one is always new.
   */
  lemma {:induction false} ArgIndicesInvariant(cache: map<string, nat>, keys: seq<string>)
    ensures var r := ArgIndices(cache, keys);
      forall i, j :: 0 <= i < j < |keys| && keys[i] == keys[j] ==> r.0[i] != r.0[j]
  {
    if keys != [] {
      var n := |keys| - 1;
      ArgIndicesInvariant(cache, keys[..n]);
      ArgIndicesBounds(cache, keys[..n]);
      var prev := ArgIndices(cache, keys[..n]);
      var next := NextArgIndex(prev.1, keys[n], n);
      var r := ArgIndices(cache, keys);
      assert r == (prev.0 + [next.0], next.1);
      forall i, j | 0 <= i < j < |keys| && keys[i] == keys[j]
        ensures r.0[i] != r.0[j]
      {
        assert r.0[i] == prev.0[i] && keys[..n][i] == keys[i];
        if j < n {
          assert r.0[j] == prev.0[j] && keys[..n][j] == keys[j];
        } else {
          assert r.0[j] == next.0;
        }
      }
    }
  }

  /** Every index is at most its position and at most the counter of its key. */
  lemma {:induction false} ArgIndicesBounds(cache: map<string, nat>, keys: seq<string>)
    ensures var r := ArgIndices(cache, keys);
      forall i :: 0 <= i < |keys| ==> r.0[i] <= i && keys[i] in r.1 && r.0[i] <= r.1[keys[i]]
  {
    if keys != [] {
      var n := |keys| - 1;
      ArgIndicesBounds(cache, keys[..n]);
      var prev := ArgIndices(cache, keys[..n]);
      var next := NextArgIndex(prev.1, keys[n], n);
      var r := ArgIndices(cache, keys);
      assert r == (prev.0 + [next.0], next.1);
      forall i | 0 <= i < n
        ensures r.0[i] <= i && keys[i] in r.1 && r.0[i] <= r.1[keys[i]]
      {
        assert r.0[i] == prev.0[i] && keys[..n][i] == keys[i];
      }
    }
  }

  /** The counters never decrease and are never dropped. */
  lemma {:induction false} ArgCountersGrow(cache: map<string, nat>, keys: seq<string>)
    ensures var r := ArgIndices(cache, keys);
      forall k :: k in cache ==> k in r.1 && r.1[k] >= cache[k]
  {
    if keys != [] {
      var n := |keys| - 1;
      ArgCountersGrow(cache, keys[..n]);
    }
  }

  lemma SameSiteIdsDistinct(cache: map<string, nat>, keys: seq<string>, i: nat, j: nat)
    requires i < j < |keys| && keys[i] == keys[j]
    ensures var ns := ArgIndices(cache, keys).0; IndexedId(keys[i], ns[i]) != IndexedId(keys[j], ns[j])
  {
    ArgIndicesInvariant(cache, keys);
    var ns := ArgIndices(cache, keys).0;
    if IndexedId(keys[i], ns[i]) == IndexedId(keys[j], ns[j]) {
      IndexedIdInjective(keys[i], ns[i], ns[j]);
    }
  }

  lemma IndexedIdInjective(key: string, m: nat, n: nat)
    requires IndexedId(key, m) == IndexedId(key, n)
    ensures m == n
  {
    var a, b := IndexedId(key, m), IndexedId(key, n);
    assert |NatToString(m)| == |NatToString(n)|;
    assert NatToString(m) == a[|key| + 1..|a| - 1];
    assert NatToString(n) == b[|key| + 1..|b| - 1];
    NatToStringInjective(m, n);
  }

  /** When every counter already covers its position, ids are `key[position]` and no counter moves. */
  lemma {:induction false} ArgIndicesAtFixpoint(cache: map<string, nat>, keys: seq<string>)
    requires forall i :: 0 <= i < |keys| ==> keys[i] in cache && cache[keys[i]] >= i
    ensures ArgIndices(cache, keys).1 == cache
    ensures forall i :: 0 <= i < |keys| ==> ArgIndices(cache, keys).0[i] == i
  {
    if keys != [] {
      var n := |keys| - 1;
      assert forall i :: 0 <= i < n ==> keys[..n][i] == keys[i];
      ArgIndicesAtFixpoint(cache, keys[..n]);
      assert NextArgIndex(cache, keys[n], n) == (n, cache);
    }
  }

  /**
   * Ids are not stable across expansions: a leaf with logs from two call sites gets
   * `a[0]`, `b[0]` the first time and `a[0]`, `b[1]` the second time.
   */
  lemma IdsShiftOnSecondExpansion()
    ensures var first := ArgIndices(map[], ["a", "b"]);
      && first.0 == [0, 0]
      && ArgIndices(first.1, ["a", "b"]).0 == [0, 1]
  {
    var empty: map<string, nat> := map[];
    assert ["a", "b"][..1] == ["a"];
    assert ["a"][..0] == [];
    assert ArgIndices(empty, []) == ([], empty);
    assert NextArgIndex(empty, "a", 0) == (0, map["a" := 0]);
    var c1 := ArgIndices(empty, ["a"]);
    assert c1.0 == [] + [0] == [0];
    assert c1.1 == map["a" := 0];
    assert NextArgIndex(c1.1, "b", 1) == (0, map["a" := 0, "b" := 0]);
    var first := ArgIndices(empty, ["a", "b"]);
    assert first.0 == [0] + [0] == [0, 0];
    var c := first.1;
    assert c == map["a" := 0, "b" := 0];
    assert ArgIndices(c, []) == ([], c);
    assert NextArgIndex(c, "a", 0) == (0, c);
    var d1 := ArgIndices(c, ["a"]);
    assert d1.0 == [] + [0] == [0];
    assert d1.1 == c;
    assert NextArgIndex(c, "b", 1) == (1, c["b" := 1]);
    assert ArgIndices(c, ["a", "b"]).0 == [0] + [1] == [0, 1];
  }

  // ---------------------------------------------------------------------------
  // Children of path, log and argument nodes

  /** A log under a leaf: a log node when it has more than one argument, else a node for its one argument. */
  function LeafItem(log: TreeLog, id: string): (n: Node)
    ensures n.id == id && !n.PathNode? && !n.PropNode? && n.log == log
    ensures n.LogNode? <==> log.argCount > 1
  {
    if log.argCount > 1 then LogNode(id, log) else ArgNode(id, log, log.firstPreview)
  }

  function SiteKeys(logs: seq<TreeLog>): (ks: seq<string>)
    ensures |ks| == |logs| && forall i :: 0 <= i < |logs| ==> ks[i] == SiteKey(logs[i])
  {
    seq(|logs|, i requires 0 <= i < |logs| => SiteKey(logs[i]))
  }

  function LeafItems(logs: seq<TreeLog>, ns: seq<nat>): (r: seq<Node>)
    requires |ns| == |logs|
    ensures |r| == |logs|
  {
    seq(|logs|, i requires 0 <= i < |logs| => LeafItem(logs[i], IndexedId(SiteKey(logs[i]), ns[i])))
  }

  /** The line of the log a node shows; path nodes show none. */
  function NodeLine(n: Node): int
  {
    if n.PathNode? then 0 else n.log.line
  }

  predicate NodeByLine(a: Node, b: Node)
  {
    NodeLine(a) <= NodeLine(b)
  }

  lemma NodeByLineIsTotalPreorder()
    ensures TotalPreorder(NodeByLine)
  {
  }

  lemma ArgIndicesStep(cache: map<string, nat>, keys: seq<string>, i: nat)
    requires i < |keys|
    ensures var prev := ArgIndices(cache, keys[..i]);
      var next := NextArgIndex(prev.1, keys[i], i);
      ArgIndices(cache, keys[..i + 1]) == (prev.0 + [next.0], next.1)
  {
    assert keys[..i + 1][..i] == keys[..i];
  }

  lemma LeafItemsStep(logs: seq<TreeLog>, ns: seq<nat>, i: nat, n: nat)
    requires i < |logs| && |ns| == i
    ensures LeafItems(logs[..i + 1], ns + [n]) == LeafItems(logs[..i], ns) + [LeafItem(logs[i], IndexedId(SiteKey(logs[i]), n))]
  {
  }

  /** The comparator of the leaf items: the difference of the lines. */
  function LineCompare(a: Node, b: Node): int
  {
    NodeLine(a) - NodeLine(b)
  }

  lemma LineCompareAgreesWithNodeByLine(a: Node, b: Node)
    ensures LineCompare(a, b) <= 0 <==> NodeByLine(a, b)
    ensures LineCompare(a, b) == 0 <==> NodeByLine(a, b) && NodeByLine(b, a)
  {
  }

  /** Directory children: one path node per key, in key order, with id `parentId/key`. */
  function DirChildren(parentId: string, es: seq<Entry<TreeLog>>): (r: seq<Node>)
    ensures |r| == |es|
  {
    seq(|es|, i requires 0 <= i < |es| => PathNode(parentId + "/" + es[i].key, es[i].key, es[i].node))
  }

  /** Children of a directory get distinct ids, each naming the parent and the key. */
  lemma DirChildrenIds(parentId: string, es: seq<Entry<TreeLog>>)
    requires DistinctKeys(es)
    ensures var r := DirChildren(parentId, es);
      && (forall i :: 0 <= i < |r| ==>
            && r[i].PathNode? && r[i].segment == es[i].key && r[i].value == es[i].node
            && r[i].id[..|parentId| + 1] == parentId + "/" && r[i].id[|parentId| + 1..] == es[i].key)
      && (forall i, j :: 0 <= i < j < |r| ==> r[i].id != r[j].id)
  {
    var r := DirChildren(parentId, es);
    forall i, j | 0 <= i < j < |r| ensures r[i].id != r[j].id {
      assert r[i].id[|parentId| + 1..] == es[i].key;
      assert r[j].id[|parentId| + 1..] == es[j].key;
    }
  }

  /** Children of a log node: one argument node per argument preview, with id `parentId[i]`. */
  function ArgChildren(parentId: string, log: TreeLog): (r: seq<Node>)
    ensures |r| == |log.argPreviews|
  {
    seq(|log.argPreviews|, i requires 0 <= i < |log.argPreviews| => ArgNode(IndexedId(parentId, i), log, log.argPreviews[i]))
  }

  /** The argument nodes of a log node show its arguments in order, under distinct ids. */
  lemma ArgChildrenShowArguments(parentId: string, log: TreeLog)
    ensures var r := ArgChildren(parentId, log);
      && (forall i :: 0 <= i < |r| ==> r[i].ArgNode? && r[i].log == log && r[i].preview == log.argPreviews[i])
      && (forall i, j :: 0 <= i < j < |r| ==> r[i].id != r[j].id)
  {
    var r := ArgChildren(parentId, log);
    forall i, j | 0 <= i < j < |r| ensures r[i].id != r[j].id {
      if r[i].id == r[j].id { IndexedIdInjective(parentId, i, j); }
    }
  }

  // ---------------------------------------------------------------------------
  // Property children

  /** The group of a property name: plain 0, `Symbol(` 1, `__` 2, `[[` 3. */
  function Rank(name: string): (r: nat)
    ensures r <= 3
  {
    if StartsWith(name, "[[") then 3
    else if StartsWith(name, "__") then 2
    else if StartsWith(name, "Symbol(") then 1
    else 0
  }

  /** The comparator of the property nodes, case by case as written. */
  function PropCompare(a: Property, b: Property): int
  {
    if StartsWith(a.name, "[[") then 1
    else if StartsWith(b.name, "[[") then -1
    else if StartsWith(a.name, "__") then 1
    else if StartsWith(b.name, "__") then -1
    else if StartsWith(a.name, "Symbol(") then 1
    else if StartsWith(b.name, "Symbol(") then -1
    else if !StrLe(a.name, b.name) then 1
    else -1
  }

  /** Properties by group, plain names in ascending order; within the other groups all are equivalent. */
  predicate PropLe(a: Property, b: Property)
  {
    Rank(a.name) < Rank(b.name)
    || (Rank(a.name) == Rank(b.name) && (Rank(a.name) != 0 || StrLe(a.name, b.name)))
  }

  lemma PropLeIsTotalPreorder()
    ensures TotalPreorder(PropLe)
  {
    forall a: Property, b: Property ensures PropLe(a, b) || PropLe(b, a) { StrLeTotal(a.name, b.name); }
    forall a: Property, b: Property, c: Property | PropLe(a, b) && PropLe(b, c) ensures PropLe(a, c) {
      if Rank(a.name) == Rank(b.name) == Rank(c.name) == 0 { StrLeTransitive(a.name, b.name, c.name); }
    }
  }

  /**
   * The comparator agrees with `PropLe` across groups and among plain names; inside
   * the `Symbol(`, `__` and `[[` groups it answers 1 both ways.
   */
  lemma PropCompareAgreesWithPropLe(a: Property, b: Property)
    ensures Rank(a.name) != Rank(b.name) ==> (PropCompare(a, b) < 0 <==> Rank(a.name) < Rank(b.name))
    ensures Rank(a.name) == Rank(b.name) == 0 && a.name != b.name ==> (PropCompare(a, b) < 0 <==> PropLe(a, b))
    ensures Rank(a.name) == Rank(b.name) != 0 ==> PropCompare(a, b) == 1 && PropCompare(b, a) == 1
  {
    if StrLe(a.name, b.name) && StrLe(b.name, a.name) { StrLeAntisymmetric(a.name, b.name); }
  }

  /** The properties shown: all of them with `showEnumerable`, else the enumerable ones, in fetch order. */
  function VisibleProps(props: seq<Property>, showEnumerable: bool): (r: seq<Property>)
    ensures forall p :: p in r <==> p in props && (showEnumerable || p.enumerable)
    ensures |r| <= |props|
  {
    if props == [] then []
    else
      var rest := VisibleProps(props[1..], showEnumerable);
      assert forall p :: p in props <==> p == props[0] || p in props[1..];
      if showEnumerable || props[0].enumerable then [props[0]] + rest else rest
  }

  /** The shown properties in display order. */
  function OrderedProps(props: seq<Property>, showEnumerable: bool): (r: seq<Property>)
    ensures multiset(r) == multiset(VisibleProps(props, showEnumerable))
    ensures SortedBy(r, PropLe)
  {
    PropLeIsTotalPreorder();
    SortByCorrect(VisibleProps(props, showEnumerable), PropLe);
    SortBy(VisibleProps(props, showEnumerable), PropLe)
  }

  /** `parentId['name']`. */
  function PropId(parentId: string, name: string): string
  {
    parentId + "['" + name + "']"
  }

  /** Children of an argument or property node, given what fetching its properties gave. */
  function PropChildren(parentId: string, log: TreeLog, preview: Preview, showEnumerable: bool, fetched: Fetch): (r: seq<Node>)
  {
    if Expandable(preview) && fetched.Fetched? then
      var ps := OrderedProps(fetched.props, showEnumerable);
      seq(|ps|, i requires 0 <= i < |ps| => PropNode(PropId(parentId, ps[i].name), log, ps[i].name, ps[i].preview))
    else []
  }

  /**
   * A node without an object handle, or whose fetch threw or gave nothing, has no
   * children; otherwise there is one property node per shown property, in display order.
   */
  lemma PropChildrenShowProperties(parentId: string, log: TreeLog, preview: Preview, showEnumerable: bool, fetched: Fetch)
    ensures var r := PropChildren(parentId, log, preview, showEnumerable, fetched);
      && (!Expandable(preview) || !fetched.Fetched? ==> r == [])
      && (Expandable(preview) && fetched.Fetched? ==>
            var ps := OrderedProps(fetched.props, showEnumerable);
            && |r| == |ps|
            && (forall i :: 0 <= i < |r| ==> r[i] == PropNode(PropId(parentId, ps[i].name), log, ps[i].name, ps[i].preview))
            && (forall i :: 0 <= i < |r| ==> ps[i] in fetched.props && (showEnumerable || ps[i].enumerable))
            && (forall i, j :: 0 <= i < j < |r| ==> PropLe(ps[i], ps[j])))
  {
    if Expandable(preview) && fetched.Fetched? {
      var ps := OrderedProps(fetched.props, showEnumerable);
      forall i | 0 <= i < |ps| ensures ps[i] in fetched.props && (showEnumerable || ps[i].enumerable) {
        assert ps[i] in multiset(ps);
        assert ps[i] in VisibleProps(fetched.props, showEnumerable);
      }
    }
  }

  // ---------------------------------------------------------------------------
  // The sidebar

  class Sidebar {
    /** The logs grouped by path. */
    var sortedLogs: seq<Entry<TreeLog>>
    /** Whether the root may be listed without waiting for the `load` signal. */
    var isLoad: bool
    /** The id counter per call-site key. */
    var argsIdCache: map<string, nat>
    /** Whether the tree may list anything at all. */
    var isReady: bool
    /** Root requests waiting for the `load` signal. */
    var pendingLoads: nat
    /** How many times the view was told to redraw. */
    ghost var refreshes: nat

    constructor ()
      ensures sortedLogs == [] && !isLoad && argsIdCache == map[] && !isReady
      ensures pendingLoads == 0 && refreshes == 0
    {
      sortedLogs := [];
      isLoad := false;
      argsIdCache := map[];
      isReady := false;
      pendingLoads := 0;
      refreshes := 0;
    }

    /** `reduceLogByPath`: inserts one log into the tree. */
    method ReduceLogByPath(log: TreeLog)
      modifies this`sortedLogs
      ensures sortedLogs == InsertDescending(old(sortedLogs), PathOf(log), log)
    {
      var segs := PathOf(log);
      sortedLogs := InsertDescending(sortedLogs, segs, log);
    }

    /** Rebuilds the tree from `logs` inserted in order into an empty tree. */
    method Rebuild(logs: seq<TreeLog>)
      modifies this`sortedLogs
      ensures sortedLogs == Build(logs, PathOf)
    {
      sortedLogs := [];
      var i := 0;
      while i < |logs|
        invariant 0 <= i <= |logs|
        invariant sortedLogs == Build(logs[..i], PathOf)
      {
        ReduceLogByPath(logs[i]);
        assert logs[..i + 1][..i] == logs[..i];
        i := i + 1;
      }
      assert logs[..|logs|] == logs;
    }

    /** `add`: rebuilds the tree from the full log list and marks it loaded; the id counters are kept. */
    method Add(logs: seq<TreeLog>)
      modifies this
      ensures sortedLogs == Build(logs, PathOf) && isLoad
      ensures argsIdCache == old(argsIdCache) && isReady == old(isReady) && pendingLoads == old(pendingLoads)
      ensures refreshes == old(refreshes) + 1
    {
      Rebuild(logs);
      isLoad := true;
      Refresh();
    }

    /** `rerender`: empties the tree and the id counters and redraws. */
    method Rerender()
      modifies this
      ensures sortedLogs == [] && argsIdCache == map[]
      ensures isLoad == old(isLoad) && isReady == old(isReady) && pendingLoads == old(pendingLoads)
      ensures refreshes == old(refreshes) + 1
    {
      sortedLogs := [];
      argsIdCache := map[];
      Refresh();
    }

    /** `update`: the root waits for the next `load` signal. */
    method Update()
      modifies this
      ensures sortedLogs == [] && argsIdCache == map[] && !isLoad
      ensures isReady == old(isReady) && pendingLoads == old(pendingLoads)
      ensures refreshes == old(refreshes) + 1
    {
      isLoad := false;
      Rerender();
    }

    /** `clear`: the root lists the (now empty) tree without waiting. */
    method Clear()
      modifies this
      ensures sortedLogs == [] && argsIdCache == map[] && isLoad
      ensures isReady == old(isReady) && pendingLoads == old(pendingLoads)
      ensures refreshes == old(refreshes) + 1
    {
      isLoad := true;
      Rerender();
    }

    method Refresh()
      modifies this`refreshes
      ensures refreshes == old(refreshes) + 1
    {
      refreshes := refreshes + 1;
    }

    method SetReady(ready: bool)
      modifies this`isReady
      ensures isReady == ready
    {
      isReady := ready;
    }

    /**
     * The `load` signal with the page's logs. Each waiting root request rebuilds the
     * tree from them, marks it loaded and receives the root items; with none waiting
     * nothing happens.
     */
    method EmitLoad(logs: seq<TreeLog>) returns (items: Option<seq<Node>>)
      modifies this
      ensures old(pendingLoads) == 0 ==> items.None? && sortedLogs == old(sortedLogs) && isLoad == old(isLoad) && pendingLoads == 0
      ensures old(pendingLoads) > 0 ==>
        && sortedLogs == Build(logs, PathOf) && isLoad && pendingLoads == 0
        && items == Some(PathItems(sortedLogs))
      ensures argsIdCache == old(argsIdCache) && isReady == old(isReady) && refreshes == old(refreshes)
    {
      if pendingLoads == 0 {
        return None;
      }
      isLoad := true;
      Rebuild(logs);
      pendingLoads := 0;
      items := Some(PathItems(sortedLogs));
    }

    /** `getArgId`: the id for the log at position `id` of a leaf with call-site key `key`. */
    method GetArgId(key: string, id: nat) returns (r: string)
      modifies this`argsIdCache
      ensures var next := NextArgIndex(old(argsIdCache), key, id);
        r == IndexedId(key, next.0) && argsIdCache == next.1
    {
      if key in argsIdCache {
        if argsIdCache[key] >= id {
          return IndexedId(key, id);
        }
        argsIdCache := argsIdCache[key := argsIdCache[key] + 1];
      } else {
        argsIdCache := argsIdCache[key := 0];
      }
      r := IndexedId(key, argsIdCache[key]);
    }

    /** The children of a leaf: one node per log, ids from the counters, in ascending order of line. */
    method LeafChildren(logs: seq<TreeLog>) returns (nodes: seq<Node>)
      modifies this`argsIdCache
      ensures var r := ArgIndices(old(argsIdCache), SiteKeys(logs));
        && argsIdCache == r.1
        && multiset(nodes) == multiset(LeafItems(logs, r.0))
        && SortedBy(nodes, NodeByLine)
        && forall n :: ClassOf(nodes, n, NodeByLine) == ClassOf(LeafItems(logs, r.0), n, NodeByLine)
    {
      ghost var c0 := argsIdCache;
      ghost var ns: seq<nat> := [];
      var items: seq<Node> := [];
      var i := 0;
      while i < |logs|
        invariant 0 <= i <= |logs|
        invariant (ns, argsIdCache) == ArgIndices(c0, SiteKeys(logs)[..i])
        invariant |ns| == i && items == LeafItems(logs[..i], ns)
      {
        var log := logs[i];
        var key := log.source + ":" + IntToString(log.line) + ":" + IntToString(log.column);
        ghost var next := NextArgIndex(argsIdCache, key, i);
        ArgIndicesStep(c0, SiteKeys(logs), i);
        LeafItemsStep(logs, ns, i, next.0);
        var argId := GetArgId(key, i);
        ns := ns + [next.0];
        items := items + [LeafItem(log, argId)];
        i := i + 1;
      }
      assert SiteKeys(logs)[..|logs|] == SiteKeys(logs);
      assert logs[..|logs|] == logs;
      NodeByLineIsTotalPreorder();
      SortByCorrect(items, NodeByLine);
      nodes := SortBy(items, NodeByLine);
    }

    /**
     * `getChildren`. `parent` is None for the root; `showEnumerable` is the setting
     * of that name; `fetch` answers the property request of an argument or property node.
     */
    method GetChildren(parent: Option<Node>, showEnumerable: bool, fetch: (TreeLog, Preview) -> Fetch)
      returns (children: Children)
      modifies this
      ensures !old(isReady) ==> children == Ready([]) && argsIdCache == old(argsIdCache) && pendingLoads == old(pendingLoads)
      ensures old(isReady) && parent.None? && old(isLoad) ==>
        children == Ready(PathItems(sortedLogs)) && pendingLoads == old(pendingLoads)
      ensures old(isReady) && parent.None? && !old(isLoad) ==>
        children == Pending && pendingLoads == old(pendingLoads) + 1
      ensures old(isReady) && parent.Some? && parent.value.PathNode? && parent.value.value.Leaf? ==>
        var r := ArgIndices(old(argsIdCache), SiteKeys(parent.value.value.logs));
        && children.Ready? && argsIdCache == r.1
        && multiset(children.nodes) == multiset(LeafItems(parent.value.value.logs, r.0))
        && SortedBy(children.nodes, NodeByLine)
        && forall n :: ClassOf(children.nodes, n, NodeByLine) == ClassOf(LeafItems(parent.value.value.logs, r.0), n, NodeByLine)
      ensures old(isReady) && parent.Some? && parent.value.PathNode? && parent.value.value.Dir? ==>
        children == Ready(DirChildren(parent.value.id, parent.value.value.entries))
      ensures old(isReady) && parent.Some? && parent.value.LogNode? ==>
        children == Ready(ArgChildren(parent.value.id, parent.value.log))
      ensures old(isReady) && parent.Some? && (parent.value.ArgNode? || parent.value.PropNode?) ==>
        var p := parent.value;
        children == Ready(PropChildren(p.id, p.log, p.preview, showEnumerable, fetch(p.log, p.preview)))
      ensures !(old(isReady) && parent.Some? && parent.value.PathNode? && parent.value.value.Leaf?) ==> argsIdCache == old(argsIdCache)
      ensures !(old(isReady) && parent.None? && !old(isLoad)) ==> pendingLoads == old(pendingLoads)
      ensures sortedLogs == old(sortedLogs) && isLoad == old(isLoad) && isReady == old(isReady)
      ensures refreshes == old(refreshes)
    {
      if !isReady {
        return Ready([]);
      }
      match parent
      case None =>
        if isLoad {
          return Ready(PathItems(sortedLogs));
        }
        pendingLoads := pendingLoads + 1;
        return Pending;
      case Some(node) =>
        match node
        case PathNode(id, _, value) =>
          match value {
            case Leaf(logs) =>
              var nodes := LeafChildren(logs);
              return Ready(nodes);
            case Dir(es) =>
              return Ready(DirChildren(id, es));
          }
        case LogNode(id, log) =>
          return Ready(ArgChildren(id, log));
        case ArgNode(id, log, preview) =>
          var fetched := if Expandable(preview) then fetch(log, preview) else NoResponse;
          return Ready(PropChildren(id, log, preview, showEnumerable, fetched));
        case PropNode(id, log, _, preview) =>
          var fetched := if Expandable(preview) then fetch(log, preview) else NoResponse;
          return Ready(PropChildren(id, log, preview, showEnumerable, fetched));
    }
  }

  /** While the root waits, a `load` signal answers it with the root items of the delivered logs. */
  lemma LoadAnswersRoot(logs: seq<TreeLog>)
    ensures PrefixFree(logs, PathOf) ==> forall q :: q != [] ==> LogsAt(Build(logs, PathOf), q) == WithPath(logs, PathOf, q)
    ensures DistinctKeys(Build(logs, PathOf))
  {
    BuildWellFormed(logs, PathOf);
    if PrefixFree(logs, PathOf) {
      forall q | q != [] ensures LogsAt(Build(logs, PathOf), q) == WithPath(logs, PathOf, q) {
        BuildGroupsByPath(logs, PathOf, |logs|, q);
        assert logs[..|logs|] == logs;
      }
    }
  }
}
