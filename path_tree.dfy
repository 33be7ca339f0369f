/**
 * The path-grouped log tree of the sidebars: a dictionary keyed by path segment
 * whose values are either nested dictionaries (directories) or lists of logs (files).
 * Keys are kept in insertion order, the order `Object.keys` reports them in.
 *
 * Two insertion walks exist in the source. `InsertDescending` is the one of
 * ui/Sidebar/Sidebar.ts (`reduceLogByPath`) and ui/Sidebar/index.ts (`add`): on an
 * existing log list it pushes the log and stays at the same level for the next segment.
 * `InsertStopAtLeaf` is the one of components/Sidebar.ts (`add`): on an existing log
 * list it pushes the log and continues inside the list object, where nothing it adds
 * is ever listed, so the model stops there.
 */
module PathTree {
  import opened Wrappers

  datatype Tree<L> = Dir(entries: seq<Entry<L>>) | Leaf(logs: seq<L>)

  datatype Entry<L> = Entry(key: string, node: Tree<L>)

  function Keys<L>(es: seq<Entry<L>>): (ks: seq<string>)
    ensures |ks| == |es| && forall i :: 0 <= i < |es| ==> ks[i] == es[i].key
  {
    seq(|es|, i requires 0 <= i < |es| => es[i].key)
  }

  /** The path of each child of the directory at `path`, in key order. */
  function ChildPaths<L>(path: seq<string>, es: seq<Entry<L>>): (ps: seq<seq<string>>)
    ensures |ps| == |es| && forall i :: 0 <= i < |es| ==> ps[i] == path + [es[i].key]
  {
    seq(|es|, i requires 0 <= i < |es| => path + [es[i].key])
  }

  predicate DistinctKeys<L>(es: seq<Entry<L>>)
  {
    forall i, j :: 0 <= i < j < |es| ==> es[i].key != es[j].key
  }

  /** Every directory of the tree has distinct keys, as the keys of an object are. */
  predicate WellFormed<L>(t: Tree<L>)
    decreases t
  {
    match t
    case Leaf(_) => true
    case Dir(es) => DistinctKeys(es) && WellFormedEntries(es)
  }

  predicate WellFormedEntries<L>(es: seq<Entry<L>>)
    decreases es
  {
    es != [] ==> WellFormed(es[0].node) && WellFormedEntries(es[1..])
  }

  /** Position of `key` in a directory: `key in obj`. */
  function Find<L>(es: seq<Entry<L>>, key: string): (r: Option<nat>)
    ensures r.Some? ==> r.value < |es| && es[r.value].key == key
    ensures r.Some? ==> forall j :: 0 <= j < r.value ==> es[j].key != key
    ensures r.None? ==> forall j :: 0 <= j < |es| ==> es[j].key != key
  {
    if es == [] then None
    else if es[0].key == key then Some(0)
    else match Find(es[1..], key)
         case Some(i) => Some(i + 1)
         case None => None
  }

  /** `obj[key]`, `undefined` when missing. */
  function Get<L>(es: seq<Entry<L>>, key: string): Option<Tree<L>>
  {
    match Find(es, key)
    case Some(i) => Some(es[i].node)
    case None => None
  }

  /** `obj[key] = node`: replaces the value in place, or adds the key last. */
  function Put<L>(es: seq<Entry<L>>, key: string, node: Tree<L>): (r: seq<Entry<L>>)
    ensures Get(r, key) == Some(node)
    ensures forall k :: k != key ==> Get(r, k) == Get(es, k)
    ensures Keys(r) == if Find(es, key).Some? then Keys(es) else Keys(es) + [key]
    ensures DistinctKeys(es) ==> DistinctKeys(r)
  {
    match Find(es, key)
    case Some(i) =>
      var r := es[i := Entry(key, node)];
      assert forall k :: k != key ==> Find(r, k) == Find(es, k) by {
        forall k | k != key ensures Find(r, k) == Find(es, k) { FindAfterUpdate(es, i, Entry(key, node), k); }
      }
      assert Find(r, key) == Some(i) by { FindAfterUpdate(es, i, Entry(key, node), key); }
      assert Keys(r) == Keys(es);
      r
    case None =>
      var r := es + [Entry(key, node)];
      assert forall k :: Find(r, k) == (if Find(es, k).Some? then Find(es, k) else if k == key then Some(|es|) else None) by {
        forall k ensures Find(r, k) == (if Find(es, k).Some? then Find(es, k) else if k == key then Some(|es|) else None) {
          FindAfterAppend(es, Entry(key, node), k);
        }
      }
      r
  }

  lemma {:induction false} FindAfterUpdate<L>(es: seq<Entry<L>>, i: nat, e: Entry<L>, k: string)
    requires i < |es| && es[i].key == e.key
    ensures Find(es[i := e], k) == Find(es, k)
  {
    if i > 0 {
      FindAfterUpdate(es[1..], i - 1, e, k);
      assert es[i := e][1..] == es[1..][i - 1 := e];
    }
  }

  lemma {:induction false} FindAfterAppend<L>(es: seq<Entry<L>>, e: Entry<L>, k: string)
    ensures Find(es + [e], k) == if Find(es, k).Some? then Find(es, k) else if k == e.key then Some(|es|) else None
  {
    if es != [] {
      FindAfterAppend(es[1..], e, k);
      assert (es + [e])[1..] == es[1..] + [e];
    }
  }

  /** Putting back the value a key already has changes nothing. */
  lemma PutSame<L>(es: seq<Entry<L>>, key: string, node: Tree<L>)
    requires Get(es, key) == Some(node)
    ensures Put(es, key, node) == es
  {
    var i := Find(es, key).value;
    assert es[i] == Entry(key, node);
  }

  // ---------------------------------------------------------------------------
  // The two insertion walks

  /** `reduceLogByPath` / index.ts `add`: insert `log` under the path `segs`. */
  function InsertDescending<L>(es: seq<Entry<L>>, segs: seq<string>, log: L): seq<Entry<L>>
    decreases |segs|
  {
    if segs == [] then es
    else
      var key, rest := segs[0], segs[1..];
      match Get(es, key)
      case Some(Leaf(logs)) => InsertDescending(Put(es, key, Leaf(logs + [log])), rest, log)
      case Some(Dir(sub)) => Put(es, key, Dir(InsertDescending(sub, rest, log)))
      case None => Put(es, key, if rest == [] then Leaf([log]) else Dir(InsertDescending([], rest, log)))
  }

  /** components/Sidebar.ts `add`: insert `log` under the path `segs`. */
  function InsertStopAtLeaf<L>(es: seq<Entry<L>>, segs: seq<string>, log: L): seq<Entry<L>>
    decreases |segs|
  {
    if segs == [] then es
    else
      var key, rest := segs[0], segs[1..];
      match Get(es, key)
      case Some(Leaf(logs)) => Put(es, key, Leaf(logs + [log]))
      case Some(Dir(sub)) => Put(es, key, Dir(InsertStopAtLeaf(sub, rest, log)))
      case None => Put(es, key, if rest == [] then Leaf([log]) else Dir(InsertStopAtLeaf([], rest, log)))
  }

  // ---------------------------------------------------------------------------
  // Reading the tree

  /** The node at `path`, following directories; a log list only at the end of the path. */
  function Resolve<L>(es: seq<Entry<L>>, path: seq<string>): Option<Tree<L>>
    decreases |path|
  {
    if path == [] then Some(Dir(es))
    else match Get(es, path[0])
         case None => None
         case Some(Leaf(logs)) => if |path| == 1 then Some(Leaf(logs)) else None
         case Some(Dir(sub)) => Resolve(sub, path[1..])
  }

  /** The node at `rest` below the node `t`: `t` itself for the empty path. */
  function ResolveIn<L>(t: Tree<L>, rest: seq<string>): Option<Tree<L>>
  {
    if rest == [] then Some(t)
    else match t
         case Leaf(_) => None
         case Dir(sub) => Resolve(sub, rest)
  }

  lemma ResolveStep<L>(es: seq<Entry<L>>, path: seq<string>)
    requires path != []
    ensures Resolve(es, path) == match Get(es, path[0])
                                 case None => None
                                 case Some(t) => ResolveIn(t, path[1..])
  {
  }

  /** After `obj[key] = node`, paths through `key` lead into `node` and all others are as before. */
  lemma ResolvePut<L>(es: seq<Entry<L>>, key: string, node: Tree<L>, p: seq<string>)
    requires p != []
    ensures Resolve(Put(es, key, node), p) == if p[0] == key then ResolveIn(node, p[1..]) else Resolve(es, p)
  {
    ResolveStep(Put(es, key, node), p);
    ResolveStep(es, p);
  }

  /** The logs listed for the file at `path`; none when it is not a log list. */
  function LogsAt<L>(es: seq<Entry<L>>, path: seq<string>): seq<L>
  {
    match Resolve(es, path)
    case Some(Leaf(logs)) => logs
    case _ => []
  }

  predicate ResolvesToDir<L>(es: seq<Entry<L>>, path: seq<string>)
  {
    Resolve(es, path).Some? && Resolve(es, path).value.Dir?
  }

  /** No proper prefix of `path` is a log list: the path does not run through a file. */
  predicate Clean<L>(es: seq<Entry<L>>, path: seq<string>)
    decreases |path|
  {
    if path == [] then true
    else match Get(es, path[0])
         case None => true
         case Some(Leaf(_)) => |path| == 1
         case Some(Dir(sub)) => Clean(sub, path[1..])
  }

  lemma LogsAtEmpty<L>(path: seq<string>)
    ensures LogsAt<L>([], path) == []
  {
  }

  /** Both walks keep the keys of every directory distinct. */
  lemma {:induction false} InsertDescendingWellFormed<L>(es: seq<Entry<L>>, segs: seq<string>, log: L)
    requires WellFormed(Dir(es))
    ensures WellFormed(Dir(InsertDescending(es, segs, log)))
    decreases |segs|
  {
    if segs != [] {
      var key, rest := segs[0], segs[1..];
      match Get(es, key)
      case Some(Leaf(logs)) =>
        PutWellFormed(es, key, Leaf(logs + [log]));
        InsertDescendingWellFormed(Put(es, key, Leaf(logs + [log])), rest, log);
      case Some(Dir(sub)) =>
        GetWellFormed(es, key);
        InsertDescendingWellFormed(sub, rest, log);
        PutWellFormed(es, key, Dir(InsertDescending(sub, rest, log)));
      case None =>
        if rest == [] {
          PutWellFormed(es, key, Leaf([log]));
        } else {
          InsertDescendingWellFormed([], rest, log);
          PutWellFormed(es, key, Dir(InsertDescending([], rest, log)));
        }
    }
  }

  lemma {:induction false} InsertStopAtLeafWellFormed<L>(es: seq<Entry<L>>, segs: seq<string>, log: L)
    requires WellFormed(Dir(es))
    ensures WellFormed(Dir(InsertStopAtLeaf(es, segs, log)))
    decreases |segs|
  {
    if segs != [] {
      var key, rest := segs[0], segs[1..];
      match Get(es, key)
      case Some(Leaf(logs)) =>
        PutWellFormed(es, key, Leaf(logs + [log]));
      case Some(Dir(sub)) =>
        GetWellFormed(es, key);
        InsertStopAtLeafWellFormed(sub, rest, log);
        PutWellFormed(es, key, Dir(InsertStopAtLeaf(sub, rest, log)));
      case None =>
        if rest == [] {
          PutWellFormed(es, key, Leaf([log]));
        } else {
          InsertStopAtLeafWellFormed([], rest, log);
          PutWellFormed(es, key, Dir(InsertStopAtLeaf([], rest, log)));
        }
    }
  }

  lemma {:induction false} WellFormedEntriesAt<L>(es: seq<Entry<L>>, i: nat)
    requires WellFormedEntries(es) && i < |es|
    ensures WellFormed(es[i].node)
  {
    if i > 0 { WellFormedEntriesAt(es[1..], i - 1); }
  }

  lemma {:induction false} WellFormedEntriesFromAll<L>(es: seq<Entry<L>>)
    requires forall i :: 0 <= i < |es| ==> WellFormed(es[i].node)
    ensures WellFormedEntries(es)
  {
    if es != [] { WellFormedEntriesFromAll(es[1..]); }
  }

  lemma GetWellFormed<L>(es: seq<Entry<L>>, key: string)
    requires WellFormed(Dir(es)) && Get(es, key).Some?
    ensures WellFormed(Get(es, key).value)
  {
    WellFormedEntriesAt(es, Find(es, key).value);
  }

  lemma PutWellFormed<L>(es: seq<Entry<L>>, key: string, node: Tree<L>)
    requires WellFormed(Dir(es)) && WellFormed(node)
    ensures WellFormed(Dir(Put(es, key, node)))
  {
    var r := Put(es, key, node);
    forall i | 0 <= i < |r| ensures WellFormed(r[i].node) {
      if i < |es| && r[i] == es[i] { WellFormedEntriesAt(es, i); }
    }
    WellFormedEntriesFromAll(r);
  }

  /**
   * On a path that does not run through a file and does not name a directory,
   * inserting appends the log to the file's list (creating the list and any missing
   * directories).
   */
  lemma {:induction false} InsertAppendsOnCleanPath<L>(es: seq<Entry<L>>, path: seq<string>, log: L)
    requires path != [] && Clean(es, path) && !ResolvesToDir(es, path)
    ensures LogsAt(InsertDescending(es, path, log), path) == LogsAt(es, path) + [log]
    decreases |path|
  {
    var key, rest := path[0], path[1..];
    match Get(es, key)
    case Some(Leaf(logs)) =>
    case Some(Dir(sub)) =>
      assert Resolve(es, path) == Resolve(sub, rest);
      InsertAppendsOnCleanPath(sub, rest, log);
    case None =>
      if rest != [] {
        InsertAppendsOnCleanPath([], rest, log);
      }
  }

  /** ... and leaves the log list of every other path as it was. */
  lemma {:induction false} InsertLeavesOtherPaths<L>(es: seq<Entry<L>>, path: seq<string>, p: seq<string>, log: L)
    requires Clean(es, path) && p != path
    ensures LogsAt(InsertDescending(es, path, log), p) == LogsAt(es, p)
    decreases |path|
  {
    if path != [] && p != [] {
      var key, rest := path[0], path[1..];
      ResolveStep(es, p);
      if p[0] == key {
        assert p[1..] != rest by { assert p == [key] + p[1..] && path == [key] + rest; }
      }
      match Get(es, key)
      case Some(Leaf(logs)) =>
        assert rest == [];
        ResolvePut(es, key, Leaf(logs + [log]), p);
      case Some(Dir(sub)) =>
        ResolvePut(es, key, Dir(InsertDescending(sub, rest, log)), p);
        if p[0] == key && p[1..] != [] {
          InsertLeavesOtherPaths(sub, rest, p[1..], log);
        }
      case None =>
        var node := if rest == [] then Leaf([log]) else Dir(InsertDescending([], rest, log));
        ResolvePut(es, key, node, p);
        if p[0] == key && rest != [] && p[1..] != [] {
          InsertLeavesOtherPaths([], rest, p[1..], log);
          LogsAtEmpty<L>(p[1..]);
        }
    }
  }

  /** A path that names an existing directory inserts nothing, in both walks. */
  lemma {:induction false} DirectoryPathDropsLog<L>(es: seq<Entry<L>>, path: seq<string>, log: L)
    requires ResolvesToDir(es, path)
    ensures InsertDescending(es, path, log) == es
    ensures InsertStopAtLeaf(es, path, log) == es
    decreases |path|
  {
    if path != [] {
      var key, rest := path[0], path[1..];
      var sub := Get(es, key).value.entries;
      DirectoryPathDropsLog(sub, rest, log);
      PutSame(es, key, Dir(sub));
    }
  }

  /** The two walks agree on every path that does not run through a file. */
  lemma {:induction false} WalksAgreeOnCleanPaths<L>(es: seq<Entry<L>>, path: seq<string>, log: L)
    requires Clean(es, path)
    ensures InsertDescending(es, path, log) == InsertStopAtLeaf(es, path, log)
    decreases |path|
  {
    if path != [] {
      var key, rest := path[0], path[1..];
      match Get(es, key)
      case Some(Leaf(logs)) =>
      case Some(Dir(sub)) =>
        WalksAgreeOnCleanPaths(sub, rest, log);
      case None =>
        if rest != [] {
          WalksAgreeOnCleanPaths([], rest, log);
        }
    }
  }

  /**
   * Where a path runs through a file they differ: both append the log to the file,
   * then the descending walk goes on with the rest of the path at the file's own
   * level, while the other walk stops there.
   */
  lemma WalksThroughFile<L>(es: seq<Entry<L>>, path: seq<string>, logs: seq<L>, log: L)
    requires |path| > 1 && Get(es, path[0]) == Some(Leaf(logs))
    ensures InsertDescending(es, path, log)
         == InsertDescending(Put(es, path[0], Leaf(logs + [log])), path[1..], log)
    ensures InsertStopAtLeaf(es, path, log) == Put(es, path[0], Leaf(logs + [log]))
  {
  }

  /**
   * An instance: with `a` a top-level file holding 1,
   * inserting 2 under `a/b` puts 2 into `a` and also into a new top-level file `b`
   * in the descending walk, and only into `a` in the other.
   */
  lemma WalksDivergeThroughFile()
    ensures InsertDescending([Entry("a", Leaf([1]))], ["a", "b"], 2)
         == [Entry("a", Leaf([1, 2])), Entry("b", Leaf([2]))]
    ensures InsertStopAtLeaf([Entry("a", Leaf([1]))], ["a", "b"], 2)
         == [Entry("a", Leaf([1, 2]))]
  {
    var es := [Entry("a", Leaf([1]))];
    assert Find(es, "a") == Some(0);
    assert Get(es, "a") == Some(Leaf([1]));
    assert [1] + [2] == [1, 2];
    assert Find(es, "b") == None;
    var es' := Put(es, "a", Leaf([1, 2]));
    assert es' == [Entry("a", Leaf([1, 2]))];
    assert Find(es', "b") == None;
    assert ["a", "b"][1..] == ["b"];
    assert ["b"][1..] == [];
    assert InsertDescending(es', ["b"], 2) == Put(es', "b", Leaf([2]));
    assert Put(es', "b", Leaf([2])) == es' + [Entry("b", Leaf([2]))];
    assert InsertDescending(es, ["a", "b"], 2) == InsertDescending(es', ["b"], 2);
  }

  predicate ProperPrefix(p: seq<string>, q: seq<string>)
  {
    |p| < |q| && q[..|p|] == p
  }

  lemma ProperPrefixTail(p: seq<string>, q: seq<string>)
    requires p != [] && q != [] && p[0] == q[0]
    ensures ProperPrefix(p, q) == ProperPrefix(p[1..], q[1..])
  {
    if |p| < |q| {
      assert q[..|p|] == [q[0]] + q[1..][..|p| - 1];
      assert p == [p[0]] + p[1..];
    }
  }

  /** Inserting at `p` makes no new file on the way to `q` unless `p` is itself on that way. */
  lemma {:induction false} CleanAfterInsert<L>(es: seq<Entry<L>>, p: seq<string>, q: seq<string>, log: L)
    requires Clean(es, p) && Clean(es, q) && !ProperPrefix(p, q)
    ensures Clean(InsertDescending(es, p, log), q)
    decreases |p|
  {
    if p != [] && q != [] {
      var key, rest := p[0], p[1..];
      if q[0] == key {
        ProperPrefixTail(p, q);
        match Get(es, key)
        case Some(Leaf(logs)) =>
        case Some(Dir(sub)) =>
          CleanAfterInsert(sub, rest, q[1..], log);
        case None =>
          if rest != [] {
            CleanAfterInsert([], rest, q[1..], log);
          }
      }
    }
  }

  /** Inserting at `p` makes no new directory at `q` unless `q` is on the way to `p`. */
  lemma {:induction false} NotDirAfterInsert<L>(es: seq<Entry<L>>, p: seq<string>, q: seq<string>, log: L)
    requires Clean(es, p) && q != [] && !ResolvesToDir(es, q) && !ProperPrefix(q, p)
    ensures !ResolvesToDir(InsertDescending(es, p, log), q)
    decreases |p|
  {
    if p != [] {
      var key, rest := p[0], p[1..];
      ResolveStep(es, q);
      if q[0] == key {
        ProperPrefixTail(q, p);
      }
      match Get(es, key)
      case Some(Leaf(logs)) =>
        assert rest == [];
        ResolvePut(es, key, Leaf(logs + [log]), q);
      case Some(Dir(sub)) =>
        ResolvePut(es, key, Dir(InsertDescending(sub, rest, log)), q);
        if q[0] == key {
          NotDirAfterInsert(sub, rest, q[1..], log);
        }
      case None =>
        var node := if rest == [] then Leaf([log]) else Dir(InsertDescending([], rest, log));
        ResolvePut(es, key, node, q);
        if q[0] == key && rest != [] {
          NotDirAfterInsert([], rest, q[1..], log);
        }
    }
  }

  // ---------------------------------------------------------------------------
  // Building a tree from a list of logs

  /** The tree that inserting every log of `logs` in order into an empty tree builds. */
  function Build<L>(logs: seq<L>, path: L -> seq<string>): seq<Entry<L>>
  {
    if logs == [] then []
    else InsertDescending(Build(logs[..|logs| - 1], path), path(logs[|logs| - 1]), logs[|logs| - 1])
  }

  /** The logs of `logs` whose path is `q`, in order. */
  function WithPath<L>(logs: seq<L>, path: L -> seq<string>, q: seq<string>): (r: seq<L>)
    ensures |r| <= |logs|
  {
    if logs == [] then []
    else WithPath(logs[..|logs| - 1], path, q) + (if path(logs[|logs| - 1]) == q then [logs[|logs| - 1]] else [])
  }

  /** No log's (non-empty) path runs through another log's file. */
  predicate PrefixFree<L>(logs: seq<L>, path: L -> seq<string>)
  {
    forall i, j :: 0 <= i < |logs| && 0 <= j < |logs| ==> !ProperPrefix(path(logs[i]), path(logs[j])) || path(logs[i]) == []
  }

  /** Every path of `all` is, in `t`, a path through no file and to no directory. */
  predicate OpenFor<L>(t: seq<Entry<L>>, all: seq<L>, path: L -> seq<string>)
  {
    forall j :: 0 <= j < |all| && path(all[j]) != [] ==> Clean(t, path(all[j])) && !ResolvesToDir(t, path(all[j]))
  }

  lemma InsertKeepsOpen<L>(t: seq<Entry<L>>, all: seq<L>, path: L -> seq<string>, n: nat)
    requires PrefixFree(all, path) && OpenFor(t, all, path) && n < |all|
    ensures OpenFor(InsertDescending(t, path(all[n]), all[n]), all, path)
  {
    var p := path(all[n]);
    if p != [] {
      forall j | 0 <= j < |all| && path(all[j]) != []
        ensures Clean(InsertDescending(t, p, all[n]), path(all[j]))
        ensures !ResolvesToDir(InsertDescending(t, p, all[n]), path(all[j]))
      {
        CleanAfterInsert(t, p, path(all[j]), all[n]);
        NotDirAfterInsert(t, p, path(all[j]), all[n]);
      }
    }
  }

  lemma {:induction false} BuildOpen<L>(all: seq<L>, path: L -> seq<string>, n: nat)
    requires PrefixFree(all, path) && n <= |all|
    ensures OpenFor(Build(all[..n], path), all, path)
  {
    if n == 0 {
      forall j | 0 <= j < |all| && path(all[j]) != []
        ensures !ResolvesToDir<L>([], path(all[j]))
      {
        assert Get<L>([], path(all[j])[0]).None?;
      }
    } else {
      BuildOpen(all, path, n - 1);
      assert all[..n][..n - 1] == all[..n - 1];
      InsertKeepsOpen(Build(all[..n - 1], path), all, path, n - 1);
    }
  }

  /**
   * When no file path is a directory of another, the built tree lists under every
   * file exactly the logs of that file, in arrival order.
   */
  lemma {:induction false} BuildGroupsByPath<L>(all: seq<L>, path: L -> seq<string>, n: nat, q: seq<string>)
    requires PrefixFree(all, path) && n <= |all| && q != []
    ensures LogsAt(Build(all[..n], path), q) == WithPath(all[..n], path, q)
  {
    if n == 0 {
      assert Get<L>([], q[0]).None?;
    } else {
      BuildGroupsByPath(all, path, n - 1, q);
      BuildOpen(all, path, n - 1);
      var t, p, log := Build(all[..n - 1], path), path(all[n - 1]), all[n - 1];
      assert all[..n][..n - 1] == all[..n - 1];
      assert Build(all[..n], path) == InsertDescending(t, p, log);
      if p == [] {
      } else if p == q {
        InsertAppendsOnCleanPath(t, p, log);
      } else {
        InsertLeavesOtherPaths(t, p, q, log);
      }
    }
  }

  /** For such logs the walk of components/Sidebar.ts builds the same tree. */
  lemma {:induction false} BuildsAgreeWhenPrefixFree<L>(logs: seq<L>, path: L -> seq<string>)
    requires PrefixFree(logs, path)
    ensures Build(logs, path) == BuildStopAtLeaf(logs, path)
  {
    if logs != [] {
      var n := |logs| - 1;
      assert PrefixFree(logs[..n], path);
      BuildsAgreeWhenPrefixFree(logs[..n], path);
      var p := path(logs[n]);
      if p != [] {
        BuildOpen(logs, path, n);
        WalksAgreeOnCleanPaths(Build(logs[..n], path), p, logs[n]);
      }
    }
  }

  /** The tree the walk of components/Sidebar.ts builds from `logs`. */
  function BuildStopAtLeaf<L>(logs: seq<L>, path: L -> seq<string>): seq<Entry<L>>
  {
    if logs == [] then []
    else InsertStopAtLeaf(BuildStopAtLeaf(logs[..|logs| - 1], path), path(logs[|logs| - 1]), logs[|logs| - 1])
  }

  /** Built trees are well formed. */
  lemma {:induction false} BuildWellFormed<L>(logs: seq<L>, path: L -> seq<string>)
    ensures WellFormed(Dir(Build(logs, path)))
  {
    if logs != [] {
      BuildWellFormed(logs[..|logs| - 1], path);
      InsertDescendingWellFormed(Build(logs[..|logs| - 1], path), path(logs[|logs| - 1]), logs[|logs| - 1]);
    }
  }

  // ---------------------------------------------------------------------------
  // Every log of the tree

  function NodeLogs<L>(t: Tree<L>): seq<L>
    decreases t
  {
    match t
    case Leaf(logs) => logs
    case Dir(es) => AllLogs(es)
  }

  /** Every log stored in the tree, directory by directory in key order. */
  function AllLogs<L>(es: seq<Entry<L>>): seq<L>
    decreases es
  {
    if es == [] then [] else NodeLogs(es[0].node) + AllLogs(es[1..])
  }

  /** The walk of components/Sidebar.ts ends at a directory (or at the root for an empty path). */
  predicate LandsInDir<L>(es: seq<Entry<L>>, segs: seq<string>)
    decreases |segs|
  {
    if segs == [] then true
    else match Get(es, segs[0])
         case Some(Dir(sub)) => LandsInDir(sub, segs[1..])
         case _ => false
  }

  lemma {:induction false} AllLogsAppend<L>(es: seq<Entry<L>>, e: Entry<L>)
    ensures AllLogs(es + [e]) == AllLogs(es) + NodeLogs(e.node)
  {
    if es == [] {
      assert [] + [e] == [e];
    } else {
      assert (es + [e])[1..] == es[1..] + [e];
      AllLogsAppend(es[1..], e);
    }
  }

  lemma {:induction false} AllLogsUpdate<L>(es: seq<Entry<L>>, i: nat, e: Entry<L>)
    requires i < |es|
    ensures multiset(AllLogs(es[i := e])) + multiset(NodeLogs(es[i].node))
         == multiset(AllLogs(es)) + multiset(NodeLogs(e.node))
  {
    var r := es[i := e];
    if i > 0 {
      var tail := es[1..][i - 1 := e];
      AllLogsUpdate(es[1..], i - 1, e);
      assert r[1..] == tail;
      assert r[0] == es[0];
      var head := multiset(NodeLogs(es[0].node));
      assert es[1..][i - 1] == es[i];
      calc {
        multiset(AllLogs(r)) + multiset(NodeLogs(es[i].node));
        (head + multiset(AllLogs(tail))) + multiset(NodeLogs(es[i].node));
        head + (multiset(AllLogs(tail)) + multiset(NodeLogs(es[i].node)));
        head + (multiset(AllLogs(es[1..])) + multiset(NodeLogs(e.node)));
        (head + multiset(AllLogs(es[1..]))) + multiset(NodeLogs(e.node));
        multiset(AllLogs(es)) + multiset(NodeLogs(e.node));
      }
    } else {
      assert r[1..] == es[1..];
      assert multiset(AllLogs(r)) == multiset(NodeLogs(e.node)) + multiset(AllLogs(es[1..]));
      assert multiset(AllLogs(es)) == multiset(NodeLogs(es[0].node)) + multiset(AllLogs(es[1..]));
    }
  }

  /** `obj[key] = node` swaps the logs of the old value for those of `node`. */
  lemma PutLogs<L>(es: seq<Entry<L>>, key: string, node: Tree<L>)
    ensures multiset(AllLogs(Put(es, key, node))) + multiset(if Get(es, key).Some? then NodeLogs(Get(es, key).value) else [])
         == multiset(AllLogs(es)) + multiset(NodeLogs(node))
  {
    match Find(es, key)
    case Some(i) => AllLogsUpdate(es, i, Entry(key, node));
    case None => AllLogsAppend(es, Entry(key, node));
  }

  lemma Cancel<L>(a: multiset<L>, b: multiset<L>, m: multiset<L>, x: multiset<L>)
    requires a + m == b + (m + x)
    ensures a == b + x
  {
    assert forall y :: a[y] == (b + x)[y] by {
      forall y ensures a[y] == (b + x)[y] {
        assert (a + m)[y] == (b + (m + x))[y];
      }
    }
  }

  /**
   * The walk of components/Sidebar.ts stores the log exactly once, unless the path
   * ends at a directory (or is empty), where it stores nothing; no other log is lost or added.
   */
  lemma {:induction false} InsertStopAtLeafKeepsEveryLog<L>(es: seq<Entry<L>>, segs: seq<string>, log: L)
    ensures multiset(AllLogs(InsertStopAtLeaf(es, segs, log)))
         == multiset(AllLogs(es)) + (if LandsInDir(es, segs) then multiset{} else multiset{log})
    decreases |segs|
  {
    if segs != [] {
      var key, rest := segs[0], segs[1..];
      var found := Get(es, key);
      var before := multiset(AllLogs(es));
      if found.Some? && found.value.Leaf? {
        var logs := found.value.logs;
        var r := Put(es, key, Leaf(logs + [log]));
        assert InsertStopAtLeaf(es, segs, log) == r;
        PutLogs(es, key, Leaf(logs + [log]));
        assert multiset(logs + [log]) == multiset(logs) + multiset{log};
        Cancel(multiset(AllLogs(r)), before, multiset(logs), multiset{log});
        assert !LandsInDir(es, segs);
      } else if found.Some? {
        var sub := found.value.entries;
        var sub' := InsertStopAtLeaf(sub, rest, log);
        var r := Put(es, key, Dir(sub'));
        assert InsertStopAtLeaf(es, segs, log) == r;
        InsertStopAtLeafKeepsEveryLog(sub, rest, log);
        PutLogs(es, key, Dir(sub'));
        var added := if LandsInDir(sub, rest) then multiset{} else multiset{log};
        Cancel(multiset(AllLogs(r)), before, multiset(AllLogs(sub)), added);
        assert LandsInDir(es, segs) == LandsInDir(sub, rest);
      } else {
        var node := if rest == [] then Leaf([log]) else Dir(InsertStopAtLeaf([], rest, log));
        var r := Put(es, key, node);
        assert InsertStopAtLeaf(es, segs, log) == r;
        if rest != [] {
          InsertStopAtLeafKeepsEveryLog([], rest, log);
          assert !LandsInDir<L>([], rest);
        }
        assert multiset(NodeLogs(node)) == multiset{log};
        PutLogs(es, key, node);
        Cancel(multiset(AllLogs(r)), before, multiset{}, multiset{log});
        assert !LandsInDir(es, segs);
      }
    }
  }
}
