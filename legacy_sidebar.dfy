/**
 * The older sidebar of components/Sidebar.ts: logs are inserted one at a time with
 * the walk that stops at an existing file, and listing a file's logs sorts that
 * stored list by line in place. A path node is addressed by its path from the root.
 */
module LegacySidebar {
  import opened Wrappers
  import opened Text
  import opened Sorting
  import opened PathTree
  import opened SidebarLog

  /** The `browser-console.showLine` command with the log's original position as argument. */
  datatype ShowLine = ShowLine(source: string, line: int, column: int)

  datatype Node =
    | PathNode(path: seq<string>)
    | LogNode(log: TreeLog, text: string, command: ShowLine)

  /** The node of a log: labelled `line: preview`, opening the log's original position. */
  function LogItem(log: TreeLog): (n: Node)
    ensures n.LogNode? && n.log == log
    ensures n.text == IntToString(log.line) + ": " + log.text
    ensures n.command == ShowLine(log.source, log.line, log.column)
  {
    LogNode(log, IntToString(log.line) + ": " + log.text, ShowLine(log.source, log.line, log.column))
  }

  function KeyNodes(path: seq<string>, es: seq<Entry<TreeLog>>): (r: seq<Node>)
    ensures |r| == |es|
    ensures forall i :: 0 <= i < |es| ==> r[i] == PathNode(path + [es[i].key])
  {
    var ps := ChildPaths(path, es);
    seq(|ps|, i requires 0 <= i < |ps| => PathNode(ps[i]))
  }

  /** The stored tree with the node at `path` replaced by `node`. */
  function ReplaceAt(es: seq<Entry<TreeLog>>, path: seq<string>, node: Tree<TreeLog>): seq<Entry<TreeLog>>
    requires path != []
    decreases |path|
  {
    if |path| == 1 then Put(es, path[0], node)
    else match Get(es, path[0])
         case Some(Dir(sub)) => Put(es, path[0], Dir(ReplaceAt(sub, path[1..], node)))
         case _ => es
  }

  /** Replacing a file's list puts the new list there, and every other file keeps its list. */
  lemma {:induction false} ReplaceAtFile(es: seq<Entry<TreeLog>>, path: seq<string>, logs: seq<TreeLog>, q: seq<string>)
    requires path != [] && Resolve(es, path).Some? && Resolve(es, path).value.Leaf?
    ensures Resolve(ReplaceAt(es, path, Leaf(logs)), path) == Some(Leaf(logs))
    ensures q != path ==> LogsAt(ReplaceAt(es, path, Leaf(logs)), q) == LogsAt(es, q)
    decreases |path|
  {
    var key := path[0];
    ResolveStep(es, path);
    var top := Get(es, key).value;
    var node := if |path| == 1 then Leaf(logs) else Dir(ReplaceAt(top.entries, path[1..], Leaf(logs)));
    var r := ReplaceAt(es, path, Leaf(logs));
    assert r == Put(es, key, node);
    ResolvePut(es, key, node, path);
    if |path| > 1 {
      ReplaceAtFile(top.entries, path[1..], logs, if q != [] then q[1..] else q);
    }
    if q != path && q != [] {
      ResolvePut(es, key, node, q);
      ResolveStep(es, q);
    }
  }

  /** Replacing a file's list by a permutation of it keeps every log of the tree. */
  lemma {:induction false} ReplaceAtKeepsLogs(es: seq<Entry<TreeLog>>, path: seq<string>, logs: seq<TreeLog>)
    requires path != [] && Resolve(es, path).Some? && Resolve(es, path).value.Leaf?
    requires multiset(logs) == multiset(Resolve(es, path).value.logs)
    ensures multiset(AllLogs(ReplaceAt(es, path, Leaf(logs)))) == multiset(AllLogs(es))
    decreases |path|
  {
    var top := Get(es, path[0]).value;
    var r := ReplaceAt(es, path, Leaf(logs));
    var none: multiset<TreeLog> := multiset{};
    if |path| == 1 {
      assert r == Put(es, path[0], Leaf(logs));
      PutLogs(es, path[0], Leaf(logs));
      var m := multiset(NodeLogs(top));
      assert m + none == multiset(logs);
      Cancel(multiset(AllLogs(r)), multiset(AllLogs(es)), m, none);
    } else {
      var sub := top.entries;
      var sub' := ReplaceAt(sub, path[1..], Leaf(logs));
      assert r == Put(es, path[0], Dir(sub'));
      ReplaceAtKeepsLogs(sub, path[1..], logs);
      PutLogs(es, path[0], Dir(sub'));
      var m := multiset(AllLogs(sub));
      assert m + none == multiset(AllLogs(sub'));
      Cancel(multiset(AllLogs(r)), multiset(AllLogs(es)), m, none);
    }
  }

  class Sidebar {
    var sortedLogs: seq<Entry<TreeLog>>
    ghost var refreshes: nat

    constructor ()
      ensures sortedLogs == [] && refreshes == 0
    {
      sortedLogs := [];
      refreshes := 0;
    }

    /** `add`: inserts the log with the walk that stops at an existing file, and redraws. */
    method Add(log: TreeLog)
      modifies this
      ensures sortedLogs == InsertStopAtLeaf(old(sortedLogs), PathOf(log), log)
      ensures refreshes == old(refreshes) + 1
    {
      var segs := PathOf(log);
      sortedLogs := InsertStopAtLeaf(sortedLogs, segs, log);
      refreshes := refreshes + 1;
    }

    /** `reset`: empties the tree and redraws. */
    method Reset()
      modifies this
      ensures sortedLogs == [] && refreshes == old(refreshes) + 1
    {
      sortedLogs := [];
      refreshes := refreshes + 1;
    }

    /**
     * `getChildren` of the root (`parent` None) or of the path node at `parent`.
     * Listing a file sorts its stored list by line, in place.
     */
    method GetChildren(parent: Option<seq<string>>) returns (children: seq<Node>)
      requires parent.Some? ==> parent.value != [] && Resolve(sortedLogs, parent.value).Some?
      modifies this`sortedLogs
      ensures parent.None? ==> children == KeyNodes([], sortedLogs) && sortedLogs == old(sortedLogs)
      ensures parent.Some? && Resolve(old(sortedLogs), parent.value).value.Dir? ==>
        children == KeyNodes(parent.value, Resolve(old(sortedLogs), parent.value).value.entries)
        && sortedLogs == old(sortedLogs)
      ensures parent.Some? && Resolve(old(sortedLogs), parent.value).value.Leaf? ==>
        var sorted := SortedLeaf(Resolve(old(sortedLogs), parent.value).value.logs);
        && sortedLogs == ReplaceAt(old(sortedLogs), parent.value, Leaf(sorted))
        && children == seq(|sorted|, i requires 0 <= i < |sorted| => LogItem(sorted[i]))
    {
      match parent
      case None =>
        children := KeyNodes([], sortedLogs);
      case Some(path) =>
        match Resolve(sortedLogs, path) {
          case Some(Leaf(logs)) =>
            var sorted := SortedLeaf(logs);
            sortedLogs := ReplaceAt(sortedLogs, path, Leaf(sorted));
            children := seq(|sorted|, i requires 0 <= i < |sorted| => LogItem(sorted[i]));
          case Some(Dir(es)) =>
            children := KeyNodes(path, es);
        }
    }
  }

  /** A file's logs after `sort` by numeric line: stable, ascending, the same logs. */
  function SortedLeaf(logs: seq<TreeLog>): (r: seq<TreeLog>)
    ensures multiset(r) == multiset(logs)
    ensures forall i, j :: 0 <= i < j < |r| ==> r[i].line <= r[j].line
    ensures forall x :: ClassOf(r, x, ByLine) == ClassOf(logs, x, ByLine)
  {
    ByLineIsTotalPreorder();
    SortByCorrect(logs, ByLine);
    SortBy(logs, ByLine)
  }

  /**
   * Listing a file keeps every log of the tree and changes no other file; listing
   * it again changes nothing more.
   */
  lemma ListingFileOnlyReorders(es: seq<Entry<TreeLog>>, path: seq<string>, q: seq<string>)
    requires path != [] && Resolve(es, path).Some? && Resolve(es, path).value.Leaf?
    ensures var sorted := SortedLeaf(Resolve(es, path).value.logs);
      var es' := ReplaceAt(es, path, Leaf(sorted));
      && multiset(AllLogs(es')) == multiset(AllLogs(es))
      && (q != path ==> LogsAt(es', q) == LogsAt(es, q))
      && Resolve(es', path) == Some(Leaf(sorted))
      && SortedLeaf(sorted) == sorted
  {
    var sorted := SortedLeaf(Resolve(es, path).value.logs);
    ReplaceAtKeepsLogs(es, path, sorted);
    ReplaceAtFile(es, path, sorted, q);
    SortedInputUnchanged(sorted, ByLine);
  }

  /** `add` stores the log once unless its path names a directory or is empty. */
  lemma AddStoresLogOnce(es: seq<Entry<TreeLog>>, log: TreeLog)
    ensures multiset(AllLogs(InsertStopAtLeaf(es, PathOf(log), log)))
         == multiset(AllLogs(es)) + (if LandsInDir(es, PathOf(log)) then multiset{} else multiset{log})
  {
    InsertStopAtLeafKeepsEveryLog(es, PathOf(log), log);
  }
}
