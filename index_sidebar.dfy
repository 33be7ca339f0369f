/**
 * The sidebar tree of ui/Sidebar/index.ts: logs are inserted one at a time into the
 * path-grouped tree, and children are listed in stored order without sorting.
 * A path node is addressed by its path from the root; it shows the part of the tree
 * stored there, which `add` changes in place.
 */
module IndexSidebar {
  import opened Wrappers
  import opened PathTree
  import opened SidebarLog

  datatype Node =
    | PathNode(path: seq<string>)
    | LogNode(log: TreeLog)
    | ArgNode(log: TreeLog, preview: Preview)
    | PropNode(log: TreeLog, name: string, preview: Preview)

  /** One path node per key of a directory at `path`, in key order. */
  function KeyNodes(path: seq<string>, es: seq<Entry<TreeLog>>): (r: seq<Node>)
    ensures |r| == |es|
    ensures forall i :: 0 <= i < |es| ==> r[i] == PathNode(path + [es[i].key])
  {
    var ps := ChildPaths(path, es);
    seq(|ps|, i requires 0 <= i < |ps| => PathNode(ps[i]))
  }

  /** A log under a leaf: a log node when it has more than one argument, else a node for its one argument. */
  function LeafItem(log: TreeLog): (n: Node)
    ensures n.LogNode? <==> log.argCount > 1
    ensures n.ArgNode? <==> log.argCount <= 1
    ensures n.log == log
  {
    if log.argCount > 1 then LogNode(log) else ArgNode(log, log.firstPreview)
  }

  /** One node per log of a leaf, in stored order. */
  function LeafItems(logs: seq<TreeLog>): (r: seq<Node>)
    ensures |r| == |logs|
    ensures forall i :: 0 <= i < |logs| ==> r[i] == LeafItem(logs[i])
  {
    seq(|logs|, i requires 0 <= i < |logs| => LeafItem(logs[i]))
  }

  /**
   * Children of an argument or property node: one property node per fetched
   * property, in fetch order (`sort()` without a comparator compares every property
   * object as the same string, so the stable sort leaves the order as it is).
   */
  function PropItems(log: TreeLog, preview: Preview, fetched: Fetch): (r: seq<Node>)
    ensures !Expandable(preview) || !fetched.Fetched? ==> r == []
    ensures Expandable(preview) && fetched.Fetched? ==>
      |r| == |fetched.props|
      && forall i :: 0 <= i < |r| ==>
           r[i] == PropNode(log, fetched.props[i].name, fetched.props[i].preview)
  {
    if Expandable(preview) && fetched.Fetched? then
      var ps := fetched.props;
      seq(|ps|, i requires 0 <= i < |ps| => PropNode(log, ps[i].name, ps[i].preview))
    else []
  }

  /** The node `parent` still names a part of the tree `es`. */
  predicate Current(es: seq<Entry<TreeLog>>, parent: Node)
  {
    parent.PathNode? ==> parent.path != [] && Resolve(es, parent.path).Some?
  }

  class Sidebar {
    var sortedLogs: seq<Entry<TreeLog>>
    ghost var refreshes: nat

    constructor ()
      ensures sortedLogs == [] && refreshes == 0
    {
      sortedLogs := [];
      refreshes := 0;
    }

    /** `add`: inserts the log under its path and redraws. */
    method Add(log: TreeLog)
      modifies this
      ensures sortedLogs == InsertDescending(old(sortedLogs), PathOf(log), log)
      ensures refreshes == old(refreshes) + 1
    {
      var segs := PathOf(log);
      sortedLogs := InsertDescending(sortedLogs, segs, log);
      refreshes := refreshes + 1;
    }

    /** `reset`: empties the tree and redraws. */
    method Reset()
      modifies this
      ensures sortedLogs == [] && refreshes == old(refreshes) + 1
    {
      sortedLogs := [];
      refreshes := refreshes + 1;
    }

    /** `reset` followed by one `add` per log, in arrival order: the tree built from the logs. */
    method AddAll(logs: seq<TreeLog>)
      modifies this
      ensures sortedLogs == Build(logs, PathOf)
      ensures refreshes == old(refreshes) + |logs| + 1
    {
      Reset();
      var i := 0;
      while i < |logs|
        invariant 0 <= i <= |logs|
        invariant sortedLogs == Build(logs[..i], PathOf)
        invariant refreshes == old(refreshes) + i + 1
      {
        AddExtendsBuild(logs[..i], logs[i]);
        assert logs[..i + 1] == logs[..i] + [logs[i]];
        Add(logs[i]);
        i := i + 1;
      }
      assert logs[..|logs|] == logs;
    }

    /**
     * `getChildren`: `parent` is None for the root; `fetch` answers the property
     * request of an argument or property node.
     */
    method GetChildren(parent: Option<Node>, fetch: (TreeLog, Preview) -> Fetch) returns (children: seq<Node>)
      requires parent.Some? ==> Current(sortedLogs, parent.value)
      ensures parent.None? ==> children == KeyNodes([], sortedLogs)
      ensures parent.Some? && parent.value.PathNode? ==>
        var t := Resolve(sortedLogs, parent.value.path).value;
        children == if t.Leaf? then LeafItems(t.logs) else KeyNodes(parent.value.path, t.entries)
      ensures parent.Some? && parent.value.LogNode? ==>
        children == seq(|parent.value.log.argPreviews|, i requires 0 <= i < |parent.value.log.argPreviews| =>
                          ArgNode(parent.value.log, parent.value.log.argPreviews[i]))
      ensures parent.Some? && (parent.value.ArgNode? || parent.value.PropNode?) ==>
        children == PropItems(parent.value.log, parent.value.preview, fetch(parent.value.log, parent.value.preview))
    {
      match parent
      case None =>
        children := KeyNodes([], sortedLogs);
      case Some(node) =>
        match node {
          case PathNode(path) =>
            match Resolve(sortedLogs, path) {
              case Some(Leaf(logs)) => children := LeafItems(logs);
              case Some(Dir(es)) => children := KeyNodes(path, es);
            }
          case LogNode(log) =>
            var previews := log.argPreviews;
            children := seq(|previews|, i requires 0 <= i < |previews| => ArgNode(log, previews[i]));
          case ArgNode(log, preview) =>
            var fetched := if Expandable(preview) then fetch(log, preview) else NoResponse;
            children := PropItems(log, preview, fetched);
          case PropNode(log, _, preview) =>
            var fetched := if Expandable(preview) then fetch(log, preview) else NoResponse;
            children := PropItems(log, preview, fetched);
        }
    }
  }

  /** Each `add` of the next log extends the tree built from the logs before it. */
  lemma AddExtendsBuild(logs: seq<TreeLog>, log: TreeLog)
    ensures Build(logs + [log], PathOf) == InsertDescending(Build(logs, PathOf), PathOf(log), log)
  {
    assert (logs + [log])[..|logs|] == logs;
  }

  /**
   * After `reset` and one `add` per log, a file whose path is no directory of another
   * log's file lists exactly its own logs, in arrival order.
   */
  lemma FileListsItsLogs(logs: seq<TreeLog>, q: seq<string>)
    requires PrefixFree(logs, PathOf) && q != []
    requires WithPath(logs, PathOf, q) != []
    ensures Resolve(Build(logs, PathOf), q) == Some(Leaf(WithPath(logs, PathOf, q)))
    ensures LeafItems(LogsAt(Build(logs, PathOf), q)) == LeafItems(WithPath(logs, PathOf, q))
  {
    BuildGroupsByPath(logs, PathOf, |logs|, q);
    assert logs[..|logs|] == logs;
    var t := Build(logs, PathOf);
    var own := WithPath(logs, PathOf, q);
    assert LogsAt(t, q) == own;
    LeafWhenLogsAt(t, q);
  }

  lemma LeafWhenLogsAt(t: seq<Entry<TreeLog>>, q: seq<string>)
    requires LogsAt(t, q) != []
    ensures Resolve(t, q) == Some(Leaf(LogsAt(t, q)))
  {
  }
}
