/**
 * The log controller of LogContrller.ts: it collects the logs of the current page,
 * forwards them to the sidebar and the editor decorations, and decides when the
 * page counts as loaded (after one `load` signal per configured route).
 * The decorator is outside this model; the logs handed to it since its last reset
 * are kept as ghost state.
 */
module LogController {
  import opened Wrappers
  import opened Text
  import opened PathTree
  import opened SidebarLog
  import opened CurrentSidebar

  /** The log's file lies under one of the excluded directories: `source.startsWith('/' + dir)`. */
  predicate Excluded(source: string, excludeDirs: seq<string>)
  {
    exists i :: 0 <= i < |excludeDirs| && StartsWith(source, "/" + excludeDirs[i])
  }

  /** The test is a plain prefix test, not one on path segments: `src` also excludes `/src-old`. */
  lemma ExclusionIsAPrefixTest()
    ensures Excluded("/src-old/a.js", ["src"])
    ensures Excluded("/src/a.js", ["src"])
    ensures !Excluded("/lib/src/a.js", ["src"])
    ensures !Excluded("/src/a.js", [])
  {
    assert ["src"][0] == "src" && "/" + "src" == "/src";
    assert "/src-old/a.js"[..4] == "/src";
    assert StartsWith("/src-old/a.js", "/" + ["src"][0]);
    assert "/src/a.js"[..4] == "/src";
    assert StartsWith("/src/a.js", "/" + ["src"][0]);
    assert "/lib/src/a.js"[..4] != "/src" by { assert "/lib/src/a.js"[1] == 'l'; }
  }

  /** The `load` signal that raises the counter from `counter` marks the page loaded. */
  predicate Fires(counter: nat, loadMaxCounter: Option<nat>)
  {
    loadMaxCounter == Some(counter + 1)
  }

  /** How many of `n` consecutive `load` signals, starting at `counter`, mark the page loaded. */
  function FiredCount(counter: nat, n: nat, loadMaxCounter: Option<nat>): nat
    decreases n
  {
    if n == 0 then 0
    else (if Fires(counter, loadMaxCounter) then 1 else 0) + FiredCount(counter + 1, n - 1, loadMaxCounter)
  }

  /**
   * After `update` (counter 0), `n` loads mark the page loaded exactly once when there are
   * between 1 and `n` routes, and never otherwise: not with no routes setting, not with
   * an empty route list, and not before the last route has loaded.
   */
  lemma {:induction false} LoadedOnceAfterAllRoutes(n: nat, loadMaxCounter: Option<nat>)
    ensures FiredCount(0, n, loadMaxCounter)
      == if loadMaxCounter.Some? && 1 <= loadMaxCounter.value <= n then 1 else 0
  {
    FiredCountFrom(0, n, loadMaxCounter);
  }

  lemma {:induction false} FiredCountFrom(counter: nat, n: nat, loadMaxCounter: Option<nat>)
    ensures FiredCount(counter, n, loadMaxCounter)
      == if loadMaxCounter.Some? && counter + 1 <= loadMaxCounter.value <= counter + n then 1 else 0
    decreases n
  {
    if n > 0 {
      FiredCountFrom(counter + 1, n - 1, loadMaxCounter);
    }
  }

  class LogController {
    /** The logs of the current page, in arrival order. */
    var logs: seq<TreeLog>
    /** Whether the page counts as loaded. */
    var isLoad: bool
    /** `settings.editor.routes?.length`: None when no routes are configured. */
    const loadMaxCounter: Option<nat>
    /** The `load` signals since the last `update`. */
    var loadCounter: nat
    /** Whether the editor listeners are registered. */
    var listening: bool
    /** The tree view. */
    const sidebar: Sidebar
    /** The logs handed to the decorator since its last reset. */
    ghost var decorated: seq<TreeLog>

    /**
     * What the controller keeps: the decorator shows only logs of the current page,
     * and once the page counts as loaded it shows all of them.
     */
    ghost predicate Valid()
      reads this
    {
      && (forall i :: 0 <= i < |decorated| ==> decorated[i] in logs)
      && (isLoad ==> forall i :: 0 <= i < |logs| ==> logs[i] in decorated)
    }

    constructor (sidebar: Sidebar, routeCount: Option<nat>)
      ensures Valid()
      ensures logs == [] && !isLoad && loadCounter == 0 && !listening && decorated == []
      ensures this.sidebar == sidebar && loadMaxCounter == routeCount
    {
      logs := [];
      isLoad := false;
      loadMaxCounter := routeCount;
      loadCounter := 0;
      listening := false;
      this.sidebar := sidebar;
      decorated := [];
    }

    /**
     * `log`: a log from an excluded directory is dropped; any other is kept, and unless
     * the tree view waits for the page to load it is shown in the sidebar (rebuilt from
     * all logs) and decorated.
     */
    method Log(log: TreeLog, excludeDirs: seq<string>, treeViewMode: bool)
      requires Valid()
      modifies this, sidebar
      ensures Valid()
      ensures Excluded(log.source, excludeDirs) ==>
        logs == old(logs) && decorated == old(decorated) && unchanged(sidebar)
      ensures !Excluded(log.source, excludeDirs) ==> logs == old(logs) + [log]
      ensures !Excluded(log.source, excludeDirs) && treeViewMode && !isLoad ==>
        decorated == old(decorated) && unchanged(sidebar)
      ensures !Excluded(log.source, excludeDirs) && !(treeViewMode && !isLoad) ==>
        && decorated == old(decorated) + [log]
        && sidebar.sortedLogs == Build(logs, PathOf) && sidebar.isLoad
        && sidebar.argsIdCache == old(sidebar.argsIdCache) && sidebar.isReady == old(sidebar.isReady)
        && sidebar.pendingLoads == old(sidebar.pendingLoads) && sidebar.refreshes == old(sidebar.refreshes) + 1
      ensures isLoad == old(isLoad) && loadCounter == old(loadCounter) && listening == old(listening)
    {
      var i := 0;
      while i < |excludeDirs|
        invariant 0 <= i <= |excludeDirs|
        invariant forall k :: 0 <= k < i ==> !StartsWith(log.source, "/" + excludeDirs[k])
      {
        if StartsWith(log.source, "/" + excludeDirs[i]) {
          return;
        }
        i := i + 1;
      }
      logs := logs + [log];
      if treeViewMode && !isLoad {
        return;
      }
      sidebar.Add(logs);
      decorated := decorated + [log];
    }

    /** `update` (a new page): the logs are dropped, the sidebar waits or is cleared, the decorator is reset. */
    method Update(treeViewMode: bool)
      modifies this, sidebar
      ensures Valid()
      ensures logs == [] && !isLoad && loadCounter == 0 && decorated == []
      ensures sidebar.sortedLogs == [] && sidebar.argsIdCache == map[]
      ensures sidebar.isLoad == !treeViewMode && sidebar.isReady == old(sidebar.isReady)
      ensures sidebar.pendingLoads == old(sidebar.pendingLoads) && sidebar.refreshes == old(sidebar.refreshes) + 1
      ensures listening == old(listening)
    {
      logs := [];
      isLoad := false;
      if treeViewMode {
        sidebar.Update();
      } else {
        sidebar.Clear();
      }
      decorated := [];
      loadCounter := 0;
    }

    /**
     * `load`: counts the signal; the one that reaches the number of routes marks the
     * page loaded, hands the logs to the waiting root requests of the sidebar (their
     * items are returned) and decorates all logs.
     */
    method Load() returns (answered: Option<seq<Node>>)
      requires Valid()
      modifies this, sidebar
      ensures Valid()
      ensures loadCounter == old(loadCounter) + 1 && logs == old(logs) && listening == old(listening)
      ensures !Fires(old(loadCounter), loadMaxCounter) ==>
        answered.None? && isLoad == old(isLoad) && decorated == old(decorated) && unchanged(sidebar)
      ensures Fires(old(loadCounter), loadMaxCounter) ==> isLoad && decorated == old(decorated) + logs
      ensures Fires(old(loadCounter), loadMaxCounter) ==>
        && sidebar.pendingLoads == 0 && sidebar.argsIdCache == old(sidebar.argsIdCache)
        && sidebar.isReady == old(sidebar.isReady) && sidebar.refreshes == old(sidebar.refreshes)
      ensures Fires(old(loadCounter), loadMaxCounter) && old(sidebar.pendingLoads) > 0 ==>
        && sidebar.sortedLogs == Build(logs, PathOf) && sidebar.isLoad
        && answered == Some(PathItems(sidebar.sortedLogs))
      ensures Fires(old(loadCounter), loadMaxCounter) && old(sidebar.pendingLoads) == 0 ==>
        answered.None? && sidebar.sortedLogs == old(sidebar.sortedLogs) && sidebar.isLoad == old(sidebar.isLoad)
    {
      loadCounter := loadCounter + 1;
      answered := None;
      if Some(loadCounter) == loadMaxCounter {
        answered := sidebar.EmitLoad(logs);
        decorated := decorated + logs;
        isLoad := true;
      }
    }

    /** `addListeners` (the extension starts): the sidebar may list its tree. */
    method AddListeners()
      modifies this`listening, sidebar`isReady
      ensures listening && sidebar.isReady
    {
      listening := true;
      sidebar.SetReady(true);
    }

    /** `removeListeners` (the extension stops): logs dropped, sidebar cleared and closed, decorator reset. */
    method RemoveListeners()
      modifies this, sidebar
      ensures Valid()
      ensures logs == [] && !isLoad && decorated == [] && !listening
      ensures sidebar.sortedLogs == [] && sidebar.argsIdCache == map[] && !sidebar.isReady && sidebar.isLoad
      ensures sidebar.pendingLoads == old(sidebar.pendingLoads) && sidebar.refreshes == old(sidebar.refreshes) + 1
      ensures loadCounter == old(loadCounter)
    {
      logs := [];
      isLoad := false;
      sidebar.Clear();
      decorated := [];
      listening := false;
      sidebar.SetReady(false);
    }

    /** A document is about to be saved: the page no longer counts as loaded. */
    method OnWillSave()
      requires Valid() && listening
      modifies this`isLoad
      ensures Valid() && !isLoad
    {
      isLoad := false;
    }

    /** A document changed: the logs are decorated again if the page counts as loaded. */
    method OnTextChanged()
      requires Valid() && listening
      modifies this`decorated
      ensures Valid()
      ensures decorated == if isLoad then old(decorated) + logs else old(decorated)
    {
      if isLoad {
        decorated := decorated + logs;
      }
    }

    /** Another editor became active: the logs are decorated again. */
    method OnActiveEditorChanged()
      requires Valid() && listening
      modifies this`decorated
      ensures Valid()
      ensures decorated == old(decorated) + logs
    {
      decorated := decorated + logs;
    }
  }
}
