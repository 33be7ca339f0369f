/**
 * What the sidebars see of a log: where it comes from, how many arguments it has,
 * the previews of its arguments and its one-line text. The sidebars call into the
 * log for argument previews and for fetching the properties of an object; those
 * calls are the inputs here.
 */
module SidebarLog {
  import opened Wrappers
  import opened Text
  import opened Sorting

  /** An argument or property value as a tree node shows it; `objectId` is the handle for fetching its properties. */
  datatype Preview = Preview(title: string, objectId: Option<string>)

  /** A node for the preview can be expanded: its `objectId` is present and not the empty string. */
  predicate Expandable(p: Preview)
  {
    p.objectId.Some? && p.objectId.value != ""
  }

  /** A property of a fetched object: its name, its value's preview and whether it is enumerable. */
  datatype Property = Property(name: string, preview: Preview, enumerable: bool)

  /** The outcome of fetching an object's properties. */
  datatype Fetch = Threw | NoResponse | Fetched(props: seq<Property>)

  /** A log as the sidebars use it; `text` is its one-line preview. */
  datatype TreeLog = TreeLog(
    source: string,
    line: int,
    column: int,
    argCount: nat,
    argPreviews: seq<Preview>,
    firstPreview: Preview,
    text: string)

  /** The path of the log's file: its source split at `/`, empty segments dropped. */
  function PathOf(log: TreeLog): (segs: seq<string>)
    ensures forall i :: 0 <= i < |segs| ==> segs[i] != [] && '/' !in segs[i]
  {
    PathSegments(log.source)
  }

  /** Logs ordered by their line in the original source. */
  predicate ByLine(a: TreeLog, b: TreeLog)
  {
    a.line <= b.line
  }

  lemma ByLineIsTotalPreorder()
    ensures TotalPreorder(ByLine)
  {
  }
}
