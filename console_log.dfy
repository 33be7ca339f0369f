/**
 * One console invocation of the page (`Log`): where it was called, where that is in the
 * original sources, whether it can be shown, and the one-line preview of its arguments.
 * Arguments are devtools-protocol remote objects; every field named `type` in the protocol
 * is called `kind` here, since `type` is a keyword.
 */
module ConsoleLog {
  import opened Wrappers
  import opened Text

  /** A position in a file; `source` is the path part of the file's URL. */
  datatype Position = Position(line: int, column: int, source: string)

  /** A position after source-map resolution; line and column are `null` where the map has no mapping. */
  datatype OriginalPosition = OriginalPosition(line: Option<int>, column: Option<int>, source: string)

  /** A position query in the 1-based convention of the source-map library. */
  datatype SourceMapQuery = SourceMapQuery(line: int, column: int)

  /** What a source map answers; every part may be `null`. */
  datatype MappedPosition = MappedPosition(source: Option<string>, line: Option<int>, column: Option<int>)

  /** The registered source maps, by URL of the generated script; each is an opaque lookup. */
  type SourceMaps = map<string, SourceMapQuery -> MappedPosition>

  /** A stack frame as the runtime reports it: 0-based line and column. */
  datatype CallFrame = CallFrame(url: string, lineNumber: int, columnNumber: int)

  datatype ConsoleEvent = ConsoleEvent(kind: string, args: seq<RemoteObject>, callFrames: seq<CallFrame>)

  /** An inline primitive value: a string, or any other value by the text `${value}` gives for it. */
  datatype JsValue = JsString(s: string) | JsOther(text: string)

  datatype PropertyPreview = PropertyPreview(name: string, kind: string, value: Option<string>)

  datatype ObjectPreview = ObjectPreview(
    kind: string,
    description: Option<string>,
    properties: seq<PropertyPreview>,
    entries: Option<seq<EntryPreview>>)

  datatype EntryPreview = EntryPreview(key: Option<ObjectPreview>, value: ObjectPreview)

  /** A remote value; `value` is present exactly when the protocol object has an own `value` field. */
  datatype RemoteObject = RemoteObject(
    kind: string,
    subtype: Option<string>,
    className: Option<string>,
    value: Option<JsValue>,
    description: Option<string>,
    preview: Option<ObjectPreview>)

  /** JavaScript truthiness of an optional string: present and not empty. */
  predicate Truthy(s: Option<string>)
  {
    s.Some? && s.value != ""
  }

  /** JavaScript truthiness of an optional number: present and not zero. */
  predicate TruthyLine(n: Option<int>)
  {
    n.Some? && n.value != 0
  }

  /** `${s}` for a string that may be `undefined`. */
  function Interpolate(s: Option<string>): string
  {
    s.GetOr("undefined")
  }

  // ---------------------------------------------------------------------------
  // Positions

  /** Where the runtime says the call happened, kept 0-based. */
  function GeneratedPositionOf(frame: CallFrame, pathname: string -> string): Position
  {
    Position(frame.lineNumber, frame.columnNumber, pathname(frame.url))
  }

  /** The query sent to the source map: the runtime's 0-based line and column, each plus one. */
  function QueryOf(frame: CallFrame): (q: SourceMapQuery)
    ensures q.line - 1 == GeneratedPositionOf(frame, _ => "").line
    ensures q.column - 1 == GeneratedPositionOf(frame, _ => "").column
  {
    SourceMapQuery(frame.lineNumber + 1, frame.columnNumber + 1)
  }

  /** The original position from the map's answer; the source is `''` when the map names none. */
  function OriginalPositionOf(m: MappedPosition, pathname: string -> string): OriginalPosition
  {
    OriginalPosition(m.line, m.column, if Truthy(m.source) then pathname(m.source.value) else "")
  }

  /** `existOnClient`: at least one argument, a non-empty original source and a truthy original line. */
  predicate Eligible(args: seq<RemoteObject>, original: OriginalPosition)
  {
    |args| > 0 && original.source != "" && TruthyLine(original.line)
  }

  /** A map that names no source makes the entry ineligible, whatever its arguments. */
  lemma UnmappedNeverEligible(args: seq<RemoteObject>, m: MappedPosition, pathname: string -> string)
    requires !Truthy(m.source)
    ensures OriginalPositionOf(m, pathname).source == ""
    ensures !Eligible(args, OriginalPositionOf(m, pathname))
  {
  }

  // ---------------------------------------------------------------------------
  // Preview of the arguments

  function QuoteString(isQuote: bool, value: string): string
  {
    if isQuote then "'" + value + "'" else value
  }

  function ValueToString(v: JsValue): string
  {
    match v
    case JsString(s) => QuoteString(true, s)
    case JsOther(t) => QuoteString(false, t)
  }

  function PropToString(p: PropertyPreview): string
  {
    QuoteString(p.kind == "string", Interpolate(p.value))
  }

  /** `propToString(props[i])`, which is `undefined` past the end of `props`. */
  function PropAtToString(props: seq<PropertyPreview>, i: nat): string
  {
    if i < |props| then PropToString(props[i]) else "undefined"
  }

  function ObjectToString(o: ObjectPreview): string
  {
    QuoteString(o.kind == "string", Interpolate(o.description))
  }

  function EntryToString(e: EntryPreview): string
  {
    match e.key
    case Some(k) => ObjectToString(k) + " => " + ObjectToString(e.value)
    case None => ObjectToString(e.value)
  }

  const IgnoredClasses: seq<string> := ["Object", "Function"]

  const CollectionSubtypes: seq<string> := ["map", "set", "weakmap", "weakset"]

  /** `ClassName: ` for a present class name other than `Object` and `Function`, else nothing. */
  function ClassDescription(className: Option<string>): string
  {
    if Truthy(className) && className.value !in IgnoredClasses then className.value + ": " else ""
  }

  function NamedProps(props: seq<PropertyPreview>): seq<string>
  {
    seq(|props|, i requires 0 <= i < |props| => props[i].name + ": " + PropToString(props[i]))
  }

  function PropStrings(props: seq<PropertyPreview>): seq<string>
  {
    seq(|props|, i requires 0 <= i < |props| => PropToString(props[i]))
  }

  function EntryStrings(entries: seq<EntryPreview>): seq<string>
  {
    seq(|entries|, i requires 0 <= i < |entries| => EntryToString(entries[i]))
  }

  /** `${preview?.properties.map(f).join(', ')}`. */
  function JoinedProps(preview: Option<ObjectPreview>, named: bool): string
  {
    match preview
    case None => "undefined"
    case Some(p) => Join(if named then NamedProps(p.properties) else PropStrings(p.properties), ", ")
  }

  /** `${preview?.entries?.map(entryToString).join(', ')}`. */
  function JoinedEntries(preview: Option<ObjectPreview>): string
  {
    if preview.Some? && preview.value.entries.Some? then Join(EntryStrings(preview.value.entries.value), ", ")
    else "undefined"
  }

  predicate IsObjectWith(arg: RemoteObject, subtype: string)
  {
    arg.kind == "object" && arg.subtype == Some(subtype)
  }

  /**
   * The preview of one argument; `None` where the source throws (a promise
   * without an inline preview, whose `props[0]` reads a property of `undefined`).
   */
  function ArgToString(arg: RemoteObject): Option<string>
  {
    if arg.value.Some? then Some(ValueToString(arg.value.value))
    else if arg.kind == "object" && !Truthy(arg.subtype) then
      Some(ClassDescription(arg.className) + "{ " + JoinedProps(arg.preview, true) + " }")
    else if IsObjectWith(arg, "array") then
      Some("[ " + JoinedProps(arg.preview, false) + " ]")
    else if IsObjectWith(arg, "promise") then
      if arg.preview.None? then None
      else
        var props := arg.preview.value.properties;
        Some(Interpolate(arg.description) + ": { <" + PropAtToString(props, 0) + ">: " + PropAtToString(props, 1) + " }")
    else if arg.kind == "object" && arg.subtype.Some? && arg.subtype.value in CollectionSubtypes then
      Some(Interpolate(arg.description) + ": { " + JoinedEntries(arg.preview) + " }")
    else
      Some(ClassDescription(arg.className) + Interpolate(arg.description))
  }

  /** The per-argument previews in argument order, or `None` as soon as one of them throws. */
  function ArgStrings(args: seq<RemoteObject>): (r: Option<seq<string>>)
    ensures r.Some? ==> |r.value| == |args|
    ensures r.Some? ==> forall i :: 0 <= i < |args| ==> ArgToString(args[i]) == Some(r.value[i])
  {
    if args == [] then Some([])
    else
      var first, rest := ArgToString(args[0]), ArgStrings(args[1..]);
      if first.Some? && rest.Some? then Some([first.value] + rest.value) else None
  }

  /** The `preview` getter: the arguments' previews joined by `, `. */
  function PreviewOf(args: seq<RemoteObject>): Option<string>
  {
    match ArgStrings(args)
    case Some(parts) => Some(Join(parts, ", "))
    case None => None
  }

  /** The preview fails exactly when some argument's preview fails. */
  lemma {:induction false} PreviewFailsOnlyOnFailingArg(args: seq<RemoteObject>)
    ensures PreviewOf(args).None? <==> exists i :: 0 <= i < |args| && ArgToString(args[i]).None?
  {
    if args != [] {
      PreviewFailsOnlyOnFailingArg(args[1..]);
      if ArgToString(args[0]).Some? && ArgStrings(args[1..]).Some? {
        assert forall i :: 1 <= i < |args| ==> args[i] == args[1..][i - 1];
      } else if ArgToString(args[0]).Some? {
        var i :| 0 <= i < |args[1..]| && ArgToString(args[1..][i]).None?;
        assert args[i + 1] == args[1..][i];
      }
    }
  }

  lemma {:induction false} ArgStringsConcat(a: seq<RemoteObject>, b: seq<RemoteObject>)
    ensures ArgStrings(a + b).Some? <==> ArgStrings(a).Some? && ArgStrings(b).Some?
    ensures ArgStrings(a + b).Some? ==> ArgStrings(a + b).value == ArgStrings(a).value + ArgStrings(b).value
  {
    if a == [] {
      assert a + b == b;
    } else {
      assert (a + b)[1..] == a[1..] + b;
      assert (a + b)[0] == a[0];
      ArgStringsConcat(a[1..], b);
      var first := ArgToString(a[0]);
      if first.Some? && ArgStrings(a[1..]).Some? && ArgStrings(b).Some? {
        var y, z := ArgStrings(a[1..]).value, ArgStrings(b).value;
        assert [first.value] + (y + z) == ([first.value] + y) + z;
      }
    }
  }

  /** A single argument's preview is that argument's rendering. */
  lemma SingleArgPreview(arg: RemoteObject)
    ensures PreviewOf([arg]) == ArgToString(arg)
  {
    assert [arg][1..] == [];
    assert ArgStrings([]) == Some([]);
    var r := ArgToString(arg);
    if r.Some? {
      assert ArgStrings([arg]) == Some([r.value] + []);
      assert [r.value] + [] == [r.value];
      assert Join([r.value], ", ") == r.value;
    } else {
      assert ArgStrings([arg]) == None;
    }
  }

  /** The preview of a concatenation is the two previews joined by `, `: arguments render independently and in order. */
  lemma PreviewConcat(a: seq<RemoteObject>, b: seq<RemoteObject>)
    requires a != [] && b != []
    requires PreviewOf(a).Some? && PreviewOf(b).Some?
    ensures PreviewOf(a + b) == Some(PreviewOf(a).value + ", " + PreviewOf(b).value)
  {
    ArgStringsConcat(a, b);
    JoinConcat(ArgStrings(a).value, ArgStrings(b).value, ", ");
  }

  /** An argument with an own `value` renders as that value, whatever its type, class, subtype, description or preview. */
  lemma ValueWinsOverShape(arg: RemoteObject, kind: string, subtype: Option<string>, className: Option<string>,
                           description: Option<string>, preview: Option<ObjectPreview>)
    requires arg.value.Some?
    ensures ArgToString(arg) == ArgToString(arg.(kind := kind, subtype := subtype, className := className,
                                                 description := description, preview := preview))
    ensures ArgToString(arg) == Some(match arg.value.value
                                     case JsString(s) => "'" + s + "'"
                                     case JsOther(t) => t)
  {
  }

  /** `Object`, `Function` and an empty class name render exactly as if no class name were given. */
  lemma IgnoredClassesHaveNoPrefix(arg: RemoteObject, c: string)
    requires c in IgnoredClasses || c == ""
    ensures ArgToString(arg.(className := Some(c))) == ArgToString(arg.(className := None))
  {
  }

  /** A plain object of any other class starts with `ClassName: ` and lists its preview properties. */
  lemma PlainObjectShape(arg: RemoteObject, c: string)
    requires arg.value.None? && arg.kind == "object" && !Truthy(arg.subtype)
    requires c != "" && c !in IgnoredClasses && arg.className == Some(c)
    ensures ArgToString(arg) == Some(c + ": " + "{ " + JoinedProps(arg.preview, true) + " }")
  {
    assert ClassDescription(arg.className) == c + ": ";
  }

  /** Arrays, promises and collections never carry the class prefix. */
  lemma SubtypeShapesIgnoreClass(arg: RemoteObject, className: Option<string>)
    requires arg.value.None? && arg.kind == "object" && arg.subtype.Some?
    requires arg.subtype.value in ["array", "promise"] + CollectionSubtypes
    ensures ArgToString(arg.(className := className)) == ArgToString(arg)
  {
  }

  /** The only failing argument is a promise without inline preview. */
  lemma OnlyPreviewlessPromiseFails(arg: RemoteObject)
    ensures ArgToString(arg).None? <==> arg.value.None? && IsObjectWith(arg, "promise") && arg.preview.None?
  {
  }

  /** A logged string renders quoted: `console.log("hello")` previews as `'hello'`. */
  lemma StringArgumentExample()
    ensures PreviewOf([RemoteObject("string", None, None, Some(JsString("hello")), None, None)]) == Some("'hello'")
  {
    SingleArgPreview(RemoteObject("string", None, None, Some(JsString("hello")), None, None));
    assert "'" + "hello" + "'" == "'hello'";
  }

  /** An object `{ a: 1 }` of class `Object` previews as `{ a: 1 }`, without a class prefix. */
  lemma PlainObjectExample()
    ensures PreviewOf([RemoteObject("object", None, Some("Object"), None, Some("Object"),
                        Some(ObjectPreview("object", Some("Object"), [PropertyPreview("a", "number", Some("1"))], None)))])
         == Some("{ a: 1 }")
  {
    var props := [PropertyPreview("a", "number", Some("1"))];
    var arg := RemoteObject("object", None, Some("Object"), None, Some("Object"),
                            Some(ObjectPreview("object", Some("Object"), props, None)));
    assert NamedProps(props)[0] == "a: 1";
    assert NamedProps(props) == ["a: 1"];
    assert ClassDescription(Some("Object")) == "";
    SingleArgPreview(arg);
    assert Join(["a: 1"], ", ") == "a: 1";
    assert "" + "{ " + "a: 1" + " }" == "{ a: 1 }";
  }

  // ---------------------------------------------------------------------------
  // The entry

  /**
   * A console invocation. Its fields are assigned once, by the constructor, from the
   * first call frame; an event without call frames leaves them unassigned
   * (`hasCallFrame` is false), and reading them then throws.
   */
  class Log {
    const kind: string
    const args: seq<RemoteObject>
    const generatedPosition: Position
    const originalPosition: OriginalPosition
    const hasCallFrame: bool

    /** Resolves the first call frame through the map registered for its URL, which must exist. */
    constructor (event: ConsoleEvent, maps: SourceMaps, pathname: string -> string)
      requires |event.callFrames| > 0 ==> event.callFrames[0].url in maps
      ensures hasCallFrame <==> |event.callFrames| > 0
      ensures hasCallFrame ==> kind == event.kind && args == event.args
      ensures hasCallFrame ==>
        var f := event.callFrames[0];
        && generatedPosition == Position(f.lineNumber, f.columnNumber, pathname(f.url))
        && originalPosition == OriginalPositionOf(maps[f.url](SourceMapQuery(f.lineNumber + 1, f.columnNumber + 1)), pathname)
    {
      if |event.callFrames| == 0 {
        hasCallFrame := false;
        kind, args := "", [];
        generatedPosition := Position(0, 0, "");
        originalPosition := OriginalPosition(None, None, "");
      } else {
        var f := event.callFrames[0];
        hasCallFrame := true;
        kind, args := event.kind, event.args;
        generatedPosition := GeneratedPositionOf(f, pathname);
        originalPosition := OriginalPositionOf(maps[f.url](QueryOf(f)), pathname);
      }
    }

    /** `existOnClient`; `None` where the getter throws (fields never assigned). */
    function ExistOnClient(): (shown: Option<bool>)
      ensures shown.Some? <==> hasCallFrame
      ensures shown == Some(true) <==>
        hasCallFrame && |args| > 0 && originalPosition.source != "" && TruthyLine(originalPosition.line)
    {
      if hasCallFrame then Some(Eligible(args, originalPosition)) else None
    }

    /** The `preview` getter; `None` where it throws. */
    function Preview(): (p: Option<string>)
      ensures p.Some? ==> hasCallFrame
      ensures hasCallFrame ==> p == PreviewOf(args)
      ensures hasCallFrame && |args| == 1 ==> p == ArgToString(args[0])
    {
      if hasCallFrame then
        if |args| == 1 then
          SingleArgPreview(args[0]);
          assert args == [args[0]];
          PreviewOf(args)
        else PreviewOf(args)
      else None
    }
  }
}
