/**
 * The route event strings of the settings, such as `click '.btn' 100`: an event
 * type, a quoted CSS selector and an optional delay in milliseconds, matched by
 * the pattern `^\s*(\w+)\s+'(.+)'\s*(\d*)\s*$` of Browser.ts.
 */
module RouteEvents {
  import opened Wrappers
  import opened Text

  /** `\s` of ECMAScript regular expressions: white space and line terminators. */
  predicate IsSpace(c: char)
  {
    c == '\t' || c == '\n' || c == '\U{000B}' || c == '\U{000C}' || c == '\r' || c == ' '
    || c == '\U{00A0}' || c == '\U{1680}' || ('\U{2000}' <= c <= '\U{200A}')
    || c == '\U{2028}' || c == '\U{2029}' || c == '\U{202F}' || c == '\U{205F}'
    || c == '\U{3000}' || c == '\U{FEFF}'
  }

  /** `\w`: ASCII letters, digits and `_`. */
  predicate IsWord(c: char)
  {
    ('a' <= c <= 'z') || ('A' <= c <= 'Z') || ('0' <= c <= '9') || c == '_'
  }

  /** The characters `.` does not match. */
  predicate IsLineTerminator(c: char)
  {
    c == '\n' || c == '\r' || c == '\U{2028}' || c == '\U{2029}'
  }

  /** The character classes of the pattern. */
  datatype CharClass = Space | Word | Digit

  predicate In(c: char, cls: CharClass)
  {
    match cls
    case Space => IsSpace(c)
    case Word => IsWord(c)
    case Digit => IsDigit(c)
  }

  predicate All(s: string, cls: CharClass)
  {
    forall i :: 0 <= i < |s| ==> In(s[i], cls)
  }

  predicate NoLineTerminator(s: string)
  {
    forall i :: 0 <= i < |s| ==> !IsLineTerminator(s[i])
  }

  /** A parsed event: its type, its selector and the digits of its delay (possibly none). */
  datatype RouteEvent = RouteEvent(kind: string, selector: string, digits: string)

  /** `+timeout`: the delay in milliseconds, 0 when no digits were given. */
  function Timeout(ev: RouteEvent): nat
    requires AllDigits(ev.digits)
  {
    DigitsValue(ev.digits)
  }

  /**
   * `e` is `ws1 kind ws2 'sel' ws3 digits ws4` with the pieces the pattern allows:
   * the white-space runs `ws1`, `ws3`, `ws4` possibly empty and `ws2` not, a non-empty
   * word `kind`, a non-empty selector on one line, and decimal digits.
   */
  predicate Decomposes(e: string, ws1: string, kind: string, ws2: string, sel: string, ws3: string, digits: string, ws4: string)
  {
    && All(ws1, Space) && kind != [] && All(kind, Word) && ws2 != [] && All(ws2, Space)
    && sel != [] && NoLineTerminator(sel)
    && All(ws3, Space) && All(digits, Digit) && All(ws4, Space)
    && e == ws1 + kind + ws2 + "'" + sel + "'" + ws3 + digits + ws4
  }

  /** The length of the longest run of characters of class `cls` from position `i`. */
  function Run(s: string, i: nat, cls: CharClass): (n: nat)
    requires i <= |s|
    ensures i + n <= |s|
    ensures i + n == |s| || !In(s[i + n], cls)
    decreases |s| - i
  {
    if i < |s| && In(s[i], cls) then 1 + Run(s, i + 1, cls) else 0
  }

  /** Every character of the run is of the class. */
  lemma {:induction false} RunAll(s: string, i: nat, cls: CharClass)
    requires i <= |s|
    ensures forall k :: i <= k < i + Run(s, i, cls) ==> In(s[k], cls)
    decreases |s| - i
  {
    if i < |s| && In(s[i], cls) {
      RunAll(s, i + 1, cls);
    }
  }

  /** The run as a string: all of the class. */
  lemma RunSlice(s: string, i: nat, cls: CharClass)
    requires i <= |s|
    ensures All(s[i..i + Run(s, i, cls)], cls)
  {
    RunAll(s, i, cls);
    var run := s[i..i + Run(s, i, cls)];
    forall k | 0 <= k < |run|
      ensures In(run[k], cls)
    {
      assert run[k] == s[i + k];
    }
  }

  lemma {:induction false} RunExact(s: string, i: nat, m: nat, cls: CharClass)
    requires i + m <= |s|
    requires forall k :: i <= k < i + m ==> In(s[k], cls)
    requires i + m == |s| || !In(s[i + m], cls)
    ensures Run(s, i, cls) == m
    decreases m
  {
    if m > 0 { RunExact(s, i + 1, m - 1, cls); }
  }

  /** The digits of a tail matching `\s*(\d*)\s*$`, or None when it does not match. */
  function TailDigits(t: string): (r: Option<string>)
    ensures r.Some? ==> All(r.value, Digit)
  {
    var a := Run(t, 0, Space);
    var b := Run(t, a, Digit);
    var c := Run(t, a + b, Space);
    if a + b + c == |t| then
      RunAll(t, a, Digit);
      assert forall k :: a <= k < a + b ==> In(t[k], Digit);
      Some(t[a..a + b])
    else None
  }

  /** The closing quote may be at `j` of the text after the opening quote. */
  predicate CloseAt(r: string, j: nat)
  {
    1 <= j < |r| && r[j] == '\'' && NoLineTerminator(r[..j]) && TailDigits(r[j + 1..]).Some?
  }

  /** The position of the last quote before position `j`. */
  function LastQuoteBefore(r: string, j: nat): (k: Option<nat>)
    requires j <= |r|
    ensures k.Some? ==> k.value < j && r[k.value] == '\''
    decreases j
  {
    if j == 0 then None
    else if r[j - 1] == '\'' then Some(j - 1)
    else LastQuoteBefore(r, j - 1)
  }

  /** `^\s*(\w+)\s+'`: the event type and the position of the opening quote. */
  function OpenQuote(e: string): Option<(string, nat)>
  {
    var a := Run(e, 0, Space);
    var w := Run(e, a, Word);
    var g := Run(e, a + w, Space);
    var p := a + w + g;
    if w == 0 || g == 0 || p >= |e| || e[p] != '\'' then None
    else Some((e[a..a + w], p))
  }

  /**
   * `(.+)'\s*(\d*)\s*$` on the text after the opening quote: the selector and the digits.
   * No quote can follow the closing quote, so the only candidate is the last quote
   * (see `CloseIsUnique` for why this is the pattern's own choice).
   */
  function SelectorAndDigits(r: string): Option<(string, string)>
  {
    match LastQuoteBefore(r, |r|)
    case None => None
    case Some(j) => if CloseAt(r, j) then Some((r[..j], TailDigits(r[j + 1..]).value)) else None
  }

  /** `event.match(...)`: the captured groups, or None when the string does not match. */
  function ParseEvent(e: string): Option<RouteEvent>
  {
    match OpenQuote(e)
    case None => None
    case Some((kind, p)) =>
      match SelectorAndDigits(e[p + 1..])
      case None => None
      case Some((sel, digits)) => Some(RouteEvent(kind, sel, digits))
  }

  // ---------------------------------------------------------------------------
  // The parse is the pattern

  lemma ClassesDisjoint(c: char)
    ensures In(c, Word) ==> !In(c, Space)
    ensures In(c, Digit) ==> !In(c, Space)
  {
  }

  /** A tail of white space, digits and white space gives exactly those digits. */
  lemma TailDigitsOf(ws3: string, digits: string, ws4: string)
    requires All(ws3, Space) && All(digits, Digit) && All(ws4, Space)
    ensures TailDigits(ws3 + digits + ws4) == Some(digits)
  {
    var t := ws3 + digits + ws4;
    if digits == [] {
      assert t == ws3 + ws4;
      RunAt(t, 0, t, Space);
      RunExact(t, |t|, 0, Digit);
      RunExact(t, |t|, 0, Space);
      TailDigitsOfRuns(t, |t|, 0, 0, digits);
    } else {
      TailRuns(ws3, digits, ws4);
      TailDigitsOfRuns(t, |ws3|, |digits|, |ws4|, digits);
    }
  }

  /** The three runs `TailDigits` measures on `ws3 digits ws4` when there are digits. */
  lemma TailRuns(ws3: string, digits: string, ws4: string)
    requires All(ws3, Space) && digits != [] && All(digits, Digit) && All(ws4, Space)
    ensures var t, a, b := ws3 + digits + ws4, |ws3|, |digits|;
      && t[a..a + b] == digits
      && Run(t, 0, Space) == a && Run(t, a, Digit) == b && Run(t, a + b, Space) == |ws4|
  {
    var t := ws3 + digits + ws4;
    var a, b := |ws3|, |digits|;
    assert t[..a] == ws3 && t[a..a + b] == digits && t[a + b..] == ws4;
    assert t[a] == digits[0];
    ClassesDisjoint(digits[0]);
    if ws4 != [] {
      assert t[a + b] == ws4[0];
      ClassesDisjoint(ws4[0]);
    }
    RunAt(t, 0, ws3, Space);
    RunAt(t, a, digits, Digit);
    RunAt(t, a + b, ws4, Space);
  }

  lemma TailDigitsOfRuns(t: string, a: nat, b: nat, c: nat, digits: string)
    requires Run(t, 0, Space) == a && Run(t, a, Digit) == b && Run(t, a + b, Space) == c
    requires a + b + c == |t| && t[a..a + b] == digits
    ensures TailDigits(t) == Some(digits)
  {
  }

  /** A tail that matches is white space, digits and white space. */
  lemma TailDigitsShape(t: string) returns (ws3: string, ws4: string)
    requires TailDigits(t).Some?
    ensures All(ws3, Space) && All(ws4, Space)
    ensures t == ws3 + TailDigits(t).value + ws4
  {
    var a := Run(t, 0, Space);
    var b := Run(t, a, Digit);
    var c := Run(t, a + b, Space);
    RunSlice(t, 0, Space);
    RunSlice(t, a + b, Space);
    assert t[a + b..] == t[a + b..a + b + c];
    ws3, ws4 := t[..a], t[a + b..];
    assert t == t[..a] + t[a..a + b] + t[a + b..];
  }

  lemma OpenQuoteSound(e: string) returns (ws1: string, kind: string, ws2: string, p: nat)
    requires OpenQuote(e).Some?
    ensures OpenQuote(e) == Some((kind, p))
    ensures All(ws1, Space) && kind != [] && All(kind, Word) && ws2 != [] && All(ws2, Space)
    ensures p < |e| && e == ws1 + kind + ws2 + "'" + e[p + 1..]
  {
    var a := Run(e, 0, Space);
    var w := Run(e, a, Word);
    var g := Run(e, a + w, Space);
    p := a + w + g;
    RunSlice(e, 0, Space);
    RunSlice(e, a, Word);
    RunSlice(e, a + w, Space);
    ws1, kind, ws2 := e[..a], e[a..a + w], e[a + w..p];
    CutHead(e, a, a + w, p);
  }

  /** Cutting a string before a quote at `p` into three pieces and putting them back together. */
  lemma CutHead(e: string, i: nat, j: nat, p: nat)
    requires i <= j <= p < |e| && e[p] == '\''
    ensures e == e[..i] + e[i..j] + e[j..p] + "'" + e[p + 1..]
  {
    assert e == e[..i] + e[i..j] + e[j..p] + [e[p]] + e[p + 1..];
  }

  lemma OpenQuoteComplete(ws1: string, kind: string, ws2: string, rest: string)
    requires All(ws1, Space) && kind != [] && All(kind, Word) && ws2 != [] && All(ws2, Space)
    ensures OpenQuote(ws1 + kind + ws2 + "'" + rest) == Some((kind, |ws1| + |kind| + |ws2|))
  {
    HeadRuns(ws1, kind, ws2, rest);
    OpenQuoteOf(ws1 + kind + ws2 + "'" + rest, |ws1|, |kind|, |ws2|, kind);
  }

  /** The three runs `OpenQuote` measures on `ws1 kind ws2 'rest`, and what lies between them. */
  lemma HeadRuns(ws1: string, kind: string, ws2: string, rest: string)
    requires All(ws1, Space) && kind != [] && All(kind, Word) && ws2 != [] && All(ws2, Space)
    ensures var e, a, w, g := ws1 + kind + ws2 + "'" + rest, |ws1|, |kind|, |ws2|;
      && a + w + g < |e| && e[a + w + g] == '\'' && e[a..a + w] == kind
      && Run(e, 0, Space) == a && Run(e, a, Word) == w && Run(e, a + w, Space) == g
  {
    var e := ws1 + kind + ws2 + "'" + rest;
    var a, w, g := |ws1|, |kind|, |ws2|;
    assert e[..a] == ws1 && e[a..a + w] == kind && e[a + w..a + w + g] == ws2;
    assert e[a] == kind[0] && e[a + w] == ws2[0] && e[a + w + g] == '\'';
    ClassesDisjoint(kind[0]);
    ClassesDisjoint(ws2[0]);
    RunAt(e, 0, ws1, Space);
    RunAt(e, a, kind, Word);
    RunAt(e, a + w, ws2, Space);
  }

  /** A run of class `cls` at `i` that is followed by something outside the class is found whole. */
  lemma RunAt(e: string, i: nat, mid: string, cls: CharClass)
    requires i + |mid| <= |e| && e[i..i + |mid|] == mid && All(mid, cls)
    requires i + |mid| == |e| || !In(e[i + |mid|], cls)
    ensures Run(e, i, cls) == |mid|
  {
    forall k | i <= k < i + |mid|
      ensures In(e[k], cls)
    {
      assert e[k] == mid[k - i];
    }
    RunExact(e, i, |mid|, cls);
  }

  lemma OpenQuoteOf(e: string, a: nat, w: nat, g: nat, kind: string)
    requires Run(e, 0, Space) == a && Run(e, a, Word) == w && Run(e, a + w, Space) == g
    requires w > 0 && g > 0 && a + w + g < |e| && e[a + w + g] == '\'' && e[a..a + w] == kind
    ensures OpenQuote(e) == Some((kind, a + w + g))
  {
  }

  lemma SelectorAndDigitsSound(r: string) returns (sel: string, ws3: string, digits: string, ws4: string)
    requires SelectorAndDigits(r).Some?
    ensures SelectorAndDigits(r) == Some((sel, digits))
    ensures sel != [] && NoLineTerminator(sel) && All(digits, Digit) && All(ws3, Space) && All(ws4, Space)
    ensures r == sel + "'" + ws3 + digits + ws4
  {
    var j := LastQuoteBefore(r, |r|).value;
    assert CloseAt(r, j);
    var tail := r[j + 1..];
    sel, digits := r[..j], TailDigits(tail).value;
    ws3, ws4 := TailDigitsShape(tail);
    Reassemble(r, j, ws3, digits, ws4);
  }

  /** Cutting a string at a quote and putting the pieces back together. */
  lemma Reassemble(r: string, j: nat, a: string, b: string, c: string)
    requires j < |r| && r[j] == '\'' && r[j + 1..] == a + b + c
    ensures r == r[..j] + "'" + a + b + c
  {
    assert r == r[..j] + [r[j]] + r[j + 1..];
  }

  lemma SelectorAndDigitsComplete(sel: string, ws3: string, digits: string, ws4: string)
    requires sel != [] && NoLineTerminator(sel) && All(ws3, Space) && All(digits, Digit) && All(ws4, Space)
    ensures SelectorAndDigits(sel + "'" + ws3 + digits + ws4) == Some((sel, digits))
  {
    SelectorCloses(sel, ws3, digits, ws4);
    CloseIsUnique(sel + "'" + ws3 + digits + ws4, |sel|);
    SplitAtSelector(sel, ws3, digits, ws4);
    TailDigitsOf(ws3, digits, ws4);
  }

  lemma SplitAtSelector(sel: string, ws3: string, digits: string, ws4: string)
    ensures var r := sel + "'" + ws3 + digits + ws4;
      |sel| < |r| && r[..|sel|] == sel && r[|sel| + 1..] == ws3 + digits + ws4
  {
  }

  /** The quote right after a selector, followed by white space and digits, may close it. */
  lemma SelectorCloses(sel: string, ws3: string, digits: string, ws4: string)
    requires sel != [] && NoLineTerminator(sel) && All(ws3, Space) && All(digits, Digit) && All(ws4, Space)
    ensures CloseAt(sel + "'" + ws3 + digits + ws4, |sel|)
  {
    SplitAtSelector(sel, ws3, digits, ws4);
    TailDigitsOf(ws3, digits, ws4);
  }

  /** A tail of white space and digits holds no quote. */
  lemma TailWithoutQuote(t: string)
    requires TailDigits(t).Some?
    ensures forall i :: 0 <= i < |t| ==> t[i] != '\''
  {
    var ws3, ws4 := TailDigitsShape(t);
    var d := TailDigits(t).value;
    forall i | 0 <= i < |t|
      ensures t[i] != '\''
    {
      if i < |ws3| {
        assert t[i] == ws3[i];
      } else if i < |ws3| + |d| {
        assert t[i] == d[i - |ws3|];
      } else {
        assert t[i] == ws4[i - |ws3| - |d|];
      }
    }
  }

  /**
   * Whatever position the closing quote may take is the one the match uses: `(.+)` is
   * greedy, but after a possible closing quote only white space and digits follow, so
   * there is exactly one candidate.
   */
  lemma CloseIsUnique(r: string, m: nat)
    requires CloseAt(r, m)
    ensures SelectorAndDigits(r) == Some((r[..m], TailDigits(r[m + 1..]).value))
  {
    var t := r[m + 1..];
    TailWithoutQuote(t);
    forall k | m < k < |r|
      ensures r[k] != '\''
    {
      assert r[k] == t[k - m - 1];
    }
    LastQuoteBeforeIs(r, |r|, m);
  }

  /** When nothing is matched, no position could have closed the selector. */
  lemma NoCloseWithoutMatch(r: string, m: nat)
    requires SelectorAndDigits(r).None?
    ensures !CloseAt(r, m)
  {
    if CloseAt(r, m) {
      CloseIsUnique(r, m);
    }
  }

  lemma {:induction false} LastQuoteBeforeIs(r: string, j: nat, m: nat)
    requires m < j <= |r| && r[m] == '\''
    requires forall k :: m < k < j ==> r[k] != '\''
    ensures LastQuoteBefore(r, j) == Some(m)
    decreases j
  {
    if j - 1 > m {
      LastQuoteBeforeIs(r, j - 1, m);
    }
  }

  lemma JoinPieces(e: string, ws1: string, kind: string, ws2: string, r: string,
                   sel: string, ws3: string, digits: string, ws4: string)
    requires e == ws1 + kind + ws2 + "'" + r && r == sel + "'" + ws3 + digits + ws4
    ensures e == ws1 + kind + ws2 + "'" + sel + "'" + ws3 + digits + ws4
  {
  }

  /** Soundness: a parsed event is a decomposition of the string the pattern allows. */
  lemma ParseSound(e: string)
    requires ParseEvent(e).Some?
    ensures var ev := ParseEvent(e).value;
      exists ws1, ws2, ws3, ws4 :: Decomposes(e, ws1, ev.kind, ws2, ev.selector, ws3, ev.digits, ws4)
  {
    var ws1, kind, ws2, p := OpenQuoteSound(e);
    var r := e[p + 1..];
    var sel, ws3, digits, ws4 := SelectorAndDigitsSound(r);
    assert ParseEvent(e) == Some(RouteEvent(kind, sel, digits));
    JoinPieces(e, ws1, kind, ws2, r, sel, ws3, digits, ws4);
    assert Decomposes(e, ws1, kind, ws2, sel, ws3, digits, ws4);
  }

  /**
   * Completeness: every string the pattern allows parses, and into exactly its
   * pieces (the closing quote is the last quote of the string, so the pieces are unique).
   */
  lemma ParseComplete(e: string, ws1: string, kind: string, ws2: string, sel: string, ws3: string, digits: string, ws4: string)
    requires Decomposes(e, ws1, kind, ws2, sel, ws3, digits, ws4)
    ensures ParseEvent(e) == Some(RouteEvent(kind, sel, digits))
  {
    var rest := sel + "'" + ws3 + digits + ws4;
    assert e == ws1 + kind + ws2 + "'" + rest;
    OpenQuoteComplete(ws1, kind, ws2, rest);
    var p := |ws1| + |kind| + |ws2|;
    assert e[p + 1..] == rest;
    SelectorAndDigitsComplete(sel, ws3, digits, ws4);
  }

  /** The event string for a type, a selector and a delay. */
  function Render(kind: string, sel: string, timeout: nat): string
  {
    kind + " '" + sel + "' " + NatToString(timeout)
  }

  /** Rendering an event and matching it back gives the same type, selector and delay. */
  lemma RenderParses(kind: string, sel: string, timeout: nat)
    requires kind != [] && All(kind, Word) && sel != [] && NoLineTerminator(sel)
    ensures ParseEvent(Render(kind, sel, timeout)) == Some(RouteEvent(kind, sel, NatToString(timeout)))
    ensures Timeout(ParseEvent(Render(kind, sel, timeout)).value) == timeout
  {
    var e := Render(kind, sel, timeout);
    var digits := NatToString(timeout);
    assert e == "" + kind + " " + "'" + sel + "'" + " " + digits + "";
    assert All(digits, Digit);
    assert Decomposes(e, "", kind, " ", sel, " ", digits, "");
    ParseComplete(e, "", kind, " ", sel, " ", digits, "");
    DigitsValueOfNatToString(timeout);
  }

  /** Without a delay the event waits 0 ms. */
  lemma ParseWithoutDelay()
    ensures ParseEvent("click '.btn'") == Some(RouteEvent("click", ".btn", ""))
  {
    var e := "click '.btn'";
    assert e == "" + "click" + " " + "'" + ".btn" + "'" + "" + "" + "";
    assert All("click", Word);
    assert NoLineTerminator(".btn");
    assert Decomposes(e, "", "click", " ", ".btn", "", "", "");
    ParseComplete(e, "", "click", " ", ".btn", "", "", "");
  }

  /** A string without any quote never matches. */
  lemma NoQuoteNoMatch(e: string)
    requires forall i :: 0 <= i < |e| ==> e[i] != '\''
    ensures ParseEvent(e) == None
  {
  }

  /** A selector without quotes does not match. */
  lemma ParseWithoutQuote()
    ensures ParseEvent("click .btn") == None
  {
    NoQuoteNoMatch("click .btn");
  }
}
