/**
 * The two decisions Browser.ts takes on what the page sends back: whether a
 * development-server WebSocket frame announces a new build (and so a reload), and
 * whether a console call is forwarded as a log. The route-event strings it also
 * handles are in module RouteEvents.
 */
module Browser {
  import opened Wrappers
  import opened ConsoleLog

  /** A decoded sockjs payload: its `type` and its `data`. */
  datatype Payload = Payload(kind: string, data: string)

  /**
   * A received WebSocket frame: `message` is its payload text, and `payloads` what
   * decoding the JSON array after the first character gives.
   */
  datatype Frame = Frame(message: string, payloads: seq<Payload>)

  /** Only a sockjs array frame is looked at: it starts with `a` and has something after it. */
  predicate IsArrayFrame(f: Frame)
  {
    |f.message| > 1 && f.message[0] == 'a'
  }

  /** One payload: the stored hash afterwards and whether a reload is signalled. */
  function Step(hash: string, p: Payload): (string, bool)
  {
    if p.kind != "hash" then (hash, false)
    else if hash == "" then (p.data, false)
    else if p.data == hash then (hash, false)
    else (p.data, true)
  }

  /** The payloads in order: the stored hash afterwards and the number of reloads signalled. */
  function Process(hash: string, ps: seq<Payload>): (string, nat)
    decreases |ps|
  {
    if ps == [] then (hash, 0)
    else
      var (h, reload) := Step(hash, ps[0]);
      var (h', n) := Process(h, ps[1..]);
      (h', n + (if reload then 1 else 0))
  }

  /** The number of `hash` payloads. */
  function HashCount(ps: seq<Payload>): nat
  {
    if ps == [] then 0 else (if ps[0].kind == "hash" then 1 else 0) + HashCount(ps[1..])
  }

  /** Processing a list is processing its first part, then the rest from the hash it leaves. */
  lemma {:induction false} ProcessConcat(hash: string, a: seq<Payload>, b: seq<Payload>)
    ensures var (h1, n1) := Process(hash, a);
      var (h2, n2) := Process(h1, b);
      Process(hash, a + b) == (h2, n1 + n2)
    decreases |a|
  {
    if a != [] {
      assert (a + b)[0] == a[0] && (a + b)[1..] == a[1..] + b;
      ProcessConcat(Step(hash, a[0]).0, a[1..], b);
    } else {
      assert a + b == b;
    }
  }

  /** The first hash is only remembered. */
  lemma FirstHashIsStored(d: string)
    ensures Process("", [Payload("hash", d)]) == (d, 0)
  {
  }

  /** A hash equal to the stored one changes nothing. */
  lemma RepeatedHashIsSilent(hash: string)
    ensures Process(hash, [Payload("hash", hash)]) == (hash, 0)
  {
  }

  /** A different hash replaces the stored one and signals one reload. */
  lemma NewHashReloadsOnce(hash: string, d: string)
    requires hash != "" && d != hash
    ensures Process(hash, [Payload("hash", d)]) == (d, 1)
  {
  }

  /** Payloads of another type are ignored. */
  lemma {:induction false} OtherPayloadsIgnored(hash: string, ps: seq<Payload>)
    requires forall i :: 0 <= i < |ps| ==> ps[i].kind != "hash"
    ensures Process(hash, ps) == (hash, 0)
    decreases |ps|
  {
    if ps != [] {
      OtherPayloadsIgnored(hash, ps[1..]);
    }
  }

  /** There are never more reloads than `hash` payloads, and none when the first one arrives. */
  lemma {:induction false} ReloadsBounded(hash: string, ps: seq<Payload>)
    ensures Process(hash, ps).1 <= HashCount(ps)
    ensures hash == "" && |ps| == 1 ==> Process(hash, ps).1 == 0
    decreases |ps|
  {
    if ps != [] {
      ReloadsBounded(Step(hash, ps[0]).0, ps[1..]);
    }
  }

  /** The last `hash` payload decides the stored hash; without any the stored hash is kept. */
  lemma {:induction false} LastHashIsStored(hash: string, ps: seq<Payload>)
    ensures HashCount(ps) == 0 ==> Process(hash, ps).0 == hash
    ensures HashCount(ps) > 0 ==>
      exists i :: 0 <= i < |ps| && ps[i].kind == "hash" && Process(hash, ps).0 == ps[i].data
        && forall j :: i < j < |ps| ==> ps[j].kind != "hash"
    decreases |ps|
  {
    if ps != [] {
      var h := Step(hash, ps[0]).0;
      LastHashIsStored(h, ps[1..]);
      var tail := ps[1..];
      if HashCount(tail) > 0 {
        var i :| 0 <= i < |tail| && tail[i].kind == "hash" && Process(h, tail).0 == tail[i].data
          && forall j :: i < j < |tail| ==> tail[j].kind != "hash";
        assert ps[i + 1] == tail[i];
        assert forall j :: i + 1 < j < |ps| ==> ps[j] == tail[j - 1];
        assert Process(hash, ps).0 == ps[i + 1].data;
      } else if ps[0].kind == "hash" {
        NoHashPayloads(tail);
        assert forall j :: 0 < j < |ps| ==> ps[j] == tail[j - 1];
        assert Process(hash, ps).0 == ps[0].data;
      }
    }
  }

  lemma {:induction false} NoHashPayloads(ps: seq<Payload>)
    requires HashCount(ps) == 0
    ensures forall j :: 0 <= j < |ps| ==> ps[j].kind != "hash"
  {
    if ps != [] {
      NoHashPayloads(ps[1..]);
      assert forall j :: 0 < j < |ps| ==> ps[j] == ps[1..][j - 1];
    }
  }

  /** The hash that a whole frame leaves and the reloads it signals. */
  function OnFrameSpec(hash: string, f: Frame): (string, nat)
  {
    if IsArrayFrame(f) then Process(hash, f.payloads) else (hash, 0)
  }

  /** A frame that is not an array frame, the empty one included, changes nothing. */
  lemma NonArrayFramesIgnored(hash: string, f: Frame)
    requires !IsArrayFrame(f)
    ensures OnFrameSpec(hash, f) == (hash, 0)
  {
  }

  /** The hash watcher of `onWSReloadPage`; `""` stands for the hash not yet being known. */
  class ReloadWatcher {
    var serverHash: string

    constructor ()
      ensures serverHash == ""
    {
      serverHash := "";
    }

    /** Handles one frame, returning the number of `reload` signals emitted. */
    method OnFrame(f: Frame) returns (reloads: nat)
      modifies this
      ensures (serverHash, reloads) == OnFrameSpec(old(serverHash), f)
    {
      reloads := 0;
      if |f.message| == 0 {
        return;
      }
      if !(|f.message| > 1 && f.message[0] == 'a') {
        return;
      }
      ghost var h0 := serverHash;
      var i := 0;
      while i < |f.payloads|
        invariant 0 <= i <= |f.payloads|
        invariant (serverHash, reloads) == Process(h0, f.payloads[..i])
      {
        var p := f.payloads[i];
        ProcessConcat(h0, f.payloads[..i], [p]);
        assert f.payloads[..i + 1] == f.payloads[..i] + [p];
        if p.kind == "hash" {
          if serverHash == "" {
            serverHash := p.data;
          } else if p.data != serverHash {
            serverHash := p.data;
            reloads := reloads + 1;
          }
        }
        i := i + 1;
      }
      assert f.payloads[..|f.payloads|] == f.payloads;
    }
  }

  /**
   * A console call is forwarded when its first call frame's script has a registered
   * map (otherwise the lookup throws) and the resulting log is displayable.
   */
  predicate Emits(event: ConsoleEvent, maps: SourceMaps, pathname: string -> string)
  {
    && |event.callFrames| > 0
    && event.callFrames[0].url in maps
    && var f := event.callFrames[0];
       Eligible(event.args, OriginalPositionOf(maps[f.url](QueryOf(f)), pathname))
  }

  /** A forwarded call always has arguments and a mapped source file. */
  lemma EmittedLogsAreShown(event: ConsoleEvent, maps: SourceMaps, pathname: string -> string)
    requires Emits(event, maps, pathname)
    ensures |event.args| > 0
    ensures var f := event.callFrames[0];
      OriginalPositionOf(maps[f.url](QueryOf(f)), pathname).source != ""
  {
  }

  /** `onConsoleLog`: the log built from the event, if it is forwarded. */
  method OnConsoleLog(event: ConsoleEvent, maps: SourceMaps, pathname: string -> string)
    returns (emitted: Option<Log>)
    ensures emitted.Some? <==> Emits(event, maps, pathname)
    ensures emitted.Some? ==>
      && emitted.value.args == event.args && emitted.value.kind == event.kind
      && emitted.value.ExistOnClient() == Some(true)
  {
    if |event.callFrames| > 0 && event.callFrames[0].url !in maps {
      return None;
    }
    var log := new Log(event, maps, pathname);
    if log.ExistOnClient() == Some(true) {
      emitted := Some(log);
    } else {
      emitted := None;
    }
  }
}
