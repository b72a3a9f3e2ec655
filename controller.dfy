/** The controller's `main`: the start-up checks, then the endless loop that
    reads a line, debounces it and switches playback. The loop is modelled
    over a finite sequence of lines, each paired with the process table seen
    by the switch it may trigger. (touch_player.py, `main`) */
module Controller {
  import opened Text
  import opened Protocol
  import opened Debounce
  import opened Playback
  import opened Device

  /** The index the loop hands to `start_video` for an acted-upon event: the
      channel for a touch, -1 (idle) for a release on any channel. */
  function Target(e: Event): (n: int)
    requires !e.NoEvent?
    ensures -1 <= n <= 9
    ensures n == -1 <==> e.Release?
    ensures e.Engage? ==> n == e.channel
  {
    if e.Engage? then e.channel else -1
  }

  /** The actions of one loop iteration on event `e` with state `last`. */
  function StepActions(videos: seq<string>, last: int, e: Event, table: seq<Proc>): seq<Action>
  {
    if Acts(last, e) then SwitchActions(videos, table, Target(e)) else []
  }

  /** The events of a sequence of lines. */
  function Events(lines: seq<string>): seq<Event>
  {
    seq(|lines|, k requires 0 <= k < |lines| => Parse(lines[k]))
  }

  /** The actions of the loop over a stream of events. */
  function RunActions(videos: seq<string>, last: int, es: seq<Event>, tables: seq<seq<Proc>>): seq<Action>
    requires |es| == |tables|
  {
    if es == [] then []
    else
      var n := |es| - 1;
      RunActions(videos, last, es[..n], tables[..n]) + StepActions(videos, Final(last, es[..n]), es[n], tables[n])
  }

  /** The clips launched in a trace, in order. */
  function Launched(acts: seq<Action>): seq<string>
  {
    if acts == [] then []
    else
      var a := acts[|acts| - 1];
      Launched(acts[..|acts| - 1]) + (if a.Launch? then [a.path] else [])
  }

  /** The clips that a list of acted-upon events selects, skipping rejected indexes. */
  function Clips(videos: seq<string>, es: seq<Event>): seq<string>
  {
    if es == [] then []
    else
      var e := es[|es| - 1];
      Clips(videos, es[..|es| - 1])
        + (if !e.NoEvent? && Resolve(videos, Target(e)).Some? then [Resolve(videos, Target(e)).value] else [])
  }

  /** How start-up ends: a fatal exit, waiting for the device, or running on a port. */
  datatype Outcome = Exit(code: int) | AwaitDevice | Ready(port: string)

  /** The start-up of `main`: an empty catalog is fatal; no selected port (or
      one with an empty name) means waiting for the device to be plugged in;
      a missing greeting is fatal unless DEBUGUSEPORT is set. */
  method Boot(videos: seq<string>, ports: seq<PortInfo>, debugUsePort: bool, helloLines: seq<string>)
    returns (o: Outcome)
    ensures o.Exit? ==> o.code == 1
    ensures |videos| == 0 ==> o == Exit(1)
    ensures o.AwaitDevice? <==>
      |videos| > 0 && (FirstSelected(ports, debugUsePort).None? || FirstSelected(ports, debugUsePort) == Some(""))
    ensures o.Ready? <==>
      |videos| > 0 && FirstSelected(ports, debugUsePort).Some? && FirstSelected(ports, debugUsePort).value != "" &&
      (debugUsePort || SawHello(helloLines))
    ensures o.Ready? ==> FirstSelected(ports, debugUsePort) == Some(o.port)
  {
    if |videos| == 0 {
      return Exit(1);
    }
    var port := ArduinoPortName(ports, debugUsePort);
    if port.None? || port.value == "" {
      return AwaitDevice;
    }
    if !debugUsePort {
      var ok, _ := ArduinoHello(helloLines);
      if !ok {
        return Exit(1);
      }
    }
    return Ready(port.value);
  }

  /** The running controller: the catalog, the debounce state and the playback effects. */
  class TouchPlayer {
    const videos: seq<string>
    const debouncer: Debouncer
    const supervisor: Supervisor

    /** Entering the loop: play the idle clip, with no direction seen yet. */
    constructor (videos: seq<string>, table: seq<Proc>)
      ensures this.videos == videos && fresh(debouncer) && fresh(supervisor)
      ensures debouncer.lastDirection == 0
      ensures supervisor.trace == SwitchActions(videos, table, -1)
    {
      this.videos := videos;
      debouncer := new Debouncer();
      supervisor := new Supervisor();
      new;
      supervisor.StartVideo(videos, -1, table);
    }

    /** One iteration of the loop on the line read. */
    method HandleLine(line: string, table: seq<Proc>)
      modifies debouncer, supervisor
      ensures debouncer.lastDirection == Next(old(debouncer.lastDirection), Parse(line))
      ensures supervisor.trace ==
        old(supervisor.trace) + StepActions(videos, old(debouncer.lastDirection), Parse(line), table)
    {
      var e := Parse(line);
      var act := debouncer.Step(e);
      if act {
        if e.Direction() > 0 {
          supervisor.StartVideo(videos, e.channel, table);
        } else if e.Direction() < 0 {
          supervisor.StartVideo(videos, -1, table);
        }
      }
    }

    /** The loop over the lines read, `tables[k]` being the process table when line `k` is handled. */
    method Run(lines: seq<string>, tables: seq<seq<Proc>>)
      requires |lines| == |tables|
      modifies debouncer, supervisor
      ensures debouncer.lastDirection == Final(old(debouncer.lastDirection), Events(lines))
      ensures supervisor.trace ==
        old(supervisor.trace) + RunActions(videos, old(debouncer.lastDirection), Events(lines), tables)
    {
      var i := 0;
      while i < |lines|
        invariant 0 <= i <= |lines|
        invariant debouncer.lastDirection == Final(old(debouncer.lastDirection), Events(lines[..i]))
        invariant supervisor.trace ==
          old(supervisor.trace) + RunActions(videos, old(debouncer.lastDirection), Events(lines[..i]), tables[..i])
      {
        var es := Events(lines[..i + 1]);
        assert es[..i] == Events(lines[..i]) && es[i] == Parse(lines[i]);
        assert tables[..i + 1][..i] == tables[..i];
        HandleLine(lines[i], tables[i]);
        i := i + 1;
      }
      assert lines[..i] == lines && tables[..i] == tables;
    }
  }

  lemma {:induction false} LaunchedAppend(a: seq<Action>, b: seq<Action>)
    ensures Launched(a + b) == Launched(a) + Launched(b)
  {
    if b != [] {
      var n := |b| - 1;
      assert (a + b)[..|a + b| - 1] == a + b[..n];
      assert (a + b)[|a + b| - 1] == b[n];
      LaunchedAppend(a, b[..n]);
      var tail := if b[n].Launch? then [b[n].path] else [];
      calc {
        Launched(a + b);
        Launched(a + b[..n]) + tail;
        Launched(a) + Launched(b[..n]) + tail;
        Launched(a) + (Launched(b[..n]) + tail);
        Launched(a) + Launched(b);
      }
    } else {
      assert a + b == a;
    }
  }

  lemma {:induction false} LaunchedKills(procs: seq<Proc>)
    ensures Launched(Kills(procs)) == []
  {
    if procs != [] {
      var n := |procs| - 1;
      assert Kills(procs)[..n] == Kills(procs[..n]);
      LaunchedKills(procs[..n]);
    }
  }

  /** A switch launches the resolved clip once, or nothing for a rejected index. */
  lemma LaunchedSwitch(videos: seq<string>, table: seq<Proc>, n: int)
    ensures Launched(SwitchActions(videos, table, n)) ==
      if ValidIndex(videos, n) then [PyIndex(videos, n)] else []
  {
    if ValidIndex(videos, n) {
      var players := FilterByName(table, PlayerBinary);
      var head := [Snapshot(players), Launch(PyIndex(videos, n), PlayerLayer)];
      LaunchedAppend(head, Kills(players));
      LaunchedKills(players);
      assert head[..1] == [Snapshot(players)] && head[..1][..0] == [];
      assert Launched(head[..1]) == [];
      assert Launched(head) == [PyIndex(videos, n)];
    }
  }

  /** Over any stream, the clips launched are exactly those selected by the
      acted-upon events (a touch selects its channel, a release the idle clip),
      in order, leaving out the ones whose index the catalog rejects. */
  lemma {:induction false} LaunchesFollowActedEvents(videos: seq<string>, last: int, es: seq<Event>, tables: seq<seq<Proc>>)
    requires |es| == |tables|
    ensures Launched(RunActions(videos, last, es, tables)) == Clips(videos, Acted(last, es))
  {
    if es != [] {
      var n := |es| - 1;
      var prev, e := es[..n], es[n];
      LaunchesFollowActedEvents(videos, last, prev, tables[..n]);
      var step := StepActions(videos, Final(last, prev), e, tables[n]);
      LaunchedAppend(RunActions(videos, last, prev, tables[..n]), step);
      var a0 := Acted(last, prev);
      if Acts(Final(last, prev), e) {
        LaunchedSwitch(videos, tables[n], Target(e));
        assert Acted(last, es) == a0 + [e];
        assert (a0 + [e])[..|a0|] == a0;
      } else {
        assert Launched(step) == [];
        assert Acted(last, es) == a0;
      }
    }
  }

  /** A release on any channel plays the idle (last) clip and a touch on
      channel `c` plays clip `c`, when the event is acted upon; an event that
      is not acted upon does nothing. */
  lemma StepPlays(videos: seq<string>, last: int, e: Event, table: seq<Proc>)
    ensures !Acts(last, e) ==> StepActions(videos, last, e, table) == []
    ensures Acts(last, e) && e.Release? && |videos| > 0 ==>
      StepActions(videos, last, e, table)[1] == Launch(videos[|videos| - 1], PlayerLayer)
    ensures Acts(last, e) && e.Engage? && e.channel < |videos| ==>
      StepActions(videos, last, e, table)[1] == Launch(videos[e.channel], PlayerLayer)
  {
  }

  /** A touch on a channel without a clip changes nothing on screen, yet it
      still sets the debounce state, so a following touch on any channel is
      suppressed. */
  lemma RejectedTouchStillDebounces(videos: seq<string>, last: int, c: Digit, table: seq<Proc>)
    requires last != 1 && c >= |videos|
    ensures StepActions(videos, last, Engage(c), table) == []
    ensures Next(last, Engage(c)) == 1
    ensures forall c2: Digit, t: seq<Proc> :: StepActions(videos, 1, Engage(c2), t) == []
  {
  }

  /** With three clips, `+5` then `+0` does nothing at all. */
  lemma RejectedTouchExample(t1: seq<Proc>, t2: seq<Proc>)
    ensures RunActions(["0-a.mp4", "1-b.mp4", "9-idle.mp4"], 0, [Engage(5), Engage(0)], [t1, t2]) == []
    ensures Final(0, [Engage(5), Engage(0)]) == 1
  {
    var videos := ["0-a.mp4", "1-b.mp4", "9-idle.mp4"];
    var es, ts := [Engage(5), Engage(0)], [t1, t2];
    assert es[..1] == [Engage(5)] && es[..1][..0] == [];
    assert ts[..1] == [t1] && ts[..1][..0] == [];
    assert Final(0, es[..1]) == 1;
    assert RunActions(videos, 0, es[..1], ts[..1]) == [];
    assert StepActions(videos, 1, Engage(0), t2) == [];
  }
}
