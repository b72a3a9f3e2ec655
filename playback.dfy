/** Playback switching: index validation, resolution of the idle index, and
    the start-before-kill protocol of `start_video`, with the process table
    given as an input and every effect recorded in an action trace.
    (touch_player.py, `get_procs`, `kill_procs`, `start_video`) */
module Playback {
  import opened Text

  /** The name under which running players appear in the process table. */
  const PlayerBinary := "omxplayer.bin"
  /** The fixed `--layer` argument given to every new player. */
  const PlayerLayer := 1

  /** A process as the process table reports it. */
  datatype Proc = Proc(pid: nat, name: string)

  /** What the controller does to the outside world. */
  datatype Action =
    | Snapshot(players: seq<Proc>)        // the running players captured before a launch
    | Launch(path: string, layer: int)    // a new player started on a clip
    | Kill(proc: Proc)                    // a previously captured player killed

  /** The guard of `start_video`. Every index it accepts can index the catalog in Python. */
  predicate ValidIndex(videos: seq<string>, n: int)
    ensures ValidIndex(videos, n) ==> -|videos| <= n < |videos|
  {
    |videos| > 0 && -1 <= n < |videos|
  }

  /** Python's `s[n]`, where a negative `n` counts from the end. */
  function PyIndex<T>(s: seq<T>, n: int): T
    requires -|s| <= n < |s|
  {
    if n < 0 then s[|s| + n] else s[n]
  }

  /** The clip `start_video` plays for index `n`, made explicit: -1 is the
      last clip (idle), any other accepted index is that clip; every other
      index is rejected. */
  function Resolve(videos: seq<string>, n: int): (r: Option<string>)
    ensures r.Some? <==> ValidIndex(videos, n)
    ensures r.Some? ==> r.value == PyIndex(videos, n) && r.value in videos
  {
    if !ValidIndex(videos, n) then None
    else if n == -1 then Some(videos[|videos| - 1])
    else Some(videos[n])
  }

  /** The processes of `table` called `name`, in table order. */
  function FilterByName(table: seq<Proc>, name: string): (r: seq<Proc>)
    ensures forall p :: p in r <==> p in table && p.name == name
    ensures |r| <= |table|
  {
    if table == [] then []
    else
      var last := table[|table| - 1];
      FilterByName(table[..|table| - 1], name) + (if last.name == name then [last] else [])
  }

  /** One kill per process, in order. */
  function Kills(procs: seq<Proc>): seq<Action>
  {
    seq(|procs|, i requires 0 <= i < |procs| => Kill(procs[i]))
  }

  /** The actions of `start_video(videos, n)` when the table lists `table`. */
  function SwitchActions(videos: seq<string>, table: seq<Proc>, n: int): seq<Action>
  {
    match Resolve(videos, n)
    case None => []
    case Some(path) =>
      var players := FilterByName(table, PlayerBinary);
      [Snapshot(players), Launch(path, PlayerLayer)] + Kills(players)
  }

  /** `get_procs`: scan the process table and keep the processes with the given name. */
  method GetProcs(table: seq<Proc>, binaryName: string) returns (procs: seq<Proc>)
    ensures procs == FilterByName(table, binaryName)
  {
    procs := [];
    var i := 0;
    while i < |table|
      invariant 0 <= i <= |table|
      invariant procs == FilterByName(table[..i], binaryName)
    {
      assert table[..i + 1][..i] == table[..i];
      if table[i].name == binaryName {
        procs := procs + [table[i]];
      }
      i := i + 1;
    }
    assert table[..i] == table;
  }

  /** The controller's effects on the process table, as a trace. */
  class Supervisor {
    var trace: seq<Action>

    constructor ()
      ensures trace == []
    {
      trace := [];
    }

    /** `kill_procs`: kill each given process in turn. */
    method KillProcs(procs: seq<Proc>)
      modifies this
      ensures trace == old(trace) + Kills(procs)
    {
      var i := 0;
      while i < |procs|
        invariant 0 <= i <= |procs|
        invariant trace == old(trace) + Kills(procs[..i])
      {
        assert Kills(procs[..i + 1]) == Kills(procs[..i]) + [Kill(procs[i])];
        trace := trace + [Kill(procs[i])];
        i := i + 1;
      }
      assert procs[..i] == procs;
    }

    /** `start_video`: for an accepted index, capture the running players, start
        the new one, then kill the captured ones; otherwise do nothing. */
    method StartVideo(videos: seq<string>, n: int, table: seq<Proc>)
      modifies this
      ensures trace == old(trace) + SwitchActions(videos, table, n)
    {
      if |videos| > 0 && n >= -1 && n < |videos| {
        var oldPlayers := GetProcs(table, PlayerBinary);
        trace := trace + [Snapshot(oldPlayers)];
        var path := PyIndex(videos, n);
        trace := trace + [Launch(path, PlayerLayer)];
        KillProcs(oldPlayers);
        assert Resolve(videos, n) == Some(path);
        assert trace == old(trace) + ([Snapshot(oldPlayers), Launch(path, PlayerLayer)] + Kills(oldPlayers));
      } else {
        assert Resolve(videos, n) == None;
      }
    }
  }

  /** An index outside the catalog changes nothing: no snapshot, launch or kill. */
  lemma SwitchRejected(videos: seq<string>, table: seq<Proc>, n: int)
    ensures SwitchActions(videos, table, n) == [] <==> !ValidIndex(videos, n)
  {
  }

  /** A switch for an accepted index is exactly: the snapshot of the running
      players, then the launch of the resolved clip, then one kill for each
      captured player and for nothing else, in snapshot order. */
  lemma SwitchOrder(videos: seq<string>, table: seq<Proc>, n: int)
    requires ValidIndex(videos, n)
    ensures var acts, players := SwitchActions(videos, table, n), FilterByName(table, PlayerBinary);
      && |acts| == |players| + 2
      && acts[0] == Snapshot(players)
      && acts[1] == Launch(PyIndex(videos, n), PlayerLayer)
      && (forall k :: 2 <= k < |acts| ==> acts[k] == Kill(players[k - 2]))
      && (forall k :: 0 <= k < |acts| && acts[k].Kill? ==> 1 < k)
      && (forall p :: p in players <==> p in table && p.name == PlayerBinary)
  {
  }

  /** Index -1 plays the last clip of any non-empty catalog, and an accepted
      non-negative index plays the clip at that position. */
  lemma ResolveIdleAndChannel(videos: seq<string>, n: int)
    requires |videos| > 0
    ensures Resolve(videos, -1) == Some(videos[|videos| - 1])
    ensures 0 <= n < |videos| ==> Resolve(videos, n) == Some(videos[n])
  {
  }

  /** The guard is stricter than Python indexing: indexes -2 and below would
      index the catalog but are rejected. */
  lemma ResolveRejectsOtherNegatives(videos: seq<string>, n: int)
    requires n < -1
    ensures Resolve(videos, n) == None
  {
  }

  lemma ResolveExamples()
    ensures Resolve(["movies/0-a.mp4", "movies/9-idle.mp4"], -1) == Some("movies/9-idle.mp4")
    ensures Resolve(["movies/0-a.mp4", "movies/1-b.mp4", "movies/9-idle.mp4"], 5) == None
    ensures Resolve([], -1) == None
    ensures forall n :: Resolve([], n) == None
  {
  }
}
