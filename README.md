# Touch-to-video controller, modelled in Dafny

The controller watches a microcontroller on a serial port. The microcontroller sends
`+n` when channel `n` is touched and `-n` when it is released. For each touch the
controller plays clip `n` from a sorted catalog of clips. On a release it returns to
the idle clip, which is the last one in the catalog. This project models the
controller's decision logic and proves properties of it:

- `text.dfy` (module `Text`): substring search and ASCII case folding. These stand in
  for the regular expressions the controller uses, which are all literals or
  alternations of literals.
- `protocol.dfy` (module `Protocol`): the line parser `touch_message`, as a function
  from a line to `Engage(n) | Release(n) | NoEvent`.
- `debounce.dfy` (module `Debounce`): the single global `last_direction`. It is a
  `Debouncer` class with a `Step` method, plus pure folds (`Final`, `Acted`) over
  event streams.
- `playback.dfy` (module `Playback`):
  - index validation and idle resolution for `start_video`;
  - `get_procs` and `kill_procs` as loops;
  - the switch itself, as a `Supervisor` class that appends `Snapshot`, `Launch`
    and `Kill` actions to a trace.
- `device.dfy` (module `Device`): the port matcher `arduino_port_name` and the
  greeting test `arduino_hello`, as loops with early return.
- `controller.dfy` (module `Controller`): `main`. This covers the start-up checks
  (`Boot`) and the main loop (`TouchPlayer`). The loop runs over a finite sequence of
  lines, and each line comes with the process table that its switch would see.

The header comment of touch_player.py (lines 6-7) describes messages as `0+`, `1-`,
digit first. The parser (lines 64 and 77) expects the sign first, `+0`, `-1`. The model
follows the code, and `Protocol.ParseExamples` shows that `"3+"` is not an event.

The serial port, the clock, the process table and the shell are not modelled. They
become inputs: a line, a sequence of lines, a sequence of port records, and a process
table given as `seq<Proc>`. Their effects become actions in a trace.

## Model

| member | source | states |
|---|---|---|
| `Text.Contains` | touch_player.py:52 | the search succeeds iff the pattern occurs at some position of the line (a literal `re.search`) |
| `Text.ContainsAcrossSeparator` | touch_player.py:38-40 | a pattern without the separator occurs in `a + sep + b` iff it occurs in `a` or in `b` |
| `Protocol.Event.Direction` | touch_player.py:67-68 | the direction is 1 for a touch, -1 for a release, 0 exactly for "no message" |
| `Protocol.Event.Channel` | touch_player.py:75-84 | the channel is present iff there is a message, and it is the event's own digit 0-9 |
| `Protocol.Parse` | touch_player.py:74-84 | a line gives an event iff it starts with `+` or `-` followed by an ASCII digit, and the event's two-character form is exactly that prefix |
| `Protocol.ParseFormat` | touch_player.py:77-84 | parsing `+d`/`-d` followed by anything gives back Engage(d)/Release(d) (round trip with `Format`), so the pair is `(1, d)` or `(-1, d)` |
| `Protocol.ParseIgnoresTail` | touch_player.py:77 | only the first two characters decide the event; anything after them is ignored |
| `Protocol.ParseRejects` | touch_player.py:74-79 | an empty line, or one not starting with a sign and a digit, gives `(0, None)` |
| `Protocol.ParseExamples` | touch_player.py:74-84 | `"+3 noise"` gives Engage(3), `"-0"` gives Release(0), and `"garbage"`, `""` and `"3+"` give no event |
| `Debounce.Debouncer.constructor` | touch_player.py:140 | the direction state starts at 0 |
| `Debounce.Debouncer.Step` | touch_player.py:148-153 | the event is acted on iff its direction is non-zero and differs from the state; acting stores its direction, and otherwise the state is unchanged |
| `Debounce.Acts` | touch_player.py:148 | an event is acted on iff it is a touch and the state is not 1, or a release and the state is not -1 |
| `Debounce.Next` | touch_player.py:148-153 | the new state is the event's direction whenever it has one, acted on or not, and the old state for no message |
| `Debounce.FinalIsLastReal` | touch_player.py:140-153 | the state after a stream is the direction of its last real event, or the starting state if there is none |
| `Debounce.ActsIffDiffersFromLastReal` | touch_player.py:145-148 | event k of a stream is acted on iff it has a direction that differs from the last earlier real event's (or from the starting state): a repeat is ignored and a change is acted on |
| `Debounce.ActedAlternates` | touch_player.py:145-153 | in the acted-upon stream no event is a non-event, the first differs from the initial state, consecutive events have opposite directions, and the final state is the last acted direction |
| `Debounce.ActedFromInput` | touch_player.py:141-153 | every acted-upon event is one of the input events |
| `Debounce.SameDirectionActsOnce` | touch_player.py:145-148 | the state is global: in a run of touches on any channels (or of releases), at most one is acted upon |
| `Debounce.FinalInRange` | touch_player.py:140-153 | the state only ever holds -1, 0 or 1 |
| `Debounce.DebounceSuppressesSecondTouch` | touch_player.py:145-147 | for `+0, +1, -0`, exactly the first and third events are acted upon |
| `Debounce.DebounceAlternatingAllAct` | touch_player.py:148 | for `+0, -2, +0`, all three events are acted upon |
| `Playback.Resolve` | touch_player.py:101-105 | an index is accepted iff the catalog is non-empty and -1 <= n < its length, and the accepted clip is the catalog element Python's `videos[n]` denotes |
| `Playback.ValidIndex` | touch_player.py:101 | every index the guard accepts is one Python can use to index the catalog |
| `Playback.ResolveIdleAndChannel` | touch_player.py:105 | index -1 gives the last clip of any non-empty catalog, and an in-range n >= 0 gives clip n |
| `Playback.ResolveRejectsOtherNegatives` | touch_player.py:101 | indexes below -1 are rejected, although Python could index with them |
| `Playback.ResolveExamples` | touch_player.py:101-111 | idle gives `9-idle.mp4` in a two-clip catalog, index 5 is rejected with three clips, and an empty catalog rejects everything |
| `Playback.FilterByName` | touch_player.py:86-91 | a process is kept iff it is in the table and has the given name, and the result is no longer than the table |
| `Playback.GetProcs` | touch_player.py:86-91 | the table scan returns exactly the same-named processes, in table order |
| `Playback.Supervisor.KillProcs` | touch_player.py:93-95 | one kill per given process is appended, in order |
| `Playback.Supervisor.StartVideo` | touch_player.py:97-111 | the trace grows by exactly the switch actions for that index and table |
| `Playback.SwitchRejected` | touch_player.py:101-111 | a switch does nothing at all (no snapshot, launch or kill) iff the index is rejected |
| `Playback.SwitchOrder` | touch_player.py:101-109 | an accepted switch is the snapshot of the running players, then the launch of the resolved clip on layer 1, then one kill per captured player and for nothing else; no kill comes before the launch |
| `Device.FirstMatching` | touch_player.py:32-43 | for any port test, the result is None iff no port passes it, and otherwise the device of the first port that passes |
| `Device.FirstSelected` | touch_player.py:32-43 | the result is None iff no port is selected, and otherwise the device of the first selected port |
| `Device.Present` | touch_player.py:38 | a present, non-empty field contributes exactly its own text as one part; a missing or empty field contributes nothing |
| `Device.JoinSpace` | touch_player.py:38 | joining no parts gives the empty string, one part gives that part, two parts give `a + " " + b`, and every part occurs in the result |
| `Device.Descriptor` | touch_player.py:38 | the descriptor is `manufacturer + " " + product` when both are non-empty, the non-empty one alone when only one is, and empty otherwise |
| `Device.NamesVendor` | touch_player.py:40 | a text names a vendor iff, folded to lower case, it contains `arduino`, `genuino` or `lilypad` at some position (so a text shorter than seven characters never does) |
| `Device.NamesVendorIgnoresCase` | touch_player.py:40 | naming a vendor does not depend on the text's letter case |
| `Device.Selected` | touch_player.py:38-40 | under DEBUGUSEPORT every port is taken; otherwise a port is taken iff its manufacturer or its product field names a vendor |
| `Device.ArduinoPortName` | touch_player.py:29-43 | the listing loop with early return gives the first selected port's device, or None |
| `Device.NamesVendorAcrossJoin` | touch_player.py:38-40 | joining two fields with a space neither creates nor hides a vendor name |
| `Device.DescriptorMatchesAField` | touch_player.py:38-40 | a port's descriptor names Arduino, Genuino or Lilypad (ignoring case) iff its manufacturer or its product field does |
| `Device.MatchExamples` | touch_player.py:38-42 | a port made by `Arduino (www.arduino.cc)` is selected; a port with no fields is selected only under the DEBUGUSEPORT override |
| `Device.ArduinoHello` | touch_player.py:45-60 | the result is true iff some line contains `start`; the lines read stop at the first such line, and all of them are read on failure |
| `Device.SawHello` | touch_player.py:48-52 | the greeting is seen iff `start` occurs at some position of some line |
| `Controller.Boot` | touch_player.py:117-136 | an empty catalog exits with 1; no selected port, or an empty port name, means waiting for the device; a missing greeting exits with 1 unless DEBUGUSEPORT is set; otherwise the controller runs on the first selected port |
| `Controller.TouchPlayer.constructor` | touch_player.py:138-140 | entering the loop plays the idle clip and starts with state 0 |
| `Controller.TouchPlayer.HandleLine` | touch_player.py:141-153 | one iteration updates the state as the debounce rule says and appends the switch for the acted-upon event's target (touch: the channel, release: -1), or nothing |
| `Controller.TouchPlayer.Run` | touch_player.py:141-153 | after a sequence of lines the state is the fold of the debounce rule, and the trace is the fold of the per-line actions |
| `Controller.LaunchedSwitch` | touch_player.py:101-109 | a switch launches exactly one clip, the resolved one, for an accepted index, and none otherwise |
| `Controller.LaunchesFollowActedEvents` | touch_player.py:141-153 | over any stream, the clips launched are exactly those selected by the acted-upon events, in order, leaving out rejected indexes |
| `Controller.StepPlays` | touch_player.py:148-152 | an acted-upon release on any channel launches the last clip, an acted-upon touch on channel c launches clip c, and an event that is not acted upon does nothing |
| `Controller.Target` | touch_player.py:149-152 | the target is -1 exactly for a release, the channel for a touch, and always within -1..9 |
| `Controller.RejectedTouchStillDebounces` | touch_player.py:101-153 | a touch on a channel with no clip does nothing on screen but still sets the state to 1, so every following touch is suppressed |
| `Controller.RejectedTouchExample` | touch_player.py:101-153 | with three clips, `+5` then `+0` produces no action at all and leaves the state at 1 |

## Left out

- Serial I/O is not modelled: opening the port at 115200 baud and `readline().decode('ascii')`. The parser takes the decoded line, and the handshake takes the lines that arrive within its budget.
- Wall-clock timing is not modelled: the 5-second greeting budget and the 0.1-second retry sleep. `Boot` models one scan of the ports, and its `AwaitDevice` result is where the endless retry loop would go on.
- The endless `while True` loop is modelled over a finite sequence of lines.
- The process table is not modelled (`psutil.process_iter`, `p.kill()`). It is an input, and processes are killed only as trace actions.
- Launches started by the controller do not show up in later tables unless the caller lists them, because external process lifetimes are not modelled.
- Spawning the player is modelled as `Launch(path, 1)`: the shell command string, its quoting and the output redirection are not modelled.
- Collecting the catalog with `glob` and `sorted` is not modelled. The catalog is a given sequence.
- The `DEBUG` diagnostics and all printing are not modelled.
- The interactive `input()` source under DEBUGUSEPORT is not modelled. DEBUGUSEPORT is a boolean parameter of the port matcher and of `Boot`.
- The `vid` test in `arduino_port_name` does nothing in the source (its branch is `pass`), so the model leaves it out.
- Protocol.Parse: accepts only ASCII digits. Python's `\d` also matches other Unicode decimal digits, but those can only come through the interactive debug source.
- Device.NamesVendor: ignores case for ASCII letters only. Python's `re.IGNORECASE` also folds a few non-ASCII letters, such as the dotless `ı`, onto `i`.
- Exceptions that end `main` are not modelled:
  - a decode error on a non-ASCII serial byte (lines 51 and 71);
  - `psutil.NoSuchProcess`, when a listed or captured player exits before `p.name()` or `p.kill()` reaches it (lines 89 and 95); a player started without `--loop` exits at the end of its clip, so this can happen;
  - `psutil.AccessDenied`, for a player that belongs to another user (lines 89 and 95);
  - a failure to start the shell itself (line 107).
  - `serial.SerialException`, when the port cannot be opened (busy, no permission; line 132) or the device is unplugged while lines are read (lines 51 and 71).
  In the model every name read and every kill succeeds.
- A player that cannot start (missing binary, unreadable clip) makes the shell started by `Popen(..., shell=True)` fail quietly, with its output sent to the null device; the loop goes on. The model records the `Launch` all the same, as the source does not check it.
