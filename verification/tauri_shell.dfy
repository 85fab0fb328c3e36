/** `src-tauri/src/state.rs` and `src-tauri/src/main.rs`: the desktop
    shell's slot for the backend process. Setup may install the process
    started by the sidecar launcher, and the exit events take it out of
    the slot and kill it. Launching, killing and logging are I/O: their
    results are parameters and the log is the list of lines written. */
module TauriShell {
  import opened Wrappers
  import opened JsString

  /** A handle on a child process. */
  datatype Child = Child(pid: nat)

  /** A TCP port, `u16` in the source. */
  type Port = p: nat | p < 65536

  /** `spawn_next_sidecar`: an error, no process, or a process and the port
      it listens on. */
  datatype Spawn = SpawnFailed | NoSidecar | Spawned(child: Child, port: Port)

  datatype LogLine = AppStart | KillFailed(message: string) | AppExit

  /** The managed `AppState` together with what the shell did. */
  datatype Shell = Shell(slot: Option<Child>, kills: seq<Child>, log: seq<LogLine>, navigatedTo: Option<string>)

  /** `AppState::default()`: the slot starts empty. */
  const Initial := Shell(None, [], [], None)

  /** The address the window is sent to. */
  function LocalUrl(port: Port): (r: string)
    ensures StartsWith(r, "http://127.0.0.1:")
  {
    "http://127.0.0.1:" + NatToString(port)
  }

  /** The `setup` closure. `release` is `not(debug_assertions)` and
      `hasWindow` whether the `main` window exists. */
  function Setup(release: bool, spawn: Spawn, hasWindow: bool): (s: Shell)
    ensures s.log == [AppStart] && s.kills == []
    ensures s.slot.Some? <==> release && spawn.Spawned?
    ensures s.slot.Some? ==> s.slot.value == spawn.child
    ensures s.navigatedTo.Some? <==> release && spawn.Spawned? && hasWindow
    ensures s.navigatedTo.Some? ==> s.navigatedTo.value == LocalUrl(spawn.port)
  {
    var started := Initial.(log := [AppStart]);
    if release && spawn.Spawned? then
      started.(slot := Some(spawn.child), navigatedTo := if hasWindow then Some(LocalUrl(spawn.port)) else None)
    else started
  }

  /** The run events the handler distinguishes. */
  datatype Event = ExitRequested | Exit | OtherEvent

  predicate IsExit(e: Event) {
    e == ExitRequested || e == Exit
  }

  /** The prefix of the kill-failure line. */
  const KillFailedPrefix := "Failed to kill sidecar process: "

  /** The run-event closure; `killError` is the error `kill` returns, if
      it is called and fails. */
  function OnEvent(s: Shell, e: Event, killError: Option<string>): (r: Shell)
    ensures !IsExit(e) ==> r == s
    ensures IsExit(e) ==> r.slot.None? && r.navigatedTo == s.navigatedTo
    ensures IsExit(e) && s.slot.Some? ==> r.kills == s.kills + [s.slot.value]
    ensures IsExit(e) && s.slot.None? ==> r.kills == s.kills
    ensures IsExit(e) && s.slot.Some? && killError.Some? ==> r.log == s.log + [KillFailed(KillFailedPrefix + killError.value), AppExit]
    ensures IsExit(e) && !(s.slot.Some? && killError.Some?) ==> r.log == s.log + [AppExit]
  {
    if !IsExit(e) then s
    else
      match s.slot
      case None => s.(log := s.log + [AppExit])
      case Some(child) =>
        var failed := if killError.Some? then [KillFailed(KillFailedPrefix + killError.value)] else [];
        s.(slot := None, kills := s.kills + [child], log := s.log + failed + [AppExit])
  }

  /** The events the app receives, each with the result `kill` would have. */
  function Run(s: Shell, events: seq<(Event, Option<string>)>): Shell
    decreases |events|
  {
    if |events| == 0 then s else Run(OnEvent(s, events[0].0, events[0].1), events[1..])
  }

  predicate HasExit(events: seq<(Event, Option<string>)>) {
    exists i :: 0 <= i < |events| && IsExit(events[i].0)
  }

  /** The number of exit events. */
  function ExitCount(events: seq<(Event, Option<string>)>): nat
    decreases |events|
  {
    if |events| == 0 then 0 else (if IsExit(events[0].0) then 1 else 0) + ExitCount(events[1..])
  }

  function CountExitLines(log: seq<LogLine>): nat {
    if |log| == 0 then 0 else (if log[0] == AppExit then 1 else 0) + CountExitLines(log[1..])
  }

  lemma {:induction false} CountExitLinesAppend(a: seq<LogLine>, b: seq<LogLine>)
    ensures CountExitLines(a + b) == CountExitLines(a) + CountExitLines(b)
    decreases |a|
  {
    if |a| == 0 {
      assert a + b == b;
    } else {
      assert (a + b)[0] == a[0] && (a + b)[1..] == a[1..] + b;
      CountExitLinesAppend(a[1..], b);
    }
  }

  /** The slot is taken by the first exit event: the process held then is
      killed once, and never again whatever events follow. */
  lemma {:induction false} KillsAtMostOnce(s: Shell, events: seq<(Event, Option<string>)>)
    ensures Run(s, events).kills == s.kills + (if s.slot.Some? && HasExit(events) then [s.slot.value] else [])
    ensures HasExit(events) ==> Run(s, events).slot.None?
    ensures !HasExit(events) ==> Run(s, events) == s
    decreases |events|
  {
    if |events| > 0 {
      var next := OnEvent(s, events[0].0, events[0].1);
      KillsAtMostOnce(next, events[1..]);
      if IsExit(events[0].0) {
        assert HasExit(events);
      } else {
        assert HasExit(events) <==> HasExit(events[1..]) by {
          if HasExit(events) {
            var i :| 0 <= i < |events| && IsExit(events[i].0);
            assert events[1..][i - 1] == events[i];
          }
          if HasExit(events[1..]) {
            var i :| 0 <= i < |events[1..]| && IsExit(events[1..][i].0);
            assert events[i + 1] == events[1..][i];
          }
        }
      }
    }
  }

  /** The exit line is written once per exit event, killed or not. */
  lemma {:induction false} ExitLogged(s: Shell, events: seq<(Event, Option<string>)>)
    ensures CountExitLines(Run(s, events).log) == CountExitLines(s.log) + ExitCount(events)
    decreases |events|
  {
    if |events| > 0 {
      var next := OnEvent(s, events[0].0, events[0].1);
      ExitLogged(next, events[1..]);
      if IsExit(events[0].0) {
        var failed := if s.slot.Some? && events[0].1.Some? then [KillFailed(KillFailedPrefix + events[0].1.value)] else [];
        assert next.log == s.log + (failed + [AppExit]);
        CountExitLinesAppend(s.log, failed + [AppExit]);
        CountExitLinesAppend(failed, [AppExit]);
      }
    }
  }

  /** After setup, the shell kills the process it launched, once, when
      the first exit event arrives, and kills nothing in a debug build. */
  lemma LaunchedKilledOnce(release: bool, spawn: Spawn, hasWindow: bool, events: seq<(Event, Option<string>)>)
    ensures Run(Setup(release, spawn, hasWindow), events).kills
            == if release && spawn.Spawned? && HasExit(events) then [spawn.child] else []
  {
    KillsAtMostOnce(Setup(release, spawn, hasWindow), events);
  }
}
