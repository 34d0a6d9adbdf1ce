/** Live preferences: the daemon saves, sends each configuration to the worker
    over a FIFO channel and applies what the worker acknowledges. */
module Preferences {
  import opened Base

  /** The settings; the control representation carries the same eight fields. */
  datatype Config = Config(
    consentSecs: nat,
    deviceName: Option<string>,
    discoverable: bool,
    discoverySecs: nat,
    pinnedPeer: Option<string>,
    readClipboard: bool,
    receiveDirectory: string,
    transferSecs: nat)

  datatype Problem = NotLoaded | NotSaved | Unavailable

  datatype Status = Status(saved: Option<Config>, applied: Option<Config>, pending: bool, error: Option<Problem>)

  datatype Ack = Ack(config: Config, failed: bool)

  datatype System = System(
    status: Status,
    commands: seq<Config>,
    events: seq<Ack>,
    current: Config,
    stopped: bool)

  datatype Step =
    | Reload(loaded: Option<Config>)
    | Patch(patched: Config)
    | PatchFailed(reread: Option<Config>)
    | Work(fails: bool)
    | Acknowledge
    | Stop

  /** `configure_preferences`: a stopped worker refuses the command. */
  function Configure(s: System, config: Config): System {
    if s.stopped
    then s.(status := s.status.(saved := Some(config), pending := false, error := Some(Unavailable)))
    else s.(status := s.status.(saved := Some(config), pending := true, error := None), commands := s.commands + [config])
  }

  /** `configure_preferences` with no worker to ask: the configuration takes effect,
      or fails to, at once. */
  function ConfigureAlone(s: System, config: Config, fails: bool): System {
    s.(status := Confirm(s.status.(saved := Some(config), error := None), Ack(config, fails)))
  }

  function ConfigureIfChanged(s: System, config: Config): System {
    if s.status.saved == Some(config) then s else Configure(s, config)
  }

  /** `preferences_configured`. */
  function Confirm(p: Status, ack: Ack): Status {
    var current := p.saved == Some(ack.config);
    if ack.failed then
      if current then p.(pending := false, error := Some(Unavailable)) else p
    else
      var p1 := p.(applied := Some(ack.config));
      if current then p1.(pending := false, error := None) else p1
  }

  function Next(s: System, step: Step): System {
    match step
    case Reload(loaded) =>
      if loaded.Some? then ConfigureIfChanged(s, loaded.value)
      else s.(status := s.status.(saved := None, pending := false, error := Some(NotLoaded)))
    case Patch(patched) => Configure(s, patched)
    case PatchFailed(reread) =>
      var s1 := if reread.Some? then ConfigureIfChanged(s, reread.value)
                else s.(status := s.status.(saved := None, pending := false));
      s1.(status := s1.status.(error := Some(NotSaved)))
    case Work(fails) =>
      if s.stopped || s.commands == [] then s
      else s.(commands := s.commands[1..], events := s.events + [Ack(s.commands[0], fails)],
              current := if fails then s.current else s.commands[0])
    case Acknowledge =>
      if s.events == [] then s
      else s.(status := Confirm(s.status, s.events[0]), events := s.events[1..])
    case Stop => s.(stopped := true, commands := [])
  }

  function Exec(s: System, steps: seq<Step>): System
    decreases |steps|
  {
    if steps == [] then s else Exec(Next(s, steps[0]), steps[1..])
  }

  /** `install_config` beside a worker started with the same configuration. */
  function Installed(config: Config): System {
    System(Status(Some(config), Some(config), false, None), [], [], config, false)
  }

  /** What the daemon will have applied once it has read every acknowledgement. */
  function Foreseen(applied: Option<Config>, events: seq<Ack>): Option<Config>
    decreases |events|
  {
    if events == [] then applied
    else Foreseen(if events[0].failed then applied else Some(events[0].config), events[1..])
  }

  lemma {:induction false} ForeseenAppends(applied: Option<Config>, events: seq<Ack>, ack: Ack)
    ensures Foreseen(applied, events + [ack]) == if ack.failed then Foreseen(applied, events) else Some(ack.config)
    decreases |events|
  {
    if events == [] {
      assert events + [ack] == [ack] && [ack][1..] == [];
    } else {
      assert (events + [ack])[1..] == events[1..] + [ack];
      ForeseenAppends(if events[0].failed then applied else Some(events[0].config), events[1..], ack);
    }
  }

  ghost predicate InFlight(s: System, config: Config) {
    config in s.commands || exists i :: 0 <= i < |s.events| && s.events[i].config == config
  }

  /** The configuration the daemon heard of last: the newest in flight, else the applied one. */
  function Newest(s: System): Option<Config> {
    if s.commands != [] then Some(s.commands[|s.commands| - 1])
    else if s.events != [] then Some(s.events[|s.events| - 1].config)
    else s.status.applied
  }

  /** Acknowledgements account for the worker's configuration; a pending save is
      in flight; and, unless an error says otherwise, the newest configuration
      heard of is the saved one. */
  ghost predicate Inv(s: System) {
    && Foreseen(s.status.applied, s.events) == Some(s.current)
    && (!s.stopped && s.status.pending ==> s.status.saved.Some? && InFlight(s, s.status.saved.value))
    && (!s.stopped && s.status.saved.Some? && (s.commands != [] || s.events != [] || s.status.error.None?) ==>
          Newest(s) == s.status.saved)
  }

  lemma ConfigureKeepsInv(s: System, config: Config)
    requires Inv(s)
    ensures Inv(Configure(s, config))
  {
    if !s.stopped {
      assert (s.commands + [config])[|s.commands|] == config;
    }
  }

  lemma WorkKeepsInv(s: System, fails: bool)
    requires Inv(s)
    ensures Inv(Next(s, Work(fails)))
  {
    if !s.stopped && s.commands != [] {
      var ack := Ack(s.commands[0], fails);
      var s' := Next(s, Work(fails));
      ForeseenAppends(s.status.applied, s.events, ack);
      assert s'.events[|s.events|] == ack;
      if s.status.pending {
        var saved := s.status.saved.value;
        if saved in s.commands && saved != s.commands[0] {
          assert saved in s.commands[1..];
        }
      }
    }
  }

  lemma AcknowledgeKeepsInv(s: System)
    requires Inv(s)
    ensures Inv(Next(s, Acknowledge))
  {
    if s.events != [] {
      var s' := Next(s, Acknowledge);
      if !s.stopped && s'.status.pending {
        var saved := s.status.saved.value;
        if saved !in s.commands {
          var i :| 0 <= i < |s.events| && s.events[i].config == saved;
          assert s'.events[i - 1].config == saved;
        }
      }
    }
  }

  lemma StepKeepsInv(s: System, step: Step)
    requires Inv(s)
    ensures Inv(Next(s, step))
  {
    match step
    case Reload(loaded) =>
      if loaded.Some? {
        ConfigureKeepsInv(s, loaded.value);
      }
    case Patch(patched) => ConfigureKeepsInv(s, patched);
    case PatchFailed(reread) =>
      if reread.Some? {
        ConfigureKeepsInv(s, reread.value);
      }
    case Work(fails) => WorkKeepsInv(s, fails);
    case Acknowledge => AcknowledgeKeepsInv(s);
    case Stop =>
  }

  lemma {:induction false} RunKeepsInv(s: System, steps: seq<Step>)
    requires Inv(s)
    ensures Inv(Exec(s, steps))
    decreases |steps|
  {
    if steps != [] {
      StepKeepsInv(s, steps[0]);
      RunKeepsInv(Next(s, steps[0]), steps[1..]);
    }
  }

  /** Over every interleaving, while the worker runs, a pending save is still in
      flight: it never sticks once both channels are drained. */
  lemma PendingMeansInFlight(config: Config, steps: seq<Step>)
    requires var s := Exec(Installed(config), steps); !s.stopped && s.status.pending
    ensures var s := Exec(Installed(config), steps);
            s.status.saved.Some? && InFlight(s, s.status.saved.value) && (s.commands != [] || s.events != [])
  {
    RunKeepsInv(Installed(config), steps);
  }

  /** Once both channels are empty, the daemon has applied exactly the worker's
      configuration, nothing is pending, and a saved configuration reported
      without error is the one in force. */
  lemma DrainedSystemsAgree(config: Config, steps: seq<Step>)
    requires var s := Exec(Installed(config), steps); s.commands == [] && s.events == []
    ensures var s := Exec(Installed(config), steps);
            && s.status.applied == Some(s.current)
            && (!s.stopped ==> !s.status.pending)
            && (!s.stopped && s.status.saved.Some? && s.status.error.None? ==> s.status.saved == Some(s.current))
  {
    RunKeepsInv(Installed(config), steps);
  }

  /** The converse fails while commands are in flight: after saving one
      configuration, another and the first again, the first acknowledgement
      clears `pending`, and the second then applies the configuration in between. */
  lemma PendingMayClearEarly(first: Config, between: Config)
    requires first != between
    ensures var s := Exec(Installed(between),
                          [Patch(first), Patch(between), Patch(first), Work(false), Work(false), Acknowledge, Acknowledge]);
            && !s.status.pending && s.status.error.None?
            && s.status.saved == Some(first) && s.status.applied == Some(between)
  {
    var s0 := Installed(between);
    var steps := [Patch(first), Patch(between), Patch(first), Work(false), Work(false), Acknowledge, Acknowledge];
    var s1 := Next(s0, steps[0]);
    var s2 := Next(s1, steps[1]);
    var s3 := Next(s2, steps[2]);
    assert s3.commands == [first, between, first];
    var s4 := Next(s3, steps[3]);
    var s5 := Next(s4, steps[4]);
    assert s5.events == [Ack(first, false), Ack(between, false)];
    var s6 := Next(s5, steps[5]);
    var s7 := Next(s6, steps[6]);
    assert Exec(s0, steps) == Exec(s1, steps[1..]) == Exec(s2, steps[2..]) == Exec(s3, steps[3..]);
    assert Exec(s3, steps[3..]) == Exec(s4, steps[4..]) == Exec(s5, steps[5..]);
    assert Exec(s5, steps[5..]) == Exec(s6, steps[6..]) == Exec(s7, steps[7..]) == s7;
  }
}
