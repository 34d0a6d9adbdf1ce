/** The daemon's preference calls in place: the public status, the channel to the
    worker, and the visibility policy that goes with a configuration. */
module PreferenceControl {
  import opened Base
  import opened Consent
  import opened Preferences
  import V = Visibility

  /** The effect on the status of saving a configuration, with or without a worker. */
  function Saved(s: System, worker: bool, config: Config, fails: bool): System {
    if worker then Configure(s, config) else ConfigureAlone(s, config, fails)
  }

  /** A reload; a configuration already saved is left alone. */
  function Reloaded(s: System, worker: bool, loaded: Option<Config>, fails: bool): System {
    if loaded.None? then s.(status := s.status.(saved := None, pending := false, error := Some(NotLoaded)))
    else if s.status.saved == loaded then s
    else Saved(s, worker, loaded.value, fails)
  }

  /** A patch that could not be written, after what is on disk was read again. */
  function Unpatched(s: System, worker: bool, reread: Option<Config>, fails: bool): System {
    var s1 := if reread.None? then s.(status := s.status.(saved := None, pending := false))
              else if s.status.saved == reread then s
              else Saved(s, worker, reread.value, fails);
    s1.(status := s1.status.(error := Some(NotSaved)))
  }

  /** With a worker these are the steps of the preference protocol. */
  lemma WithAWorker(s: System, config: Config, read: Option<Config>, fails: bool)
    ensures Saved(s, true, config, fails) == Next(s, Patch(config))
    ensures Reloaded(s, true, read, fails) == Next(s, Reload(read))
    ensures Unpatched(s, true, read, fails) == Next(s, PatchFailed(read))
  {
  }

  /** Without one nothing is ever left pending by a save, and the configuration is
      applied exactly when it is saved without error. */
  lemma WithoutAWorker(s: System, config: Config, fails: bool)
    ensures var p := Saved(s, false, config, fails).status;
            && !p.pending && p.saved == Some(config) && (p.error.None? <==> !fails)
            && p.applied == (if fails then s.status.applied else p.saved)
  {
  }

  /** A token after its permission was withdrawn, or not. */
  function Held(token: Token, cancels: bool, live: bool, now: Elapsed): Token {
    if cancels && live then token.Apply(Cancel, now) else token
  }

  class PreferenceOwner {
    const worker: bool
    const visibility: V.SharedVisibility
    var saved: Option<Config>
    var applied: Option<Config>
    var pending: bool
    var error: Option<Problem>
    var commands: seq<Config>
    var events: seq<Ack>
    /** The worker's side. */
    var current: Config
    var stopped: bool

    function View(): System
      reads this
    {
      System(Status(saved, applied, pending, error), commands, events, current, stopped)
    }

    constructor (config: Config, worker: bool, visibility: V.SharedVisibility)
      ensures View() == Installed(config) && this.worker == worker && this.visibility == visibility
    {
      this.worker, this.visibility := worker, visibility;
      saved, applied, pending, error := Some(config), Some(config), false, None;
      commands, events, current, stopped := [], [], config, false;
    }

    /** What the status says of a configuration the worker, or the daemon itself, tried. */
    method Confirmed(config: Config, fails: bool)
      modifies this`applied, this`pending, this`error
      ensures View() == old(View()).(status := Confirm(old(View()).status, Ack(config, fails)))
    {
      var isCurrent := saved == Some(config);
      if fails {
        if isCurrent {
          pending := false;
          error := Some(Unavailable);
        }
        return;
      }
      applied := Some(config);
      if isCurrent {
        pending := false;
        error := None;
      }
    }

    /** `configure_preferences`: the policy changes with the configuration, and a
        generation that starts is to be activated. */
    method ConfigurePreferences(config: Config, fails: bool, now: Elapsed, nowToken: Elapsed)
      returns (activation: Option<nat>, closed: seq<V.Lease>)
      modifies this, visibility, visibility.Watched()
      ensures View() == Saved(old(View()), worker, config, fails)
      ensures var e := V.SetPolicy(old(visibility.View()), config.discoverable, now);
              && visibility.View() == e.vis && activation == e.activation && closed == e.closed
              && (visibility.pending.Some? ==>
                    visibility.pending.value.View() ==
                    Held(old(visibility.pending.value.View()), e.cancels, old(visibility.Upgrade()).Some?, nowToken))
    {
      saved := Some(config);
      error := None;
      activation, closed := visibility.ChangePolicy(config.discoverable, now, nowToken);
      if !worker {
        Confirmed(config, fails);
      } else if stopped {
        pending := false;
        error := Some(Unavailable);
      } else {
        pending := true;
        commands := commands + [config];
      }
    }

    /** `reload_preferences`, once the file has changed. */
    method ReloadPreferences(loaded: Option<Config>, fails: bool, now: Elapsed, nowToken: Elapsed)
      returns (activation: Option<nat>, closed: seq<V.Lease>)
      modifies this, visibility, visibility.Watched()
      ensures View() == Reloaded(old(View()), worker, loaded, fails)
      ensures if loaded.Some? && old(saved) != loaded
              then var e := V.SetPolicy(old(visibility.View()), loaded.value.discoverable, now);
                   visibility.View() == e.vis && activation == e.activation && closed == e.closed
              else visibility.View() == old(visibility.View()) && activation.None? && closed == []
    {
      activation, closed := None, [];
      match loaded
      case Some(config) =>
        if saved != Some(config) {
          activation, closed := ConfigurePreferences(config, fails, now, nowToken);
        }
      case None =>
        saved := None;
        pending := false;
        error := Some(NotLoaded);
    }

    /** The written half of `patch_preferences`: turning discoverability off closes
        visibility before the policy follows. */
    method PatchWritten(config: Config, discoverability: bool, fails: bool, now: Elapsed, nowToken: Elapsed, later: Elapsed, laterToken: Elapsed)
      returns (activation: Option<nat>, closed: seq<V.Lease>)
      modifies this, visibility, visibility.Watched()
      ensures View() == Saved(old(View()), worker, config, fails)
      ensures var close := V.Close(old(visibility.View()), now);
              var closes := discoverability && !config.discoverable;
              var e := V.SetPolicy(if closes then close.vis else old(visibility.View()), config.discoverable, later);
              && visibility.View() == e.vis && activation == e.activation
              && closed == (if closes then close.closed else []) + e.closed
              && (visibility.pending.Some? ==>
                    var live := old(visibility.Upgrade()).Some?;
                    visibility.pending.value.View() ==
                    Held(Held(old(visibility.pending.value.View()), closes && close.cancels, live, nowToken), e.cancels, live, laterToken))
    {
      var released := [];
      if discoverability && !config.discoverable {
        released := visibility.CloseNow(now, nowToken);
      }
      activation, closed := ConfigurePreferences(config, fails, later, laterToken);
      closed := released + closed;
    }

    /** `patch_preferences`. */
    method PatchPreferences(patched: Option<Config>, discoverability: bool, reread: Option<Config>, fails: bool,
                            now: Elapsed, nowToken: Elapsed, later: Elapsed, laterToken: Elapsed)
      returns (activation: Option<nat>, closed: seq<V.Lease>)
      modifies this, visibility, visibility.Watched()
      ensures View() == if patched.Some? then Saved(old(View()), worker, patched.value, fails)
                        else Unpatched(old(View()), worker, reread, fails)
      ensures var v := old(visibility.View());
              var closes := patched.Some? && discoverability && !patched.value.discoverable;
              var v1 := if closes then V.Close(v, now).vis else v;
              var config := if patched.Some? then patched else if old(saved) != reread then reread else None;
              && visibility.View() == (if config.Some? then V.SetPolicy(v1, config.value.discoverable, later).vis else v1)
              && activation == (if config.Some? then V.SetPolicy(v1, config.value.discoverable, later).activation else None)
              && closed == (if closes then V.Close(v, now).closed else [])
                           + (if config.Some? then V.SetPolicy(v1, config.value.discoverable, later).closed else [])
    {
      if patched.Some? {
        activation, closed := PatchWritten(patched.value, discoverability, fails, now, nowToken, later, laterToken);
        return;
      }
      activation, closed := None, [];
      match reread {
        case Some(config) =>
          if saved != Some(config) {
            activation, closed := ConfigurePreferences(config, fails, later, laterToken);
          }
        case None =>
          saved := None;
          pending := false;
      }
      error := Some(NotSaved);
    }

    /** The daemon reads one acknowledgement. */
    method PreferencesConfigured()
      modifies this
      ensures View() == Next(old(View()), Acknowledge)
    {
      if events == [] {
        return;
      }
      var ack := events[0];
      events := events[1..];
      Confirmed(ack.config, ack.failed);
    }

    /** The worker's `Configure` arm: a failure keeps the current configuration. */
    method HandleConfigure(fails: bool)
      modifies this
      ensures View() == Next(old(View()), Work(fails))
    {
      if stopped || commands == [] {
        return;
      }
      var config := commands[0];
      commands := commands[1..];
      if !fails {
        current := config;
      }
      events := events + [Ack(config, fails)];
    }
  }
}
