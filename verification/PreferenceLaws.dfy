/** What the status says once a save has run its course. */
module PreferenceLaws {
  import opened Base
  import opened Preferences

  ghost predicate Drained(s: System) {
    s.commands == [] && s.events == [] && !s.stopped
  }

  /** A save is sent, is pending until the worker answers, and then either takes effect
      everywhere or changes only what is saved and says so. */
  lemma SaveRunsItsCourse(s: System, config: Config, fails: bool)
    requires Drained(s)
    ensures var s1 := Next(s, Patch(config));
            var s2 := Next(s1, Work(fails));
            && s1.status == Status(Some(config), s.status.applied, true, None) && s1.commands == [config] && s1.current == s.current
            && s2.status == s1.status && s2.events == [Ack(config, fails)] && s2.commands == []
            && Drained(Next(s2, Acknowledge))
            && Next(s2, Acknowledge).status ==
               (if fails then Status(Some(config), s.status.applied, false, Some(Unavailable))
                else Status(Some(config), Some(config), false, None))
            && Next(s2, Acknowledge).current == (if fails then s.current else config)
  {
    assert [] + [config] == [config];
  }

  /** A save after the worker stopped is kept and reported, but not sent. */
  lemma SaveAfterStop(s: System, config: Config)
    requires s.stopped
    ensures Next(s, Patch(config)) == s.(status := Status(Some(config), s.status.applied, false, Some(Unavailable)))
  {
  }

  /** An unreadable file saves nothing and says so; one that reads as before changes
      nothing; and another one is sent like a save. */
  lemma ReloadIs(s: System, config: Config)
    ensures Next(s, Reload(None)) == s.(status := Status(None, s.status.applied, false, Some(NotLoaded)))
    ensures s.status.saved == Some(config) ==> Next(s, Reload(Some(config))) == s
    ensures s.status.saved != Some(config) ==> Next(s, Reload(Some(config))) == Next(s, Patch(config))
  {
  }

  /** A save that could not be written always says so, and adopts what the file holds
      by then; if nothing can be read, nothing is saved. */
  lemma FailedSaveSays(s: System, config: Config)
    ensures Next(s, PatchFailed(None)).status == Status(None, s.status.applied, false, Some(NotSaved))
    ensures Next(s, PatchFailed(Some(config))).status.saved == Some(config)
    ensures Next(s, PatchFailed(Some(config))).status.error == Some(NotSaved)
    ensures Next(s, PatchFailed(Some(config))).commands == Next(s, Reload(Some(config))).commands
  {
  }

  /** An answer about a configuration that is no longer the saved one never touches
      the error or the pending mark; a success still says what is applied. */
  lemma StaleAnswers(s: System)
    requires s.events != [] && s.status.saved != Some(s.events[0].config)
    ensures var status := Next(s, Acknowledge).status;
            && status.saved == s.status.saved && status.pending == s.status.pending && status.error == s.status.error
            && status.applied == (if s.events[0].failed then s.status.applied else Some(s.events[0].config))
  {
  }
}
