/** The daemon's timer fields, updated in place around the coordinator. */
module DaemonClocks {
  import opened Base
  import S = Sharing
  import D = Daemon

  class Clocks {
    const sharing: S.Coordinator
    var config: D.Config
    var timeouts: D.Timeouts
    var searchStart: Option<Elapsed>
    var transferStart: Option<Elapsed>

    function View(): D.State
      reads this, sharing
    {
      D.State(sharing.View(), config, timeouts, searchStart, transferStart)
    }

    constructor (config: D.Config)
      ensures fresh(sharing) && View() == D.Started(config).daemon
    {
      this.config := config;
      this.timeouts := D.Timeouts(0, 0, None);
      this.searchStart := None;
      this.transferStart := None;
      this.sharing := new S.Coordinator();
    }

    method CaptureTimeoutSettings(now: Elapsed)
      modifies this
      ensures View() == D.Capture(old(View()), now)
    {
      if sharing.discovery == S.Searching {
        if searchStart.None? {
          searchStart := Some(now);
          timeouts := timeouts.(discovery := config.discoverySecs * SECOND);
        }
      } else {
        searchStart := None;
      }
      if sharing.active.Some? && !sharing.active.value.phase.Terminal() {
        var share := sharing.active.value;
        if timeouts.shareId != Some(share.id) {
          transferStart := None;
          timeouts := timeouts.(transfer := config.transferSecs * SECOND, shareId := Some(share.id));
        }
        if share.phase == S.Transferring {
          if transferStart.None? {
            transferStart := Some(now);
          }
        } else {
          transferStart := None;
        }
      } else {
        transferStart := None;
        timeouts := timeouts.(shareId := None);
      }
    }

    method EndOverdueSearch(now: Elapsed)
      modifies this, sharing
      ensures View() == D.TimeoutDiscovery(old(View()), now)
    {
      if sharing.discovery != S.Searching {
        searchStart := None;
        return;
      }
      if searchStart.None? {
        searchStart := Some(now);
      }
      if D.Since(searchStart.value, now) >= timeouts.discovery {
        var _ := sharing.EndSearch();
        searchStart := None;
      }
    }

    method EndOverdueTransfer(now: Elapsed)
      modifies this, sharing
      ensures View() == D.TimeoutTransfer(old(View()), now)
    {
      if sharing.active.None? || sharing.active.value.phase != S.Transferring {
        transferStart := None;
        return;
      }
      var share := sharing.active.value.id;
      if transferStart.None? {
        transferStart := Some(now);
      }
      if D.Since(transferStart.value, now) < timeouts.transfer {
        return;
      }
      var _ := sharing.FailShare(share);
      transferStart := None;
    }

    /** What `sync_visibility` asks of the coordinator. */
    method ProjectVisibility(sync: D.Sync)
      modifies sharing
      ensures View() == old(View()).(sharing := D.SyncVisibility(old(sharing.View()), sync))
    {
      match sync {
        case Nothing =>
        case TimedOut(id) => var _ := sharing.FailShare(id);
        case Withdrawn(id) => var _ := sharing.CancelShare(id);
      }
    }

    method ApplyTimeouts(now: Elapsed, later: Elapsed, sync: D.Sync)
      modifies this, sharing
      ensures View() == D.ApplyTimeouts(old(View()), now, later, sync)
    {
      CaptureTimeoutSettings(now);
      EndOverdueSearch(later);
      EndOverdueTransfer(later);
      ProjectVisibility(sync);
    }

    /** The requests that start and stop a search; the next pass starts its clock. */
    method AnswerSearch(running: bool, now: Elapsed)
      modifies sharing
      ensures View() == D.Respond(old(View()), if running then D.Discover else D.StopDiscovery, now)
    {
      sharing.Search(running);
    }

    /** The successful half of `preferences_configured`. */
    method ApplyConfiguration(applied: D.Config, now: Elapsed)
      modifies this, sharing
      ensures View() == D.Configured(old(View()), applied, now)
    {
      CaptureTimeoutSettings(now);
      sharing.PreferNone();
      if applied.pinnedPeer.Some? {
        var _ := sharing.PreferPeer(applied.pinnedPeer.value);
      }
      config := applied;
    }

    /** `configure_preferences`, as far as the clocks and the share see it. */
    method Reconfigure(configured: Option<D.Config>, before: D.Sync, after: D.Sync, now: Elapsed)
      modifies this, sharing
      ensures View() == D.Reconfigured(old(View()), configured, before, after, now)
    {
      ProjectVisibility(before);
      if configured.Some? {
        ApplyConfiguration(configured.value, now);
      }
      ProjectVisibility(after);
    }
  }
}
