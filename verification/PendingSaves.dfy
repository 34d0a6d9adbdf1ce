/** When `pending` says exactly that the saved configuration is still in flight:
    no acknowledgement tells two sends of one configuration apart. */
module PendingSaves {
  import opened Base
  import opened Preferences

  /** Everything in flight, oldest first: the acknowledgements unread, then the commands. */
  function Queue(s: System): seq<Config> {
    seq(|s.events|, i requires 0 <= i < |s.events| => s.events[i].config) + s.commands
  }

  /** `pending` exactly while the saved configuration is in flight. */
  ghost predicate Exact(s: System) {
    s.status.pending <==> s.status.saved.Some? && InFlight(s, s.status.saved.value)
  }

  /** The configuration a step sends to the worker, if it sends one. */
  function Sends(s: System, step: Step): Option<Config> {
    if s.stopped then None
    else
      match step
      case Reload(Some(config)) => if s.status.saved == Some(config) then None else Some(config)
      case Patch(config) => Some(config)
      case PatchFailed(Some(config)) => if s.status.saved == Some(config) then None else Some(config)
      case _ => None
  }

  /** The step sends a configuration equal to one in flight. */
  ghost predicate Repeats(s: System, step: Step) {
    Sends(s, step).Some? && InFlight(s, Sends(s, step).value)
  }

  ghost predicate NeverRepeats(s: System, steps: seq<Step>)
    decreases |steps|
  {
    steps == [] || (!Repeats(s, steps[0]) && NeverRepeats(Next(s, steps[0]), steps[1..]))
  }

  /** The channels move, and nothing is sent. */
  ghost predicate Drains(steps: seq<Step>) {
    forall i :: 0 <= i < |steps| ==> steps[i].Work? || steps[i].Acknowledge?
  }

  /** `pending` is exact while the worker runs, at every moment of the run and
      however the channels move from there. */
  ghost predicate StaysExact(s: System, steps: seq<Step>) {
    forall n: nat, later :: n <= |steps| && Drains(later) ==>
      var s' := Exec(Exec(s, steps[..n]), later); s'.stopped || Exact(s')
  }

  // Queues

  lemma QueueIsInFlight(s: System, config: Config)
    ensures InFlight(s, config) <==> config in Queue(s)
  {
    if InFlight(s, config) && config !in s.commands {
      var i :| 0 <= i < |s.events| && s.events[i].config == config;
      assert Queue(s)[i] == config;
    } else if config in s.commands {
      var i :| 0 <= i < |s.commands| && s.commands[i] == config;
      assert Queue(s)[|s.events| + i] == config;
    }
  }

  lemma SendingQueues(s: System, step: Step)
    requires Sends(s, step).Some?
    ensures var config, s' := Sends(s, step).value, Next(s, step);
            !s'.stopped && Queue(s') == Queue(s) + [config] && s'.status.pending && s'.status.saved == Some(config)
  {
  }

  lemma WorkingMoves(s: System, fails: bool)
    ensures Queue(Next(s, Work(fails))) == Queue(s) && Next(s, Work(fails)).status == s.status
  {
  }

  lemma AcknowledgingTakes(s: System)
    requires s.events != []
    ensures Queue(s) != [] && Queue(s)[0] == s.events[0].config && Queue(Next(s, Acknowledge)) == Queue(s)[1..]
  {
  }

  // Runs that never repeat a configuration in flight

  ghost predicate Unrepeated(queue: seq<Config>) {
    forall i, j :: 0 <= i < j < |queue| ==> queue[i] != queue[j]
  }

  ghost predicate Good(s: System) {
    s.stopped || (Unrepeated(Queue(s)) && Exact(s))
  }

  lemma SendingKeepsGood(s: System, step: Step)
    requires Good(s) && Sends(s, step).Some? && !Repeats(s, step)
    ensures Good(Next(s, step))
  {
    var config, s' := Sends(s, step).value, Next(s, step);
    SendingQueues(s, step);
    QueueIsInFlight(s, config);
    QueueIsInFlight(s', config);
    assert Queue(s')[|Queue(s)|] == config;
  }

  lemma AcknowledgingKeepsGood(s: System)
    requires Good(s)
    ensures Good(Next(s, Acknowledge))
  {
    if !s.stopped && s.events != [] && s.status.saved.Some? {
      var s', saved := Next(s, Acknowledge), s.status.saved.value;
      AcknowledgingTakes(s);
      QueueIsInFlight(s, saved);
      QueueIsInFlight(s', saved);
      assert Queue(s) == [Queue(s)[0]] + Queue(s)[1..];
    } else if s.events != [] {
      AcknowledgingTakes(s);
    }
  }

  lemma StepKeepsGood(s: System, step: Step)
    requires Good(s) && !Repeats(s, step)
    ensures Good(Next(s, step))
  {
    if Sends(s, step).Some? {
      SendingKeepsGood(s, step);
    } else if !s.stopped {
      match step
      case Work(fails) =>
        WorkingMoves(s, fails);
        if s.status.saved.Some? {
          QueueIsInFlight(s, s.status.saved.value);
          QueueIsInFlight(Next(s, step), s.status.saved.value);
        }
      case Acknowledge => AcknowledgingKeepsGood(s);
      case _ =>
    }
  }

  lemma {:induction false} DrainingKeepsGood(s: System, later: seq<Step>)
    requires Good(s) && Drains(later)
    ensures Good(Exec(s, later))
    decreases |later|
  {
    if later != [] {
      StepKeepsGood(s, later[0]);
      DrainingKeepsGood(Next(s, later[0]), later[1..]);
    }
  }

  // A repeated configuration

  lemma {:induction false} ExecAppends(s: System, steps: seq<Step>, more: seq<Step>)
    ensures Exec(s, steps + more) == Exec(Exec(s, steps), more)
    decreases |steps|
  {
    if steps == [] {
      assert steps + more == more;
    } else {
      assert (steps + more)[1..] == steps[1..] + more;
      ExecAppends(Next(s, steps[0]), steps[1..], more);
    }
  }

  /** The oldest in flight is worked on, if it still has to be, and acknowledged. */
  lemma TakeOne(s: System) returns (steps: seq<Step>)
    requires !s.stopped && Queue(s) != []
    ensures Drains(steps)
    ensures var s' := Exec(s, steps);
            && !s'.stopped && Queue(s') == Queue(s)[1..] && s'.status.saved == s.status.saved
            && (s.status.saved == Some(Queue(s)[0]) ==> !s'.status.pending)
  {
    var s1 := s;
    if s.events == [] {
      s1 := Next(s, Work(false));
      WorkingMoves(s, false);
      steps := [Work(false), Acknowledge];
      assert Exec(s, steps) == Exec(s1, steps[1..]) == Exec(Next(s1, Acknowledge), steps[1..][1..]);
    } else {
      steps := [Acknowledge];
      assert Exec(s, steps) == Exec(Next(s1, Acknowledge), steps[1..]);
    }
    AcknowledgingTakes(s1);
  }

  lemma {:induction false} Take(s: System, n: nat) returns (steps: seq<Step>)
    requires !s.stopped && 0 < n <= |Queue(s)| && s.status.saved == Some(Queue(s)[n - 1])
    ensures Drains(steps)
    ensures var s' := Exec(s, steps);
            !s'.stopped && Queue(s') == Queue(s)[n..] && s'.status.saved == s.status.saved && !s'.status.pending
    decreases n
  {
    steps := TakeOne(s);
    if n > 1 {
      var s1 := Exec(s, steps);
      var rest := Take(s1, n - 1);
      ExecAppends(s, steps, rest);
      assert Queue(s)[1..][n - 1..] == Queue(s)[n..];
      steps := steps + rest;
    }
  }

  /** After a configuration was sent beside an equal one, the channels can move so
      that `pending` is cleared while the save is still in flight. */
  lemma RepeatingClearsEarly(s: System, step: Step) returns (later: seq<Step>)
    requires Repeats(s, step)
    ensures Drains(later)
    ensures var s' := Exec(Next(s, step), later);
            !s'.stopped && !s'.status.pending && s'.status.saved == Sends(s, step) && InFlight(s', Sends(s, step).value)
  {
    var config, s1 := Sends(s, step).value, Next(s, step);
    QueueIsInFlight(s, config);
    SendingQueues(s, step);
    var i :| 0 <= i < |Queue(s)| && Queue(s)[i] == config;
    later := Take(s1, i + 1);
    var s' := Exec(s1, later);
    assert Queue(s')[|Queue(s')| - 1] == config;
    QueueIsInFlight(s', config);
  }

  // Exactly when

  lemma RepeatingIsNotExact(s: System, steps: seq<Step>)
    requires steps != [] && Repeats(s, steps[0])
    ensures !StaysExact(s, steps)
  {
    var later := RepeatingClearsEarly(s, steps[0]);
    assert steps[..1] == [steps[0]];
    assert Exec(s, steps[..1]) == Next(s, steps[0]);
    assert !Exact(Exec(Exec(s, steps[..1]), later));
  }

  lemma StaysExactAfter(s: System, steps: seq<Step>)
    requires steps != [] && StaysExact(s, steps)
    ensures StaysExact(Next(s, steps[0]), steps[1..])
  {
    forall n: nat, later | n <= |steps[1..]| && Drains(later)
      ensures var s' := Exec(Exec(Next(s, steps[0]), steps[1..][..n]), later); s'.stopped || Exact(s')
    {
      assert steps[..n + 1][1..] == steps[1..][..n];
      assert Exec(s, steps[..n + 1]) == Exec(Next(s, steps[0]), steps[1..][..n]);
    }
  }

  lemma StaysExactBefore(s: System, steps: seq<Step>)
    requires Good(s) && steps != [] && StaysExact(Next(s, steps[0]), steps[1..])
    ensures StaysExact(s, steps)
  {
    forall n: nat, later | n <= |steps| && Drains(later)
      ensures var s' := Exec(Exec(s, steps[..n]), later); s'.stopped || Exact(s')
    {
      if n == 0 {
        DrainingKeepsGood(s, later);
      } else {
        assert steps[..n][1..] == steps[1..][..n - 1];
        assert Exec(s, steps[..n]) == Exec(Next(s, steps[0]), steps[1..][..n - 1]);
      }
    }
  }

  lemma {:induction false} StaysExactExactly(s: System, steps: seq<Step>)
    requires Good(s)
    ensures StaysExact(s, steps) <==> NeverRepeats(s, steps)
    decreases |steps|
  {
    if steps == [] {
      forall n: nat, later | n <= |steps| && Drains(later)
        ensures var s' := Exec(Exec(s, steps[..n]), later); s'.stopped || Exact(s')
      {
        DrainingKeepsGood(s, later);
      }
    } else if Repeats(s, steps[0]) {
      RepeatingIsNotExact(s, steps);
    } else {
      StepKeepsGood(s, steps[0]);
      StaysExactExactly(Next(s, steps[0]), steps[1..]);
      if StaysExact(s, steps) {
        StaysExactAfter(s, steps);
      } else if NeverRepeats(s, steps) {
        StaysExactBefore(s, steps);
      }
    }
  }

  /** Over whole runs of the daemon: `pending` says exactly that the saved
      configuration is in flight, whatever order the channels move in, if and only
      if no configuration is sent while an equal one is in flight. */
  lemma PendingIsExactExactly(config: Config, steps: seq<Step>)
    ensures StaysExact(Installed(config), steps) <==> NeverRepeats(Installed(config), steps)
  {
    StaysExactExactly(Installed(config), steps);
  }

  /** In one step: over every reachable state with a running worker and a pending
      save, reading an acknowledgement clears `pending` with the save still in
      flight if and only if the saved configuration is the one acknowledged and is
      in flight again behind it, which it is as soon as anything is. */
  lemma AcknowledgementClearsEarlyExactly(config: Config, steps: seq<Step>)
    requires var s := Exec(Installed(config), steps); !s.stopped && s.events != [] && s.status.pending
    ensures var s := Exec(Installed(config), steps);
            var s' := Next(s, Acknowledge);
            var saved := s.status.saved;
            && saved.Some?
            && (!s'.status.pending && InFlight(s', saved.value) <==>
                saved == Some(s.events[0].config) && saved.value in Queue(s)[1..])
            && (saved == Some(s.events[0].config) ==> (saved.value in Queue(s)[1..] <==> |Queue(s)| > 1))
  {
    var s := Exec(Installed(config), steps);
    RunKeepsInv(Installed(config), steps);
    AcknowledgingTakes(s);
    QueueIsInFlight(Next(s, Acknowledge), s.status.saved.value);
    if |Queue(s)| > 1 {
      assert Queue(s)[1..][|Queue(s)| - 2] == Queue(s)[|Queue(s)| - 1] == Newest(s).value;
    }
  }
}
