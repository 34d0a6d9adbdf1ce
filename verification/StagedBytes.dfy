/** Where the residue of a published file comes from: the bytes that failing
    whole-buffer writes on its handle left behind, step by step. */
module StagedBytes {
  import opened Base
  import opened Staging

  /** The bytes that a failing write leaves in the handle's file, uncounted. */
  ghost function Landed(s: System, step: Step, h: nat): nat {
    if step.WriteAll? && step.handle == h && Writable(s, h, |step.buffer|) && step.failedAfter.Some?
       && step.failedAfter.value <= |step.buffer|
    then step.failedAfter.value else 0
  }

  ghost function LandedIn(s: System, steps: seq<Step>, h: nat): nat
    decreases |steps|
  {
    if steps == [] then 0 else Landed(s, steps[0], h) + LandedIn(Next(s, steps[0]), steps[1..], h)
  }

  /** No failing write on the handle left anything, at any step of the run. */
  ghost predicate NothingLanded(s: System, steps: seq<Step>, h: nat) {
    forall k :: 0 <= k < |steps| ==> Landed(Exec(s, steps[..k]), steps[k], h) == 0
  }

  lemma {:induction false} NothingLandedExactly(s: System, steps: seq<Step>, h: nat)
    ensures NothingLanded(s, steps, h) <==> LandedIn(s, steps, h) == 0
    decreases |steps|
  {
    if steps != [] {
      var next, rest := Next(s, steps[0]), steps[1..];
      NothingLandedExactly(next, rest, h);
      forall k | 0 <= k < |rest|
        ensures Exec(s, steps[..k + 1]) == Exec(next, rest[..k]) && steps[k + 1] == rest[k]
      {
        assert steps[..k + 1][1..] == rest[..k];
      }
      assert Exec(s, steps[..0]) == s;
      if NothingLanded(s, steps, h) {
        forall k | 0 <= k < |rest|
          ensures Landed(Exec(next, rest[..k]), rest[k], h) == 0
        {
          assert Landed(Exec(s, steps[..k + 1]), steps[k + 1], h) == 0;
        }
        assert Landed(Exec(s, steps[..0]), steps[0], h) == 0;
      } else {
        var k :| 0 <= k < |steps| && Landed(Exec(s, steps[..k]), steps[k], h) != 0;
        if k > 0 {
          assert Landed(Exec(next, rest[..k - 1]), rest[k - 1], h) != 0;
        }
      }
    }
  }

  /** A handle's residue is what landed; once published it takes no more writes,
      and it is never used again. */
  ghost predicate Tracked(s: System, h: nat, landed: nat) {
    && (h in s.live ==> h < s.nextHandle && s.live[h].residue == landed)
    && (h >= s.nextHandle ==> landed == 0)
    && (forall i :: 0 <= i < |s.published| && s.published[i].handle == h ==>
          && s.published[i].residue == landed && h < s.nextHandle
          && (h in s.live ==> s.live[h].progress.Linked? || s.live[h].progress.Closed?))
  }

  lemma StagingTracks(s: System, name: Bytes, declared: nat, h: nat, landed: nat)
    requires Tracked(s, h, landed)
    ensures Tracked(StageStep(s, name, declared), h, landed)
  {
  }

  lemma AttemptTracks(s: System, k: nat, h: nat, landed: nat)
    requires Tracked(s, h, landed)
    ensures Tracked(AttemptStep(s, k), h, landed)
  {
  }

  lemma AppendTracks(s: System, k: nat, bytes: Bytes, counted: bool, h: nat, landed: nat)
    requires Tracked(s, h, landed) && Writable(s, k, 0)
    ensures Tracked(Append(s, k, bytes, counted), h, if k == h && !counted then landed + |bytes| else landed)
  {
  }

  lemma CommitTracks(s: System, k: nat, ioOk: bool, h: nat, landed: nat)
    requires Tracked(s, h, landed)
    ensures Tracked(CommitStep(s, k, ioOk), h, landed)
  {
  }

  lemma StepTracks(s: System, step: Step, h: nat, landed: nat)
    requires Tracked(s, h, landed)
    ensures Tracked(Next(s, step), h, landed + Landed(s, step, h))
  {
    match step
    case Stage(name, declared) => StagingTracks(s, name, declared, h, landed);
    case Attempt(k) => AttemptTracks(s, k, h, landed);
    case Write(k, buffer, wrote) => {
      if Writable(s, k, |buffer|) && wrote <= |buffer| {
        AppendTracks(s, k, buffer[..wrote], true, h, landed);
      }
    }
    case WriteAll(k, buffer, failedAfter) => {
      if Writable(s, k, |buffer|) {
        if failedAfter.None? {
          AppendTracks(s, k, buffer, true, h, landed);
        } else if failedAfter.value <= |buffer| {
          AppendTracks(s, k, buffer[..failedAfter.value], false, h, landed);
        }
      }
    }
    case Commit(k, ioOk) => CommitTracks(s, k, ioOk, h, landed);
    case _ => {}
  }

  lemma {:induction false} RunTracks(s: System, steps: seq<Step>, h: nat, landed: nat)
    requires Tracked(s, h, landed)
    ensures Tracked(Exec(s, steps), h, landed + LandedIn(s, steps, h))
    decreases |steps|
  {
    if steps != [] {
      StepTracks(s, steps[0], h, landed);
      RunTracks(Next(s, steps[0]), steps[1..], h, landed + Landed(s, steps[0], h));
    }
  }

  /** In every run, a published file holds exactly its accepted bytes, and has the
      declared size, if and only if no failing write on its handle left bytes. */
  lemma PublishedIsExactExactly(process: nat, disk: Disk, steps: seq<Step>, i: nat)
    requires DiskInv(disk) && i < |Exec(Started(process, disk), steps).published|
    ensures var s := Exec(Started(process, disk), steps);
            var p := s.published[i];
            && p.file in s.disk.content
            && (s.disk.content[p.file] == p.accepted <==> NothingLanded(Started(process, disk), steps, p.handle))
            && |s.disk.content[p.file]| == p.declared + LandedIn(Started(process, disk), steps, p.handle)
  {
    var s := Exec(Started(process, disk), steps);
    RunKeepsInv(Started(process, disk), steps);
    RunTracks(Started(process, disk), steps, s.published[i].handle, 0);
    NothingLandedExactly(Started(process, disk), steps, s.published[i].handle);
  }
}
