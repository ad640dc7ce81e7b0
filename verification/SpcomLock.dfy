/** The handoff of shared_sync_lock on a sharable SPCOM channel (kernel/files/spu/spcom.c): a sender
    takes the mutex and records its pid; get-message, unregister, process exit and a failing send give
    it back when the recorded pid is their own. Get-message checks, clears and unlocks without the channel
    lock, so these are three steps; the others do all of it under the lock, in one step. */
module SpcomLock {
  /** `Taken` is a sender between taking the mutex and recording itself; `Seen` has found its own pid
      recorded; `Cleared` has cleared it and is about to unlock. */
  datatype Pc = Outside | Taken | Seen | Cleared

  datatype Thread = Thread(pid: nat, pc: Pc)

  /** `owner` is the pid whose sender holds the mutex. `bad` records an unlock of a free mutex, or of
      one another pid owns, or the clearing of another pid's record. */
  datatype Lock = Lock(held: bool, activePid: nat, threads: seq<Thread>, owner: nat, bad: bool)

  /** Deinit stands for every release under the channel lock. */
  datatype Step =
    | Take(t: nat) | Record(t: nat) | ServerAbort(t: nat) | Check(t: nat) | Clear(t: nat) | Unlock(t: nat)
    | Deinit(t: nat)

  predicate Enabled(s: Lock, step: Step)
  {
    && step.t < |s.threads|
    && match step {
         case Take(t) => s.threads[t].pc.Outside? && !s.held
         case Record(t) => s.threads[t].pc.Taken?
         case ServerAbort(t) => s.threads[t].pc.Taken?
         case Check(t) => s.threads[t].pc.Outside?
         case Clear(t) => s.threads[t].pc.Seen?
         case Unlock(t) => s.threads[t].pc.Cleared?
         case Deinit(t) => s.threads[t].pc.Outside?
       }
  }

  function Move(s: Lock, t: nat, pc: Pc): seq<Thread>
    requires t < |s.threads|
  {
    s.threads[t := s.threads[t].(pc := pc)]
  }

  function Release(s: Lock, t: nat): Lock
    requires t < |s.threads|
  {
    s.(held := false, threads := Move(s, t, Outside), bad := s.bad || !s.held || s.owner != s.threads[t].pid)
  }

  function Next(s: Lock, step: Step): Lock
    requires Enabled(s, step)
  {
    var t, pid := step.t, s.threads[step.t].pid;
    match step
    case Take(_) => s.(held := true, owner := pid, threads := Move(s, t, Taken))
    case Record(_) => s.(activePid := pid, threads := Move(s, t, Outside))
    case ServerAbort(_) => Release(s, t)
    case Check(_) => if s.activePid == pid then s.(threads := Move(s, t, Seen)) else s
    case Clear(_) => s.(activePid := 0, threads := Move(s, t, Cleared), bad := s.bad || s.activePid != pid)
    case Unlock(_) => Release(s, t)
    case Deinit(_) => if s.activePid == pid then Release(s, t).(activePid := 0) else s
  }

  /** A release is wrong exactly if the mutex is free or another process holds it, and stays noted. */
  lemma WrongReleaseExactly(s: Lock, t: nat)
    requires t < |s.threads|
    ensures Release(s, t).bad <==> s.bad || !s.held || s.owner != s.threads[t].pid
    ensures !Release(s, t).held && Release(s, t).threads[t].pc.Outside?
  {
  }

  predicate Initial(s: Lock)
  {
    !s.held && s.activePid == 0 && !s.bad && forall t :: 0 <= t < |s.threads| ==> s.threads[t].pid > 0 && s.threads[t].pc.Outside?
  }

  predicate HoldsToken(s: Lock, t: nat)
    requires t < |s.threads|
  {
    s.threads[t].pc.Taken? || s.threads[t].pc.Cleared?
  }

  predicate Releasing(s: Lock, t: nat)
    requires t < |s.threads|
  {
    s.threads[t].pc.Seen? || s.threads[t].pc.Cleared?
  }

  /** The mutex is held exactly when a pid is recorded, or a sender has yet to record itself, or a
      releaser has yet to unlock, and it is only ever one of these. */
  ghost predicate Handoff(s: Lock)
  {
    && (s.held <==> s.activePid != 0 || exists t :: 0 <= t < |s.threads| && HoldsToken(s, t))
    && (forall t :: 0 <= t < |s.threads| && HoldsToken(s, t) ==> s.activePid == 0 && s.threads[t].pid == s.owner)
    && (forall t, u :: 0 <= t < u < |s.threads| ==> !(HoldsToken(s, t) && HoldsToken(s, u)))
    && (s.activePid != 0 ==> s.activePid == s.owner)
  }

  ghost predicate Invariant(s: Lock)
  {
    && !s.bad && Handoff(s)
    && (forall t :: 0 <= t < |s.threads| ==> s.threads[t].pid > 0)
    && (forall t :: 0 <= t < |s.threads| && s.threads[t].pc.Seen? ==> s.activePid == s.threads[t].pid)
    && (forall t, u :: 0 <= t < u < |s.threads| && Releasing(s, t) && Releasing(s, u) ==> s.threads[t].pid != s.threads[u].pid)
  }

  /** Another thread of the same process is in the middle of giving the mutex back. */
  predicate Overlaps(s: Lock, t: nat)
    requires t < |s.threads|
  {
    exists u :: 0 <= u < |s.threads| && u != t && s.threads[u].pid == s.threads[t].pid && Releasing(s, u)
  }

  /** What a process that lets one thread at a time collect or close obeys. */
  predicate Serialised(s: Lock, step: Step)
    requires Enabled(s, step)
  {
    step.Check? || step.Deinit? ==> !Overlaps(s, step.t)
  }

  lemma TakeKeeps(s: Lock, t: nat)
    requires Invariant(s) && Enabled(s, Take(t))
    ensures Invariant(Next(s, Take(t)))
  {
    var next := Next(s, Take(t));
    assert HoldsToken(next, t);
    assert forall u :: 0 <= u < |s.threads| && u != t ==> next.threads[u] == s.threads[u] && !HoldsToken(s, u);
  }

  lemma RecordKeeps(s: Lock, t: nat)
    requires Invariant(s) && Enabled(s, Record(t))
    ensures Invariant(Next(s, Record(t)))
  {
    var next := Next(s, Record(t));
    assert HoldsToken(s, t);
    assert forall u :: 0 <= u < |s.threads| && u != t ==> next.threads[u] == s.threads[u] && !HoldsToken(s, u);
  }

  lemma ReleaseKeeps(s: Lock, t: nat)
    requires Invariant(s) && t < |s.threads| && HoldsToken(s, t)
    ensures Invariant(Release(s, t))
  {
    var next := Release(s, t);
    assert forall u :: 0 <= u < |s.threads| && u != t ==> next.threads[u] == s.threads[u] && !HoldsToken(s, u);
    assert !HoldsToken(next, t);
  }

  lemma CheckKeeps(s: Lock, t: nat)
    requires Invariant(s) && Enabled(s, Check(t)) && !Overlaps(s, t)
    ensures Invariant(Next(s, Check(t)))
  {
    var next := Next(s, Check(t));
    assert forall u :: 0 <= u < |s.threads| && u != t ==> next.threads[u] == s.threads[u];
    assert forall u :: 0 <= u < |s.threads| ==> HoldsToken(next, u) == HoldsToken(s, u);
    assert forall u :: 0 <= u < |s.threads| && u != t && Releasing(s, u) ==> s.threads[u].pid != s.threads[t].pid;
  }

  lemma ClearKeeps(s: Lock, t: nat)
    requires Invariant(s) && Enabled(s, Clear(t))
    ensures Invariant(Next(s, Clear(t)))
  {
    var next := Next(s, Clear(t));
    assert HoldsToken(next, t) && Releasing(s, t);
    assert forall u :: 0 <= u < |s.threads| && u != t ==> next.threads[u] == s.threads[u] && !HoldsToken(s, u);
    forall u | 0 <= u < |s.threads| && u != t ensures !next.threads[u].pc.Seen? {
      assert Releasing(s, u) <==> s.threads[u].pc.Seen? || s.threads[u].pc.Cleared?;
    }
  }

  lemma DeinitKeeps(s: Lock, t: nat)
    requires Invariant(s) && Enabled(s, Deinit(t)) && !Overlaps(s, t)
    ensures Invariant(Next(s, Deinit(t)))
  {
    var next := Next(s, Deinit(t));
    if s.activePid == s.threads[t].pid {
      assert forall u :: 0 <= u < |s.threads| ==> next.threads[u] == s.threads[u] && !HoldsToken(s, u);
      forall u | 0 <= u < |s.threads| ensures !next.threads[u].pc.Seen? {
        assert Releasing(s, u) <==> s.threads[u].pc.Seen? || s.threads[u].pc.Cleared?;
      }
    }
  }

  /** One step of any thread keeps the handoff in order, as long as checks are serialised per process. */
  lemma StepKeeps(s: Lock, step: Step)
    requires Invariant(s) && Enabled(s, step) && Serialised(s, step)
    ensures Invariant(Next(s, step))
  {
    match step
    case Take(t) => TakeKeeps(s, t);
    case Record(t) => RecordKeeps(s, t);
    case ServerAbort(t) => ReleaseKeeps(s, t);
    case Check(t) => CheckKeeps(s, t);
    case Clear(t) => ClearKeeps(s, t);
    case Unlock(t) => ReleaseKeeps(s, t);
    case Deinit(t) => DeinitKeeps(s, t);
  }

  predicate Possible(s: Lock, run: seq<Step>)
    decreases |run|
  {
    run != [] ==> Enabled(s, run[0]) && Possible(Next(s, run[0]), run[1..])
  }

  predicate AllSerialised(s: Lock, run: seq<Step>)
    requires Possible(s, run)
    decreases |run|
  {
    run != [] ==> Serialised(s, run[0]) && AllSerialised(Next(s, run[0]), run[1..])
  }

  function Run(s: Lock, run: seq<Step>): Lock
    requires Possible(s, run)
    decreases |run|
  {
    if run == [] then s else Run(Next(s, run[0]), run[1..])
  }

  lemma {:induction false} SerialisedRunKeeps(s: Lock, run: seq<Step>)
    requires Invariant(s) && Possible(s, run) && AllSerialised(s, run)
    ensures Invariant(Run(s, run))
    decreases |run|
  {
    if run != [] {
      StepKeeps(s, run[0]);
      SerialisedRunKeeps(Next(s, run[0]), run[1..]);
    }
  }

  lemma InitialInvariant(s: Lock)
    requires Initial(s)
    ensures Invariant(s)
  {
    assert forall t :: 0 <= t < |s.threads| ==> !HoldsToken(s, t);
  }

  /** In every serialised interleaving of senders and releasers the mutex is held exactly when it is
      spoken for, and is never unlocked twice or on behalf of another pid. */
  lemma SerialisedRunIsSafe(s: Lock, run: seq<Step>)
    requires Initial(s) && Possible(s, run) && AllSerialised(s, run)
    ensures !Run(s, run).bad && Handoff(Run(s, run))
  {
    InitialInvariant(s);
    SerialisedRunKeeps(s, run);
  }

  ghost predicate NoChecks(run: seq<Step>)
  {
    forall i :: 0 <= i < |run| ==> !run[i].Check? && !run[i].Deinit?
  }

  ghost predicate Doomed(s: Lock)
  {
    exists run :: Possible(s, run) && NoChecks(run) && Run(s, run).bad
  }

  lemma {:induction false} NoChecksSerialised(s: Lock, run: seq<Step>)
    requires Possible(s, run) && NoChecks(run)
    ensures AllSerialised(s, run)
    decreases |run|
  {
    if run != [] {
      NoChecksSerialised(Next(s, run[0]), run[1..]);
    }
  }

  /** The code itself does not serialise: two get-message calls of one process can both pass the check. From a
      sound state, a get-message check that succeeds leads to a wrong unlock, by steps already under way or new
      senders, exactly when another thread of the process is in the middle of giving the mutex back. */
  lemma CheckIsSafeExactly(s: Lock, t: nat)
    requires Invariant(s) && Enabled(s, Check(t)) && s.activePid == s.threads[t].pid
    ensures Doomed(Next(s, Check(t))) <==> Overlaps(s, t)
  {
    var next := Next(s, Check(t));
    if Overlaps(s, t) {
      var u :| 0 <= u < |s.threads| && u != t && s.threads[u].pid == s.threads[t].pid && Releasing(s, u);
      assert !HoldsToken(s, u);
      DoubleClear(next, t, u);
    } else {
      CheckKeeps(s, t);
      SoundIsNotDoomed(next);
    }
  }

  /** The same for a release under the channel lock: it is wrong exactly when it overtakes a get-message call of
      its own process. Two releases under the channel lock never meet. */
  lemma DeinitIsSafeExactly(s: Lock, t: nat)
    requires Invariant(s) && Enabled(s, Deinit(t)) && s.activePid == s.threads[t].pid
    ensures Doomed(Next(s, Deinit(t))) <==> Overlaps(s, t)
  {
    var next := Next(s, Deinit(t));
    if Overlaps(s, t) {
      var u :| 0 <= u < |s.threads| && u != t && s.threads[u].pid == s.threads[t].pid && Releasing(s, u);
      assert !HoldsToken(s, u);
      LateClear(next, u);
    } else {
      DeinitKeeps(s, t);
      SoundIsNotDoomed(next);
    }
  }

  lemma SoundIsNotDoomed(s: Lock)
    requires Invariant(s)
    ensures !Doomed(s)
  {
    forall run | Possible(s, run) && NoChecks(run) ensures !Run(s, run).bad {
      NoChecksSerialised(s, run);
      SerialisedRunKeeps(s, run);
    }
  }

  /** A thread that has passed the check finds the record gone. */
  lemma LateClear(s: Lock, u: nat)
    requires u < |s.threads| && s.threads[u].pc.Seen? && s.threads[u].pid > 0 && s.activePid == 0
    ensures Doomed(s)
  {
    var run := [Clear(u)];
    RunOne(s, run);
    assert Next(s, Clear(u)).bad;
    assert NoChecks(run) && Possible(s, run) && Run(s, run).bad;
  }

  /** Once two threads of a process have passed the check, the second one's clearing finds the record
      gone, and its unlock finds the mutex free. */
  lemma DoubleClear(s: Lock, t: nat, u: nat)
    requires t < |s.threads| && u < |s.threads| && t != u
    requires s.threads[t].pc.Seen? && s.threads[u].pc.Seen? && s.threads[t].pid > 0
    ensures Doomed(s)
  {
    var run := [Clear(u), Unlock(u), Clear(t), Unlock(t)];
    var s1 := Next(s, run[0]);
    var s2 := Next(s1, run[1]);
    var s3 := Next(s2, run[2]);
    var s4 := Next(s3, run[3]);
    assert !s3.held && s4.bad;
    RunFour(s, run);
    assert NoChecks(run);
  }

  lemma RunFour(s: Lock, run: seq<Step>)
    requires |run| == 4
    requires Enabled(s, run[0]) && Enabled(Next(s, run[0]), run[1]) && Enabled(Next(Next(s, run[0]), run[1]), run[2])
    requires Enabled(Next(Next(Next(s, run[0]), run[1]), run[2]), run[3])
    ensures Possible(s, run)
    ensures Run(s, run) == Next(Next(Next(Next(s, run[0]), run[1]), run[2]), run[3])
  {
    assert run[1..][0] == run[1] && run[1..][1..] == run[2..] && run[2..][0] == run[2] && run[2..][1..] == run[3..];
    assert run[3..][0] == run[3] && run[3..][1..] == [];
    var s1 := Next(s, run[0]);
    var s2 := Next(s1, run[1]);
    var s3 := Next(s2, run[2]);
    RunOne(s3, run[3..]);
    RunOne(s2, run[2..]);
    RunOne(s1, run[1..]);
    RunOne(s, run);
  }

  lemma RunOne(s: Lock, run: seq<Step>)
    requires run != [] && Enabled(s, run[0]) && Possible(Next(s, run[0]), run[1..])
    ensures Possible(s, run) && Run(s, run) == Run(Next(s, run[0]), run[1..])
  {
  }

  /** The case itself: two get-message calls of one process race, another process gets the mutex in between, and the
      second call erases that process's record and unlocks the mutex it is using. */
  lemma TwoCollectorsReleaseAnothersLock(start: Lock)
    requires Initial(start) && |start.threads| == 3
    requires start.threads[0].pid == start.threads[1].pid != start.threads[2].pid
    ensures var sent := Next(Next(start, Take(0)), Record(0));
      var both := Next(Next(sent, Check(0)), Check(1));
      var freed := Next(Next(both, Clear(0)), Unlock(0));
      var taken := Next(Next(freed, Take(2)), Record(2));
      var end := Next(Next(taken, Clear(1)), Unlock(1));
      && !freed.held && !freed.bad
      && taken.held && taken.activePid == taken.owner == start.threads[2].pid
      && !end.held && end.activePid == 0 && end.bad
  {
  }
}
