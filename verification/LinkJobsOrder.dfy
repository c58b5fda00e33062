/**
  Which link jobs can run at the same time or at all, what they leave in bin/, and why the
  protocol never blocks and ends.
 */
module LinkJobsOrder {
  import opened Wrappers
  import opened LinkJobs
  import opened LinkJobsProofs
  import opened LinkTargets

  /** The targets of linkBinaryTo are what runLinkJobs asks for. */
  lemma TargetsAreValid(c: Config)
    requires AfterLastNamed(c.names, c.after)
    ensures c.Valid()
  {
    forall i | 0 <= i < |c.after|
      ensures -1 <= c.after[i] < i
    {
      LastNamedIsLast(c.names, i, c.names[i]);
    }
  }

  // ---- The after chain ----

  /** a is on the chain of jobs that job i waits for, directly or behind another. */
  ghost predicate Behind(c: Config, i: nat, a: nat)
    requires c.Valid() && i < |c.after|
    decreases i
  {
    c.after[i] >= 0 && (a == c.after[i] || Behind(c, c.after[i], a))
  }

  /** A job that was started follows a whole chain of jobs that succeeded and closed `done`. */
  lemma {:induction false} ChainSucceeded(c: Config, s: State, i: nat, a: nat)
    requires c.Valid() && Reachable(c, s)
    requires i < |c.after| == |s.started| && s.started[i] && Behind(c, i, a)
    ensures Succeeded(s, a)
    decreases i
  {
    ReachableInv(c, s);
    var b := c.after[i];
    assert PastWait(s, i);
    assert Succeeded(s, b) && JobOk(s, b);
    if a != b {
      ChainSucceeded(c, s, b, a);
    }
  }

  /** No job behind one that failed ever runs, writes to its log or to bin/. */
  lemma NothingBehindFailure(c: Config, s: State, i: nat, a: nat)
    requires c.Valid() && Reachable(c, s)
    requires i < |c.after| == |s.errs| == |s.started| && Behind(c, i, a) && a < |s.errs| && s.errs[a].Some?
    ensures !s.started[i]
  {
    if s.started[i] {
      ChainSucceeded(c, s, i, a);
    }
  }

  lemma {:induction false} SameNameBehind(c: Config, i: nat, k: nat)
    requires c.Valid() && AfterLastNamed(c.names, c.after)
    requires i < k < |c.names| && c.names[i] == c.names[k]
    ensures Behind(c, k, i)
    decreases k
  {
    LastNamedIsLast(c.names, k, c.names[k]);
    if c.after[k] != i {
      SameNameBehind(c, i, c.after[k]);
    }
  }

  /** Of two jobs with one binary name the later starts only once the earlier has succeeded: they never overlap. */
  lemma SameNameNeverOverlap(c: Config, s: State, i: nat, k: nat)
    requires c.Valid() && AfterLastNamed(c.names, c.after) && Reachable(c, s)
    requires i < k < |c.names| && c.names[i] == c.names[k]
    requires |s.started| == |s.phase| == |c.after| && s.started[k]
    ensures Succeeded(s, i) && s.phase[i] != Running
  {
    SameNameBehind(c, i, k);
    ChainSucceeded(c, s, k, i);
  }

  // ---- bin/ ----

  /** bin/<name> holds the output of the last job with that name that has written one. */
  ghost predicate Bins(c: Config, s: State)
    requires Sized(c, s) && c.Valid()
  {
    && (forall i :: 0 <= i < |s.made| && s.made[i] ==> c.names[i] in s.bin && i <= s.bin[c.names[i]])
    && (forall x :: x in s.bin ==> s.bin[x] < |s.made| && s.made[s.bin[x]] && c.names[s.bin[x]] == x)
  }

  lemma KeepsBins(c: Config, s: State, a: Action)
    requires c.Valid() && AfterLastNamed(c.names, c.after) && Reachable(c, s) && Inv(c, s)
    requires Bins(c, s) && Enabled(c, s, a) && Sized(c, Apply(c, s, a))
    ensures Bins(c, Apply(c, s, a))
  {
    if a.Output? {
      NoLaterMade(c, s, a.i);
      OutputBins(c, s, a.i);
    } else {
      OnlyOutputWritesBin(c, s, a);
    }
  }

  /** A write keeps the bins, if nothing behind it has written the file. */
  lemma OutputBins(c: Config, s: State, i: nat)
    requires c.Valid() && Sized(c, s) && Bins(c, s) && Enabled(c, s, Output(i)) && Sized(c, Apply(c, s, Output(i)))
    requires forall k :: 0 <= k < |s.made| && s.made[k] && c.names[k] == c.names[i] ==> k <= i
    ensures Bins(c, Apply(c, s, Output(i)))
  {
  }

  lemma OnlyOutputWritesBin(c: Config, s: State, a: Action)
    requires c.Valid() && Sized(c, s) && Enabled(c, s, a) && !a.Output?
    ensures var t := Apply(c, s, a); t.made == s.made && t.bin == s.bin
  {
  }

  /** While a job runs no later one with its name has written the file. */
  lemma NoLaterMade(c: Config, s: State, i: nat)
    requires c.Valid() && AfterLastNamed(c.names, c.after) && Reachable(c, s) && Inv(c, s)
    requires At(s, i, Running)
    ensures forall k :: 0 <= k < |s.made| && s.made[k] && c.names[k] == c.names[i] ==> k <= i
  {
    forall k | 0 <= k < |s.made| && s.made[k] && c.names[k] == c.names[i]
      ensures k <= i
    {
      assert JobOk(s, k);
      if k > i {
        SameNameNeverOverlap(c, s, i, k);
      }
    }
  }

  lemma {:induction false} RunAppend(c: Config, s: State, acts: seq<Action>, t: State, a: Action)
    requires c.Valid() && Run(c, s, acts, t) && Sized(c, t) && Enabled(c, t, a)
    ensures Run(c, s, acts + [a], Apply(c, t, a))
    decreases |acts|
  {
    if |acts| > 0 {
      RunAppend(c, Apply(c, s, acts[0]), acts[1..], t, a);
      assert (acts + [a])[1..] == acts[1..] + [a];
    } else {
      assert (acts + [a])[1..] == [];
    }
  }

  lemma ReachableNext(c: Config, s: State, a: Action)
    requires c.Valid() && Reachable(c, s) && Sized(c, s) && Enabled(c, s, a)
    ensures Reachable(c, Apply(c, s, a))
  {
    var acts :| Run(c, Init(c), acts, s);
    RunAppend(c, Init(c), acts, s, a);
  }

  lemma {:induction false} RunKeepsBins(c: Config, s: State, acts: seq<Action>, t: State)
    requires c.Valid() && AfterLastNamed(c.names, c.after) && Reachable(c, s)
    requires Sized(c, s) && Bins(c, s) && Run(c, s, acts, t)
    ensures Sized(c, t) && Bins(c, t)
    decreases |acts|
  {
    if |acts| > 0 {
      ReachableInv(c, s);
      ReachableNext(c, s, acts[0]);
      Touches(c, s, acts[0]);
      KeepsBins(c, s, acts[0]);
      RunKeepsBins(c, Apply(c, s, acts[0]), acts[1..], t);
    }
  }

  /** A run that succeeds leaves in bin/<name> the output of the last listed subPackage with that name. */
  lemma LastListedWins(c: Config, s: State, i: nat)
    requires c.Valid() && AfterLastNamed(c.names, c.after) && Reachable(c, s) && Final(c, s)
    requires Outcome(s.errs, s.waitErr) == None
    requires i < |c.names| && forall k :: i < k < |c.names| ==> c.names[k] != c.names[i]
    ensures c.names[i] in s.bin && s.bin[c.names[i]] == i
  {
    NilIffAllSucceeded(c, s);
    ReachableInv(c, s);
    assert JobOk(s, i);
    assert Run(c, Init(c), [], Init(c));
    var acts :| Run(c, Init(c), acts, s);
    RunKeepsBins(c, Init(c), acts, s);
  }

  // ---- Cancellation ----

  lemma StartsNothing(c: Config, s: State, a: Action)
    requires c.Valid() && Sized(c, s) && Enabled(c, s, a) && s.cancelled && s.waitErr.Some?
    ensures var t := Apply(c, s, a); t.started == s.started && t.waitErr == s.waitErr && t.cancelled
  {
  }

  lemma {:induction false} RunStartsNothing(c: Config, s: State, acts: seq<Action>, t: State)
    requires c.Valid() && Inv(c, s) && s.cancelled && Run(c, s, acts, t)
    ensures t.started == s.started && t.waitErr == s.waitErr
    decreases |acts|
  {
    if |acts| > 0 {
      StartsNothing(c, s, acts[0]);
      KeepsInv(c, s, acts[0]);
      RunStartsNothing(c, Apply(c, s, acts[0]), acts[1..], t);
    }
  }

  /** The first failure stops the others: once a failed job has let go of its slot no further job is ever started. */
  lemma NoneStartedAfterFailure(c: Config, s: State, i: nat, acts: seq<Action>, t: State)
    requires c.Valid() && Reachable(c, s) && Run(c, s, acts, t)
    requires i < |s.phase| == |s.errs| && s.phase[i] == Exited && s.errs[i].Some?
    ensures t.started == s.started && t.waitErr == s.waitErr && s.waitErr.Some?
  {
    ReachableInv(c, s);
    assert JobOk(s, i);
    RunStartsNothing(c, s, acts, t);
  }

  // ---- No deadlock ----

  function Rank(p: Phase): nat {
    match p
    case Idle => 8
    case Waiting => 7
    case Checking => 6
    case Running => 5
    case Flushing => 4
    case Closing => 3
    case Reporting => 2
    case Releasing => 1
    case Exited => 0
  }

  function Measure(phase: seq<Phase>): nat {
    if |phase| == 0 then 0 else Rank(phase[0]) + Measure(phase[1..])
  }

  lemma {:induction false} MeasureUpdate(phase: seq<Phase>, i: nat, p: Phase)
    requires i < |phase|
    ensures Measure(phase[i := p]) == Measure(phase) - Rank(phase[i]) + Rank(p)
  {
    if i == 0 {
      assert phase[i := p][1..] == phase[1..];
    } else {
      MeasureUpdate(phase[1..], i - 1, p);
      assert phase[i := p][1..] == phase[1..][i - 1 := p];
    }
  }

  /** Every action but a job's writes brings the jobs closer to their end; a write leaves the phases alone. */
  lemma MeasureDecreases(c: Config, s: State, a: Action)
    requires c.Valid() && Reachable(c, s) && Sized(c, s) && Enabled(c, s, a)
    ensures var t := Apply(c, s, a);
      if a.Log? || a.Output? then t.phase == s.phase else Measure(t.phase) < Measure(s.phase)
  {
    ReachableInv(c, s);
    Touches(c, s, a);
    var t, j := Apply(c, s, a), Subject(s, a);
    assert JobOk(s, j);
    MovesOn(c, s, a);
    MeasureUpdate(s.phase, j, t.phase[j]);
  }

  lemma MovesOn(c: Config, s: State, a: Action)
    requires c.Valid() && Sized(c, s) && Enabled(c, s, a) && Subject(s, a) < |s.phase|
    requires a.Admit? ==> s.phase[s.admitted] == Idle
    requires |Apply(c, s, a).phase| == |s.phase|
    ensures var t, j := Apply(c, s, a), Subject(s, a);
      if a.Log? || a.Output? then t.phase == s.phase else Rank(t.phase[j]) < Rank(s.phase[j])
  {
  }

  function Steps(acts: seq<Action>): nat {
    if |acts| == 0 then 0 else (if acts[0].Log? || acts[0].Output? then 0 else 1) + Steps(acts[1..])
  }

  lemma {:induction false} RunSteps(c: Config, s: State, acts: seq<Action>, t: State)
    requires c.Valid() && Reachable(c, s) && Run(c, s, acts, t)
    ensures Steps(acts) + Measure(t.phase) <= Measure(s.phase)
    decreases |acts|
  {
    if |acts| > 0 {
      MeasureDecreases(c, s, acts[0]);
      ReachableNext(c, s, acts[0]);
      RunSteps(c, Apply(c, s, acts[0]), acts[1..], t);
    }
  }

  lemma {:induction false} MeasureBound(phase: seq<Phase>)
    ensures Measure(phase) <= 8 * |phase|
  {
    if |phase| > 0 {
      MeasureBound(phase[1..]);
    }
  }

  /** No run of n jobs has more than 8n steps that are not writes of a job. */
  lemma RunsAreBounded(c: Config, acts: seq<Action>, t: State)
    requires c.Valid() && Run(c, Init(c), acts, t)
    ensures Steps(acts) <= 8 * |c.after|
  {
    assert Run(c, Init(c), [], Init(c));
    RunSteps(c, Init(c), acts, t);
    MeasureBound(Init(c).phase);
  }

  /** Enabled, and a step of the protocol itself: nothing has to wait for a job. */
  ghost predicate ProtocolStep(c: Config, s: State, a: Action)
    requires c.Valid() && Sized(c, s)
  {
    Enabled(c, s, a) && !a.OfJob()
  }

  /**
    Unless the limit is 0 a state that is not final is never stuck: a job is running, or the
    protocol has a step, also when every slot is held by a waiting job.
   */
  lemma NeverStuck(c: Config, s: State)
    requires c.Valid() && c.limit != 0 && Reachable(c, s) && !Final(c, s)
    ensures Sized(c, s)
    ensures (exists i :: 0 <= i < |s.phase| && s.phase[i] == Running) || exists a :: ProtocolStep(c, s, a)
  {
    ReachableInv(c, s);
    if i :| 0 <= i < |s.phase| && Active(s.phase[i]) && s.phase[i] != Waiting {
      var a := match s.phase[i]
        case Checking => Check(i)
        case Flushing => Flush(i)
        case Closing => Close(i)
        case Reporting => Report(i)
        case Releasing => Release(i)
        case _ => Admit;
      assert s.phase[i] != Running ==> ProtocolStep(c, s, a);
    } else if i :| 0 <= i < |s.phase| && s.phase[i] == Waiting {
      LowestWaiterWakes(c, s, i);
    } else {
      SlotsFree(s.phase);
      if s.admitted < |c.after| {
        assert ProtocolStep(c, s, Admit);
      } else {
        forall i | 0 <= i < |s.phase|
          ensures s.phase[i] == Exited
        {
          assert JobOk(s, i);
        }
        assert false;
      }
    }
  }

  lemma {:induction false} LowestWaiterWakes(c: Config, s: State, i: nat)
    requires c.Valid() && Inv(c, s) && i < |s.phase| && s.phase[i] == Waiting
    requires forall k :: 0 <= k < |s.phase| && Active(s.phase[k]) ==> s.phase[k] == Waiting
    ensures exists a :: ProtocolStep(c, s, a)
    decreases i
  {
    var b := c.after[i];
    assert JobOk(s, i);
    if b >= 0 {
      assert JobOk(s, b);
      if s.phase[b] == Waiting {
        LowestWaiterWakes(c, s, b);
      } else {
        assert ProtocolStep(c, s, WakeDone(i));
      }
    }
  }

  /** SetLimit(0) admits nobody: with any job at all the first state is stuck. */
  lemma LimitZeroIsStuck(c: Config, a: Action)
    requires c.Valid() && c.limit == 0 && |c.after| > 0
    ensures Reachable(c, Init(c)) && !Final(c, Init(c)) && !Enabled(c, Init(c), a)
  {
    assert Run(c, Init(c), [], Init(c));
    SlotsFree(Init(c).phase);
  }
}
