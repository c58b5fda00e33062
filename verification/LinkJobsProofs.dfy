/** What every interleaving of the link jobs keeps, and what a finished run has done. */
module LinkJobsProofs {
  import opened Wrappers
  import opened LinkJobs

  predicate Past(p: Phase) {
    p == Flushing || p == Closing || DoneClosed(p)
  }

  // ---- The invariant ----

  /** What a job's phase says about its error, its history and the group. */
  ghost predicate JobOk(s: State, i: nat)
    requires i < |s.phase| == |s.errs| == |s.wrote| == |s.started| == |s.made| == |s.printer.finished|
  {
    var p := s.phase[i];
    && (p == Idle <==> i >= s.admitted)
    && (s.printer.finished[i] <==> p == Closing || DoneClosed(p))
    && (s.started[i] ==> p == Running || Past(p))
    && (p == Running ==> s.started[i])
    && (s.made[i] || s.wrote[i] != "" ==> s.started[i])
    && (s.errs[i].Some? ==> Past(p))
    && (Past(p) && s.errs[i] == None ==> s.started[i] && s.made[i])
    && ((p == Releasing || p == Exited) && s.errs[i].Some? ==> s.cancelled)
  }

  ghost predicate Jobs(c: Config, s: State) {
    Sized(c, s) && forall i :: 0 <= i < |s.phase| ==> JobOk(s, i)
  }

  ghost predicate SomeOwnFailure(errs: seq<Option<Error>>) {
    exists i :: 0 <= i < |errs| && OwnFailure(errs[i])
  }

  /** Nothing is cancelled but behind a job that failed for a reason of its own. */
  ghost predicate Blame(s: State) {
    && s.cancelled == s.waitErr.Some?
    && (s.cancelled ==> SomeOwnFailure(s.errs))
    && (forall i :: 0 <= i < |s.errs| && s.errs[i].Some? ==> SomeOwnFailure(s.errs))
  }

  ghost predicate Succeeded(s: State, i: nat) {
    i < |s.phase| == |s.errs| == |s.made| && DoneClosed(s.phase[i]) && s.errs[i] == None && s.made[i]
  }

  ghost predicate PastWait(s: State, i: nat)
    requires i < |s.phase| == |s.started|
  {
    s.started[i] || (s.phase[i] == Checking && !s.cancelled)
  }

  /** A job that was started, or is past its wait and not cancelled, follows one that succeeded. */
  ghost predicate Waits(c: Config, s: State)
    requires Sized(c, s) && c.Valid()
  {
    && (forall i :: 0 <= i < |s.phase| && c.after[i] >= 0 && PastWait(s, i) ==> Succeeded(s, c.after[i]))
    && (forall i :: 0 <= i < |s.phase| && s.phase[i] == Waiting ==> c.after[i] >= 0)
  }

  ghost predicate SlotsOk(c: Config, s: State) {
    c.limit >= 0 ==> Slots(s.phase) <= c.limit
  }

  /** next logs are out, the last of them is the only own failure among them if printing stopped. */
  ghost predicate PrinterOk(s: State)
    requires |s.errs| == |s.printer.finished| && s.printer.next <= |s.errs|
  {
    var p := s.printer;
    && (forall i :: 0 <= i < p.next ==> p.finished[i])
    && (forall i :: 0 <= i < p.next - 1 ==> !OwnFailure(s.errs[i]))
    && (p.stopped <==> p.next > 0 && OwnFailure(s.errs[p.next - 1]))
  }

  ghost predicate Drained(s: State)
    requires s.printer.next <= |s.printer.finished|
  {
    var p := s.printer;
    p.stopped || p.next == |p.finished| || !p.finished[p.next]
  }

  /** Logs 0 to k-1, one behind the other. */
  function Joined(logs: seq<string>, k: nat): string
    requires k <= |logs|
  {
    if k == 0 then "" else Joined(logs, k - 1) + logs[k - 1]
  }

  ghost predicate Printed(c: Config, s: State)
    requires Sized(c, s)
  {
    if c.Unbuffered() then
      && (forall i :: 0 <= i < s.admitted - 1 ==> s.phase[i] == Exited)
      && s.printer.out == Joined(s.wrote, s.admitted)
    else s.printer.out == Joined(s.wrote, s.printer.next)
  }

  /** One at a time, no job is started behind one that failed. */
  ghost predicate StopsOnError(c: Config, s: State)
    requires Sized(c, s)
  {
    c.Unbuffered() ==> forall i, j :: 0 <= i < j < |s.phase| && s.errs[i].Some? ==> !s.started[j]
  }

  ghost predicate Inv(c: Config, s: State)
    requires c.Valid()
  {
    && Jobs(c, s) && Blame(s) && Waits(c, s) && SlotsOk(c, s)
    && PrinterOk(s) && Drained(s) && Printed(c, s) && StopsOnError(c, s)
  }

  // ---- Slots and joined logs ----

  lemma {:induction false} SlotsUpdate(phase: seq<Phase>, i: nat, p: Phase)
    requires i < |phase|
    ensures Slots(phase[i := p]) ==
            Slots(phase) - (if Active(phase[i]) then 1 else 0) + (if Active(p) then 1 else 0)
  {
    if i == 0 {
      assert phase[i := p][1..] == phase[1..];
    } else {
      SlotsUpdate(phase[1..], i - 1, p);
      assert phase[i := p][1..] == phase[1..][i - 1 := p];
    }
  }

  lemma {:induction false} SlotsTaken(phase: seq<Phase>, i: nat)
    requires i < |phase| && Active(phase[i])
    ensures Slots(phase) >= 1
  {
    if i > 0 {
      SlotsTaken(phase[1..], i - 1);
    }
  }

  lemma {:induction false} SlotsFree(phase: seq<Phase>)
    requires forall i :: 0 <= i < |phase| ==> !Active(phase[i])
    ensures Slots(phase) == 0
  {
    if |phase| > 0 {
      SlotsFree(phase[1..]);
    }
  }

  lemma {:induction false} JoinedSame(a: seq<string>, b: seq<string>, k: nat)
    requires k <= |a| && k <= |b| && forall i :: 0 <= i < k ==> a[i] == b[i]
    ensures Joined(a, k) == Joined(b, k)
  {
    if k > 0 {
      JoinedSame(a, b, k - 1);
    }
  }

  lemma {:induction false} JoinedRest(logs: seq<string>, k: nat, m: nat)
    requires k <= m <= |logs| && forall i :: k <= i < m ==> logs[i] == ""
    ensures Joined(logs, k) == Joined(logs, m)
  {
    if k < m {
      JoinedRest(logs, k, m - 1);
    }
  }

  // ---- Every action keeps it ----

  lemma {:induction false} AdvanceBounds(p: Printer, errs: seq<Option<Error>>, logs: seq<string>)
    requires |errs| == |logs| == |p.finished| && p.next <= |errs|
    ensures var q := Advance(p, errs, logs);
      q.finished == p.finished && p.next <= q.next <= |errs|
    decreases |errs| - p.next
  {
    if !p.stopped && p.next < |errs| && p.finished[p.next] {
      AdvanceBounds(p.(next := p.next + 1, stopped := OwnFailure(errs[p.next]), out := p.out + logs[p.next]), errs,
        logs);
    }
  }

  /** The job an action is about: the only one whose phase or error it changes. */
  function Subject(s: State, a: Action): nat {
    if a.Admit? then s.admitted else a.i
  }

  lemma Touches(c: Config, s: State, a: Action)
    requires c.Valid() && Sized(c, s) && Enabled(c, s, a)
    ensures var t, j := Apply(c, s, a), Subject(s, a);
      && j < |s.phase| && Sized(c, t)
      && t.phase == s.phase[j := t.phase[j]] && t.errs == s.errs[j := t.errs[j]]
      && t.started == s.started[j := t.started[j]] && t.made == s.made[j := t.made[j]]
      && t.wrote == s.wrote[j := t.wrote[j]]
      && t.printer.finished == s.printer.finished[j := t.printer.finished[j]]
      && (s.cancelled ==> t.cancelled) && s.admitted <= t.admitted <= s.admitted + 1
      && (a != Admit ==> s.admitted == t.admitted)
  {
    TouchesPrinter(c, s, a);
    TouchesHistory(c, s, a);
    TouchesPhase(c, s, a);
  }

  lemma TouchesPhase(c: Config, s: State, a: Action)
    requires c.Valid() && Sized(c, s) && Enabled(c, s, a)
    ensures var t, j := Apply(c, s, a), Subject(s, a);
      && j < |s.phase| == |t.phase| && |t.errs| == |s.errs|
      && t.phase == s.phase[j := t.phase[j]] && t.errs == s.errs[j := t.errs[j]]
  {
  }

  lemma TouchesHistory(c: Config, s: State, a: Action)
    requires c.Valid() && Sized(c, s) && Enabled(c, s, a)
    ensures var t, j := Apply(c, s, a), Subject(s, a);
      && j < |s.phase| && |t.started| == |s.started| && |t.made| == |s.made| && |t.wrote| == |s.wrote|
      && t.started == s.started[j := t.started[j]] && t.made == s.made[j := t.made[j]]
      && t.wrote == s.wrote[j := t.wrote[j]]
  {
  }

  lemma TouchesPrinter(c: Config, s: State, a: Action)
    requires c.Valid() && Sized(c, s) && Enabled(c, s, a)
    ensures var t, j := Apply(c, s, a), Subject(s, a);
      && j < |s.phase| && |t.printer.finished| == |s.printer.finished| && t.printer.next <= |s.printer.finished|
      && t.printer.finished == s.printer.finished[j := t.printer.finished[j]]
      && (s.cancelled ==> t.cancelled) && s.admitted <= t.admitted <= s.admitted + 1
      && (a != Admit ==> s.admitted == t.admitted) && t.admitted <= |c.after|
  {
    if a.Flush? {
      AdvanceBounds(s.printer.(finished := s.printer.finished[a.i := true]), s.errs, Buffers(c, s));
    }
  }

  lemma KeepsSubject(c: Config, s: State, a: Action)
    requires c.Valid() && Sized(c, s) && Enabled(c, s, a) && Subject(s, a) < |s.phase| && JobOk(s, Subject(s, a))
    requires Sized(c, Apply(c, s, a))
    ensures JobOk(Apply(c, s, a), Subject(s, a))
  {
    if a.OfJob() || a.Check? {
      KeepsActing(c, s, a);
    } else {
      KeepsPassing(c, s, a);
    }
  }

  lemma KeepsActing(c: Config, s: State, a: Action)
    requires c.Valid() && Sized(c, s) && Enabled(c, s, a) && (a.OfJob() || a.Check?) && JobOk(s, a.i)
    requires Sized(c, Apply(c, s, a))
    ensures JobOk(Apply(c, s, a), a.i)
  {
  }

  lemma KeepsPassing(c: Config, s: State, a: Action)
    requires c.Valid() && Sized(c, s) && Enabled(c, s, a) && !a.OfJob() && !a.Check?
    requires Subject(s, a) < |s.phase| && JobOk(s, Subject(s, a)) && Sized(c, Apply(c, s, a))
    ensures JobOk(Apply(c, s, a), Subject(s, a))
  {
    if a.Flush? {
      KeepsFlushed(c, s, a.i);
    }
  }

  lemma KeepsFlushed(c: Config, s: State, i: nat)
    requires c.Valid() && Sized(c, s) && Enabled(c, s, Flush(i))
    requires i < |s.phase| && JobOk(s, i) && Sized(c, Apply(c, s, Flush(i)))
    ensures JobOk(Apply(c, s, Flush(i)), i)
  {
    AdvanceBounds(s.printer.(finished := s.printer.finished[i := true]), s.errs, Buffers(c, s));
  }

  lemma KeepsJobs(c: Config, s: State, a: Action)
    requires c.Valid() && Jobs(c, s) && Enabled(c, s, a)
    ensures Jobs(c, Apply(c, s, a))
  {
    Touches(c, s, a);
    KeepsSubject(c, s, a);
    var t := Apply(c, s, a);
    forall i | 0 <= i < |t.phase|
      ensures JobOk(t, i)
    {
      assert JobOk(s, i);
    }
  }

  lemma KeepsBlame(c: Config, s: State, a: Action)
    requires c.Valid() && Jobs(c, s) && Blame(s) && Enabled(c, s, a)
    ensures Blame(Apply(c, s, a))
  {
    Touches(c, s, a);
    var t, j := Apply(c, s, a), Subject(s, a);
    assert JobOk(s, j);
    if SomeOwnFailure(s.errs) {
      var i :| 0 <= i < |s.errs| && OwnFailure(s.errs[i]);
      assert t.errs[i] == s.errs[i];
    } else if OwnFailure(t.errs[j]) {
      assert SomeOwnFailure(t.errs);
    }
  }

  lemma KeepsWaits(c: Config, s: State, a: Action)
    requires c.Valid() && Jobs(c, s) && Waits(c, s) && Enabled(c, s, a)
    requires Jobs(c, Apply(c, s, a))
    ensures Waits(c, Apply(c, s, a))
  {
    Touches(c, s, a);
    var t, j := Apply(c, s, a), Subject(s, a);
    forall i | 0 <= i < |t.phase| && c.after[i] >= 0 && PastWait(t, i)
      ensures Succeeded(t, c.after[i])
    {
      assert JobOk(s, i) && JobOk(s, c.after[i]);
      if PastWait(s, i) {
        StaysSucceeded(c, s, a, c.after[i]);
      }
    }
  }

  /** A job whose `done` is closed keeps its result. */
  lemma StaysSucceeded(c: Config, s: State, a: Action, i: nat)
    requires c.Valid() && Jobs(c, s) && Enabled(c, s, a) && Succeeded(s, i)
    ensures Succeeded(Apply(c, s, a), i)
  {
    Touches(c, s, a);
    assert JobOk(s, i);
    assert i == Subject(s, a) ==> a.Report? || a.Release?;
  }

  lemma KeepsSlots(c: Config, s: State, a: Action)
    requires c.Valid() && Jobs(c, s) && SlotsOk(c, s) && Enabled(c, s, a)
    ensures SlotsOk(c, Apply(c, s, a))
  {
    Touches(c, s, a);
    var t, j := Apply(c, s, a), Subject(s, a);
    assert JobOk(s, j);
    SlotsUpdate(s.phase, j, t.phase[j]);
  }

  // ---- Printing ----

  lemma {:induction false} AdvanceKeeps(p: Printer, errs: seq<Option<Error>>, logs: seq<string>)
    requires |errs| == |logs| == |p.finished| && p.next <= |errs|
    requires forall i :: 0 <= i < p.next ==> p.finished[i]
    requires forall i :: 0 <= i < p.next - 1 ==> !OwnFailure(errs[i])
    requires p.stopped <==> p.next > 0 && OwnFailure(errs[p.next - 1])
    ensures var q := Advance(p, errs, logs);
      && q.finished == p.finished && p.next <= q.next <= |errs|
      && (forall i :: 0 <= i < q.next ==> q.finished[i])
      && (forall i :: 0 <= i < q.next - 1 ==> !OwnFailure(errs[i]))
      && (q.stopped <==> q.next > 0 && OwnFailure(errs[q.next - 1]))
      && (q.stopped || q.next == |q.finished| || !q.finished[q.next])
    decreases |errs| - p.next
  {
    if !p.stopped && p.next < |errs| && p.finished[p.next] {
      var q := p.(next := p.next + 1, stopped := OwnFailure(errs[p.next]), out := p.out + logs[p.next]);
      AdvanceKeeps(q, errs, logs);
    }
  }

  lemma {:induction false} AdvancePrints(p: Printer, errs: seq<Option<Error>>, logs: seq<string>)
    requires |errs| == |logs| == |p.finished| && p.next <= |errs|
    requires p.out == Joined(logs, p.next)
    ensures var q := Advance(p, errs, logs); q.next <= |errs| && q.out == Joined(logs, q.next)
    decreases |errs| - p.next
  {
    if !p.stopped && p.next < |errs| && p.finished[p.next] {
      AdvancePrints(p.(next := p.next + 1, stopped := OwnFailure(errs[p.next]), out := p.out + logs[p.next]), errs,
        logs);
    }
  }

  lemma {:induction false} AdvanceSilent(p: Printer, errs: seq<Option<Error>>, logs: seq<string>)
    requires |errs| == |logs| == |p.finished| && forall i :: 0 <= i < |logs| ==> logs[i] == ""
    ensures Advance(p, errs, logs).out == p.out
    decreases |errs| - p.next
  {
    if !p.stopped && p.next < |errs| && p.finished[p.next] {
      AdvanceSilent(p.(next := p.next + 1, stopped := OwnFailure(errs[p.next]), out := p.out + logs[p.next]), errs,
        logs);
    }
  }

  lemma KeepsPrinter(c: Config, s: State, a: Action)
    requires c.Valid() && Jobs(c, s) && PrinterOk(s) && Drained(s) && Enabled(c, s, a)
    requires Sized(c, Apply(c, s, a))
    ensures PrinterOk(Apply(c, s, a)) && Drained(Apply(c, s, a))
  {
    if a.Flush? {
      AdvanceKeeps(s.printer.(finished := s.printer.finished[a.i := true]), s.errs, Buffers(c, s));
    } else {
      OnlyFlushPrints(c, s, a);
    }
  }

  /** Outside flush the printer changes in `out` at most, and finished jobs keep their errors. */
  lemma OnlyFlushPrints(c: Config, s: State, a: Action)
    requires c.Valid() && Jobs(c, s) && Enabled(c, s, a) && !a.Flush?
    ensures var t := Apply(c, s, a);
      && t.printer == s.printer.(out := t.printer.out)
      && (!a.Log? || !c.Unbuffered() ==> t.printer == s.printer)
      && |t.errs| == |s.errs|
      && forall i :: 0 <= i < |s.errs| && s.printer.finished[i] ==> t.errs[i] == s.errs[i]
  {
    var j := Subject(s, a);
    assert j < |s.phase| && JobOk(s, j);
  }

  lemma KeepsPrinted(c: Config, s: State, a: Action)
    requires c.Valid() && Jobs(c, s) && PrinterOk(s) && Printed(c, s) && SlotsOk(c, s) && Enabled(c, s, a)
    requires Jobs(c, Apply(c, s, a))
    ensures Printed(c, Apply(c, s, a))
  {
    Touches(c, s, a);
    assert JobOk(s, Subject(s, a));
    if c.Unbuffered() {
      KeepsUnbuffered(c, s, a);
    } else {
      KeepsBuffered(c, s, a);
    }
  }

  lemma KeepsBuffered(c: Config, s: State, a: Action)
    requires c.Valid() && Jobs(c, s) && PrinterOk(s) && Printed(c, s) && Enabled(c, s, a)
    requires Sized(c, Apply(c, s, a)) && !c.Unbuffered()
    ensures Printed(c, Apply(c, s, a))
  {
    var t, j := Apply(c, s, a), Subject(s, a);
    match a
    case Flush(i) =>
      AdvancePrints(s.printer.(finished := s.printer.finished[i := true]), s.errs, s.wrote);
    case Log(i, _) =>
      assert JobOk(s, i);
      JoinedSame(s.wrote, t.wrote, s.printer.next);
    case _ =>
  }

  lemma KeepsUnbuffered(c: Config, s: State, a: Action)
    requires c.Valid() && Jobs(c, s) && Printed(c, s) && SlotsOk(c, s) && Enabled(c, s, a)
    requires Jobs(c, Apply(c, s, a)) && c.Unbuffered()
    ensures Printed(c, Apply(c, s, a))
  {
    Touches(c, s, a);
    var j := Subject(s, a);
    assert JobOk(s, j);
    if a.Admit? {
      AdmitWritesNothing(c, s);
    } else {
      Writes(c, s, a);
      assert j == s.admitted - 1;
      JoinedSame(s.wrote, Apply(c, s, a).wrote, j);
    }
  }

  lemma AdmitWritesNothing(c: Config, s: State)
    requires c.Valid() && Jobs(c, s) && Printed(c, s) && SlotsOk(c, s) && Enabled(c, s, Admit)
    requires Jobs(c, Apply(c, s, Admit)) && c.Unbuffered() && JobOk(s, Subject(s, Admit))
    ensures Printed(c, Apply(c, s, Admit))
  {
    Writes(c, s, Admit);
    AdmitsOneByOne(c, s);
    assert s.wrote[Subject(s, Admit)] == "" && Apply(c, s, Admit).wrote == s.wrote;
  }

  /** In unbuffered mode w receives what the acting job writes, when it writes it. */
  lemma Writes(c: Config, s: State, a: Action)
    requires c.Valid() && Sized(c, s) && Enabled(c, s, a) && c.Unbuffered()
    ensures var t, j, text := Apply(c, s, a), Subject(s, a), if a.Log? then a.text else "";
      && j < |s.wrote| && t.wrote == s.wrote[j := s.wrote[j] + text]
      && t.printer.out == s.printer.out + text
  {
    if a.Flush? {
      AdvanceSilent(s.printer.(finished := s.printer.finished[a.i := true]), s.errs, Buffers(c, s));
    }
    var j := Subject(s, a);
    assert j < |s.wrote| && s.wrote[j] + "" == s.wrote[j];
    assert s.printer.out + "" == s.printer.out;
  }

  /** With one slot, or one job, the job before is gone when the next is admitted. */
  lemma AdmitsOneByOne(c: Config, s: State)
    requires c.Valid() && Jobs(c, s) && Printed(c, s) && SlotsOk(c, s) && Enabled(c, s, Admit) && c.Unbuffered()
    ensures forall i :: 0 <= i < s.admitted ==> s.phase[i] == Exited
  {
    if s.admitted > 0 {
      var last := s.admitted - 1;
      assert JobOk(s, last);
      if Active(s.phase[last]) {
        SlotsTaken(s.phase, last);
      }
    }
  }

  lemma KeepsStops(c: Config, s: State, a: Action)
    requires c.Valid() && Jobs(c, s) && Printed(c, s) && StopsOnError(c, s) && Enabled(c, s, a)
    requires Sized(c, Apply(c, s, a))
    ensures StopsOnError(c, Apply(c, s, a))
  {
    Touches(c, s, a);
    var t, j := Apply(c, s, a), Subject(s, a);
    assert JobOk(s, j);
    if c.Unbuffered() {
      forall i, k | 0 <= i < k < |t.phase| && t.errs[i].Some?
        ensures !t.started[k]
      {
        assert JobOk(s, i) && JobOk(s, k);
        assert i == j ==> !s.started[k];
        assert k == j && a.Check? ==> s.errs[i] == t.errs[i];
      }
    }
  }

  // ---- Every reachable state ----

  lemma KeepsInv(c: Config, s: State, a: Action)
    requires c.Valid() && Inv(c, s) && Enabled(c, s, a)
    ensures Inv(c, Apply(c, s, a))
  {
    KeepsJobs(c, s, a);
    KeepsBlame(c, s, a);
    KeepsWaits(c, s, a);
    KeepsSlots(c, s, a);
    KeepsPrinter(c, s, a);
    KeepsPrinted(c, s, a);
    KeepsStops(c, s, a);
  }

  lemma {:induction false} RunKeepsInv(c: Config, s: State, acts: seq<Action>, t: State)
    requires c.Valid() && Inv(c, s) && Run(c, s, acts, t)
    ensures Inv(c, t)
    decreases |acts|
  {
    if |acts| > 0 {
      KeepsInv(c, s, acts[0]);
      RunKeepsInv(c, Apply(c, s, acts[0]), acts[1..], t);
    }
  }

  lemma ReachableInv(c: Config, s: State)
    requires c.Valid() && Reachable(c, s)
    ensures Inv(c, s)
  {
    SlotsFree(Init(c).phase);
    var acts :| Run(c, Init(c), acts, s);
    RunKeepsInv(c, Init(c), acts, s);
  }

  /** At most `limit` jobs hold a slot. */
  lemma SlotBound(c: Config, s: State)
    requires c.Valid() && Reachable(c, s) && c.limit >= 0
    ensures Slots(s.phase) <= c.limit
  {
    ReachableInv(c, s);
  }

  /**
    What has reached w, at any moment: with buffers the logs of jobs 0 to next-1, all of them
    finished and none but the last a failure of its own; without, all that was written.
   */
  lemma LogsInOrder(c: Config, s: State)
    requires c.Valid() && Reachable(c, s)
    ensures s.printer.next <= |s.wrote| == |s.errs| == |s.printer.finished| && s.admitted <= |s.wrote|
    ensures !c.Unbuffered() ==> s.printer.out == Joined(s.wrote, s.printer.next)
    ensures c.Unbuffered() ==> s.printer.out == Joined(s.wrote, s.admitted)
    ensures forall i :: 0 <= i < s.printer.next ==> s.printer.finished[i]
    ensures forall i :: 0 <= i < s.printer.next - 1 ==> !OwnFailure(s.errs[i])
    ensures s.printer.next < |s.errs| && s.printer.finished[s.printer.next] ==>
              s.printer.next > 0 && OwnFailure(s.errs[s.printer.next - 1])
  {
    ReachableInv(c, s);
  }

  // ---- The end of a run ----

  /** The error runLinkJobs returns: that of the lowest own failure, else what g.Wait returned. */
  function Outcome(errs: seq<Option<Error>>, waitErr: Option<Error>): Option<Error> {
    if |errs| == 0 then waitErr
    else if OwnFailure(errs[0]) then errs[0]
    else Outcome(errs[1..], waitErr)
  }

  /** The loop over errs after g.Wait. */
  method ChooseError(errs: seq<Option<Error>>, waitErr: Option<Error>) returns (r: Option<Error>)
    ensures r == Outcome(errs, waitErr)
  {
    for i := 0 to |errs|
      invariant Outcome(errs, waitErr) == Outcome(errs[i..], waitErr)
    {
      assert errs[i..][0] == errs[i] && errs[i..][1..] == errs[i + 1..];
      if OwnFailure(errs[i]) {
        return errs[i];
      }
    }
    assert errs[|errs|..] == [];
    return waitErr;
  }

  ghost predicate LowestOwnFailure(errs: seq<Option<Error>>, f: nat) {
    f < |errs| && OwnFailure(errs[f]) && forall i :: 0 <= i < f ==> !OwnFailure(errs[i])
  }

  lemma {:induction false} OutcomeIsLowest(errs: seq<Option<Error>>, waitErr: Option<Error>, f: nat)
    requires LowestOwnFailure(errs, f)
    ensures Outcome(errs, waitErr) == errs[f]
  {
    if f > 0 {
      assert !OwnFailure(errs[0]);
      assert LowestOwnFailure(errs[1..], f - 1);
      OutcomeIsLowest(errs[1..], waitErr, f - 1);
    }
  }

  lemma {:induction false} OutcomeIsWait(errs: seq<Option<Error>>, waitErr: Option<Error>)
    requires forall i :: 0 <= i < |errs| ==> !OwnFailure(errs[i])
    ensures Outcome(errs, waitErr) == waitErr
  {
    if |errs| > 0 {
      OutcomeIsWait(errs[1..], waitErr);
    }
  }

  /**
    A run that has ended with an own failure returns the lowest one, and has printed the logs
    up to and including that job's, and nothing else.
   */
  lemma FailedRun(c: Config, s: State, f: nat)
    requires c.Valid() && Reachable(c, s) && Final(c, s) && LowestOwnFailure(s.errs, f)
    ensures |s.wrote| == |s.errs|
    ensures Outcome(s.errs, s.waitErr) == s.errs[f]
    ensures s.printer.out == Joined(s.wrote, f + 1)
  {
    ReachableInv(c, s);
    OutcomeIsLowest(s.errs, s.waitErr, f);
    forall i | 0 <= i < |s.errs|
      ensures s.printer.finished[i]
    {
      assert JobOk(s, i);
    }
    if c.Unbuffered() {
      forall i | f < i < |s.wrote|
        ensures s.wrote[i] == ""
      {
        assert JobOk(s, i);
      }
      JoinedRest(s.wrote, f + 1, s.admitted);
    } else {
      assert s.printer.next == f + 1;
    }
  }

  /** A run that has ended without an own failure has succeeded in every job, returns nil and has printed every log. */
  lemma SucceededRun(c: Config, s: State)
    requires c.Valid() && Reachable(c, s) && Final(c, s) && !SomeOwnFailure(s.errs)
    ensures forall i :: 0 <= i < |s.errs| ==> Succeeded(s, i)
    ensures Outcome(s.errs, s.waitErr) == None
    ensures |s.wrote| == |s.errs| && s.printer.out == Joined(s.wrote, |s.wrote|)
  {
    ReachableInv(c, s);
    OutcomeIsWait(s.errs, s.waitErr);
    forall i | 0 <= i < |s.errs|
      ensures Succeeded(s, i) && s.printer.finished[i]
    {
      assert JobOk(s, i);
    }
  }

  /** nil is returned exactly when every job succeeded. */
  lemma NilIffAllSucceeded(c: Config, s: State)
    requires c.Valid() && Reachable(c, s) && Final(c, s)
    ensures Outcome(s.errs, s.waitErr) == None <==> forall i :: 0 <= i < |s.errs| ==> s.errs[i] == None
  {
    ReachableInv(c, s);
    if SomeOwnFailure(s.errs) {
      var f := FirstOwnFailure(s.errs);
      OutcomeIsLowest(s.errs, s.waitErr, f);
    } else {
      SucceededRun(c, s);
    }
  }

  lemma FirstOwnFailure(errs: seq<Option<Error>>) returns (f: nat)
    requires SomeOwnFailure(errs)
    ensures LowestOwnFailure(errs, f)
  {
    f := 0;
    while !OwnFailure(errs[f])
      invariant f < |errs| && forall i :: 0 <= i < f ==> !OwnFailure(errs[i])
      decreases |errs| - f
    {
      if f + 1 == |errs| {
        var i :| 0 <= i < |errs| && OwnFailure(errs[i]);
        assert false;
      }
      f := f + 1;
    }
  }
}
