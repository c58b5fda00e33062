/**
  runLinkJobs (go/go2nix/cmd/go2nix/linkbinary.go): n link jobs on at most `limit` goroutines
  of an errgroup, as a state machine whose actions are the steps other goroutines can see.

  A job goes through the phases of its goroutine: the deferred calls run flush, then close
  `done`; errgroup then records and cancels on an error, and frees the slot last. `Go` takes
  the slot in the calling loop, so jobs are admitted in index order. The parent context is
  never cancelled (the one caller passes context.Background()).
 */
module LinkJobs {
  import opened Wrappers

  datatype Error = Canceled | Own(text: string)

  datatype Phase =
    | Idle       // g.Go has not been given a slot for it
    | Waiting    // in the select on done[after[i]] and gctx.Done()
    | Checking   // about to read gctx.Err()
    | Running    // in run
    | Flushing   // errs[i] is set, deferred flush(i) is next
    | Closing    // flushed, deferred close(done[i]) is next
    | Reporting  // done[i] is closed, errgroup looks at the error next
    | Releasing  // an error has cancelled the group, the slot is still taken
    | Exited

  /** after[i] is -1 or a job before i; names[i] is the file in bin/ that job i writes. */
  datatype Config = Config(limit: int, after: seq<int>, names: seq<string>) {
    ghost predicate Valid() {
      |after| == |names| && forall i :: 0 <= i < |after| ==> -1 <= after[i] < i
    }

    predicate Unbuffered() {
      |after| == 1 || limit == 1
    }
  }

  /** What mu guards: which jobs are finished, the next log to print, and what w has received. */
  datatype Printer = Printer(finished: seq<bool>, next: nat, stopped: bool, out: string)

  datatype State = State(
    admitted: nat,                // jobs the loop around g.Go has got past
    phase: seq<Phase>,
    errs: seq<Option<Error>>,
    cancelled: bool,              // gctx
    waitErr: Option<Error>,       // what g.Wait returns
    printer: Printer,
    wrote: seq<string>,           // history: what each job wrote to its log
    started: seq<bool>,           // history: run was called
    made: seq<bool>,              // history: the job's linker has written its output file
    bin: map<string, nat>)        // bin/<name>: the job whose output it holds

  predicate OwnFailure(e: Option<Error>) {
    e.Some? && e.value.Own?
  }

  function Init(c: Config): State {
    var n := |c.after|;
    State(0, seq(n, _ => Idle), seq(n, _ => None), false, None,
          Printer(seq(n, _ => false), 0, false, ""),
          seq(n, _ => ""), seq(n, _ => false), seq(n, _ => false), map[])
  }

  // ---- Actions ----

  datatype Action =
    | Admit
    | WakeDone(i: nat)
    | WakeCancelled(i: nat)
    | Check(i: nat)
    | Log(i: nat, text: string)
    | Output(i: nat)
    | Return(i: nat, err: Option<Error>)
    | Flush(i: nat)
    | Close(i: nat)
    | Report(i: nat)
    | Release(i: nat)
  {
    /** A step of the job itself, not of the protocol around it. */
    predicate OfJob() {
      Log? || Output? || Return?
    }
  }

  predicate Active(p: Phase) {
    p != Idle && p != Exited
  }

  predicate DoneClosed(p: Phase) {
    p == Reporting || p == Releasing || p == Exited
  }

  function Slots(phase: seq<Phase>): nat {
    if |phase| == 0 then 0 else (if Active(phase[0]) then 1 else 0) + Slots(phase[1..])
  }

  predicate At(s: State, i: nat, p: Phase) {
    i < |s.phase| && s.phase[i] == p
  }

  predicate Sized(c: Config, s: State) {
    var n := |c.after|;
    && |s.phase| == |s.errs| == |s.wrote| == |s.started| == |s.made| == |s.printer.finished| == n
    && s.admitted <= n
    && s.printer.next <= n
  }

  predicate Enabled(c: Config, s: State, a: Action)
    requires Sized(c, s) && c.Valid()
  {
    match a
    case Admit => s.admitted < |c.after| && (c.limit < 0 || Slots(s.phase) < c.limit)
    case WakeDone(i) => At(s, i, Waiting) && c.after[i] >= 0 && DoneClosed(s.phase[c.after[i]])
    case WakeCancelled(i) => At(s, i, Waiting) && s.cancelled
    case Check(i) => At(s, i, Checking)
    case Log(i, _) => At(s, i, Running)
    case Output(i) => At(s, i, Running)
    case Return(i, err) =>
      && At(s, i, Running)
      && (err == None ==> s.made[i])                 // a link that succeeds has written its output
      && (err == Some(Canceled) ==> s.cancelled)     // a job reports Canceled only when cancelled
    case Flush(i) => At(s, i, Flushing)
    case Close(i) => At(s, i, Closing)
    case Report(i) => At(s, i, Reporting)
    case Release(i) => At(s, i, Releasing)
  }

  function Move(s: State, i: nat, p: Phase): State
    requires i < |s.phase|
  {
    s.(phase := s.phase[i := p])
  }

  /** The loop of flush: print finished logs in index order, up to the first own failure. */
  function Advance(p: Printer, errs: seq<Option<Error>>, logs: seq<string>): Printer
    requires |errs| == |logs| == |p.finished|
    decreases |errs| - p.next
  {
    if !p.stopped && p.next < |errs| && p.finished[p.next] then
      Advance(p.(next := p.next + 1, stopped := OwnFailure(errs[p.next]), out := p.out + logs[p.next]), errs, logs)
    else p
  }

  /** The buffers: in unbuffered mode the log goes straight to w and they stay empty. */
  function Buffers(c: Config, s: State): seq<string> {
    if c.Unbuffered() then seq(|s.wrote|, _ => "") else s.wrote
  }

  function Apply(c: Config, s: State, a: Action): State
    requires Sized(c, s) && c.Valid() && Enabled(c, s, a)
  {
    match a
    case Admit =>
      Move(s, s.admitted, if c.after[s.admitted] >= 0 then Waiting else Checking).(admitted := s.admitted + 1)
    case WakeDone(i) =>
      if s.errs[c.after[i]].Some? then Move(s, i, Flushing).(errs := s.errs[i := Some(Canceled)])
      else Move(s, i, Checking)
    case WakeCancelled(i) => Move(s, i, Checking)
    case Check(i) =>
      if s.cancelled then Move(s, i, Flushing).(errs := s.errs[i := Some(Canceled)])
      else Move(s, i, Running).(started := s.started[i := true])
    case Log(i, text) =>
      s.(wrote := s.wrote[i := s.wrote[i] + text],
         printer := if c.Unbuffered() then s.printer.(out := s.printer.out + text) else s.printer)
    case Output(i) => s.(bin := s.bin[c.names[i] := i], made := s.made[i := true])
    case Return(i, err) => Move(s, i, Flushing).(errs := s.errs[i := err])
    case Flush(i) =>
      var marked := s.printer.(finished := s.printer.finished[i := true]);
      Move(s, i, Closing).(printer := Advance(marked, s.errs, Buffers(c, s)))
    case Close(i) => Move(s, i, Reporting)
    case Report(i) =>
      var next := Move(s, i, Releasing);
      if s.errs[i].Some? then next.(waitErr := if s.waitErr.Some? then s.waitErr else s.errs[i], cancelled := true)
      else next
    case Release(i) => Move(s, i, Exited)
  }

  /** A run: any interleaving of enabled actions. */
  ghost predicate Run(c: Config, s: State, acts: seq<Action>, t: State)
    requires c.Valid()
    decreases |acts|
  {
    if |acts| == 0 then s == t
    else Sized(c, s) && Enabled(c, s, acts[0]) && Run(c, Apply(c, s, acts[0]), acts[1..], t)
  }

  ghost predicate Reachable(c: Config, s: State)
    requires c.Valid()
  {
    exists acts :: Run(c, Init(c), acts, s)
  }

  predicate Final(c: Config, s: State) {
    s.admitted == |c.after| && forall i :: 0 <= i < |s.phase| ==> s.phase[i] == Exited
  }

  /** The variables flush updates under mu, in place. */
  class LogPrinter {
    var finished: seq<bool>
    var next: nat
    var stopped: bool
    var out: string

    constructor (n: nat)
      ensures Value() == Printer(seq(n, _ => false), 0, false, "")
    {
      finished, next, stopped, out := seq(n, _ => false), 0, false, "";
    }

    function Value(): Printer
      reads this
    {
      Printer(finished, next, stopped, out)
    }

    /** flush(i), with the errors and buffers as they are while mu is held. */
    method Flush(i: nat, errs: seq<Option<Error>>, logs: seq<string>)
      requires i < |errs| == |logs| == |finished|
      modifies this
      ensures Value() == Advance(old(Value()).(finished := old(finished)[i := true]), errs, logs)
    {
      finished := finished[i := true];
      ghost var marked := Value();
      while !stopped && next < |finished| && finished[next]
        invariant finished == marked.finished
        invariant Advance(Value(), errs, logs) == Advance(marked, errs, logs)
        decreases |finished| - next
      {
        out := out + logs[next];
        stopped := OwnFailure(errs[next]);
        next := next + 1;
      }
    }
  }
}
