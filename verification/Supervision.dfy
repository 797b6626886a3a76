/**
 Supervision of the workers as a state machine (workers.go): the thread that owns the registry, the timer that
 ends a limited run, and one thread for each worker. Signals are handed over by rendezvous, so a send is a step
 only when the worker is at its select.
 */
module Supervision {
  import opened Text
  import opened WorkerRegistry

  /**
   Where a worker is: at its select, re-reading its configuration, handing a SIGHUP over to its connection loop,
   interrupted, stopped by its own failure and about to report it, having reported it, or past the call of Done.
   */
  datatype Phase = AtSelect | Rereading | HandingOver | Interrupted | Failing | Reported | Done

  /**
   Where a worker's connection loop is: not started, connecting or streaming and so going to look for a signal, looping
   on an unknown vendor, in a mixed subscription without paths, at its status send, or over. Only a busy loop ever takes
   a signal.
   */
  datatype Work = NoWork | Busy | Looping | Hung | Ending | Over

  /** leaked tells that one half of a mixed subscription outlives the other and may still take a signal. */
  datatype Worker = Worker(file: string, phase: Phase, work: Work, leaked: bool)

  function NewWorker(file: string): Worker {
    Worker(file, AtSelect, NoWork, false)
  }

  /** What the owner of the registry is doing. */
  datatype Program =
    | Adding(rest: seq<string>)
    | Sending(signal: Signal, todo: set<nat>, leave: bool)
    | Waiting
    | Reconciling(list: seq<string>, rest: seq<string>)
    | Starting(list: seq<string>, rest: seq<string>, worker: nat)
    | Removing(unlisted: set<string>)
    | Left

  /**
   wg is the counter of the wait group; adding tells that a worker is registered whose Add is still to come;
   status is the channel of failed workers, which holds one; dialOut tells that no connection loops are started.
   */
  datatype State = State(
    workers: seq<Worker>, registry: Registry, wg: int, adding: bool, status: seq<string>,
    program: Program, expired: bool, dialOut: bool)

  function Initial(files: seq<string>, dialOut: bool): State {
    State([], map[], 0, false, [], Adding(files), false, dialOut)
  }

  datatype Action =
    | Register(loads: bool) | Add | Begin
    | SendTo(worker: nat) | SendDone
    | OnHup(read: Option<seq<string>>) | OnInterrupt | OnStatus
    | VisitListed(loads: bool) | Continue | RemoveBegin | Remove(file: string) | RemoveDone
    | Expire | MaxRun(worker: nat)
    | Reread(worker: nat, changed: bool, known: bool) | HandOver(worker: nat, toLeaked: bool)
    | Loop(worker: nat) | Hang(worker: nat) | End(worker: nat) | Leak(worker: nat) | Unleak(worker: nat)
    | Fail(worker: nat) | Report(worker: nat) | CallDone(worker: nat)

  function With(s: State, i: nat, w: Worker): State
    requires i < |s.workers|
  {
    s.(workers := s.workers[i := w])
  }

  /** What a signal does to the worker that takes it. */
  function Signalled(w: Worker, signal: Signal, dialOut: bool): Worker {
    match signal
    case SIGCONT => if dialOut then w else w.(work := Busy)
    case SIGHUP => w.(phase := Rereading)
    case Interrupt => w.(phase := Interrupted)
  }

  /** Hand a signal to a worker; it takes it only at its select. */
  function Deliver(s: State, i: nat, signal: Signal): Option<State> {
    if i >= |s.workers| || !s.workers[i].phase.AtSelect? then None
    else Some(With(s, i, Signalled(s.workers[i], signal, s.dialOut)))
  }

  /** Start a worker for a file and register it. */
  function Create(s: State, file: string): State {
    s.(workers := s.workers + [NewWorker(file)], registry := s.registry[file := |s.workers|], adding := true)
  }

  /** A step of the owner of the registry. */
  function OwnerNext(s: State, act: Action): Option<State> {
    match (s.program, act)
    case (Adding(rest), Register(loads)) =>               // workers.go:103-106, 123-125
      if rest == [] then None
      else Some((if loads then Create(s, rest[0]) else s).(program := Adding(rest[1..])))
    case (Adding(rest), Begin) =>                         // workers.go:88-94
      if rest != [] then None
      else Some(s.(program := if s.dialOut then Waiting else Sending(SIGCONT, s.registry.Values, false)))
    case (Sending(signal, todo, leave), SendTo(i)) =>     // workers.go:89-91, 192-194, 197-199
      var t := Deliver(s, i, signal);
      if i !in todo || t.None? then None
      else Some(t.value.(program := Sending(signal, todo - {i}, leave)))
    case (Sending(signal, todo, leave), SendDone) =>
      if todo != {} then None else Some(s.(program := if leave then Left else Waiting))
    case (Waiting, OnHup(file)) =>                        // workers.go:186-195
      Some(s.(program := if file.None? then Sending(SIGHUP, s.registry.Values, false)
        else Reconciling(file.value, file.value)))
    case (Waiting, OnInterrupt) =>                        // workers.go:196-200
      Some(s.(program := Sending(Interrupt, s.registry.Values, true)))
    case (Waiting, OnStatus) =>                           // workers.go:202-205
      if s.status == [] then None
      else Some(s.(registry := s.registry - {s.status[0]}, status := s.status[1..]))
    case (Reconciling(list, rest), VisitListed(loads)) =>      // workers.go:150-162
      if rest == [] then None
      else if rest[0] in s.registry then
        var t := Deliver(s, s.registry[rest[0]], SIGHUP);
        if t.None? then None else Some(t.value.(program := Reconciling(list, rest[1..])))
      else if loads then Some(Create(s, rest[0]).(program := Starting(list, rest[1..], |s.workers|)))
      else Some(s.(program := Reconciling(list, rest[1..])))
    case (Starting(list, rest, i), Continue) =>           // workers.go:114-119
      var t := Deliver(s, i, SIGCONT);
      if t.None? then None else Some(t.value.(program := Reconciling(list, rest)))
    case (Reconciling(list, rest), RemoveBegin) =>
      if rest != [] then None else Some(s.(program := Removing(set f | f in s.registry && f !in list)))
    case (Removing(todo), Remove(file)) =>                // workers.go:164-171
      if file !in todo || file !in s.registry then None
      else
        var t := Deliver(s, s.registry[file], Interrupt);
        if t.None? then None
        else Some(t.value.(registry := s.registry - {file}, program := Removing(todo - {file})))
    case (Removing(todo), RemoveDone) =>
      if todo != {} then None else Some(s.(program := Waiting))
    case _ => None
  }

  /** A step of a worker or of its connection loop. */
  function WorkerNext(w: Worker, dialOut: bool, act: Action): Option<Worker> {
    match act
    case Reread(_, changed, known) =>                     // workers.go:323-350
      if !w.phase.Rereading? then None
      else if dialOut || !changed then Some(w.(phase := AtSelect))
      else Some(w.(phase := HandingOver, work := if w.work.Looping? && known then Busy else w.work))
    case HandOver(_, toLeaked) =>                         // workers.go:330, 709; subscribe_gnmi.go:625
      if !w.phase.HandingOver? || !(if toLeaked then w.leaked else w.work.Busy?) then None
      else Some(w.(phase := AtSelect, leaked := w.leaked && !toLeaked))
    case Loop(_) =>                                       // workers.go:687-693
      if !w.work.Busy? then None else Some(w.(work := Looping))
    case Hang(_) =>                                       // multi_vendor.go:99-107
      if !w.work.Busy? then None else Some(w.(work := Hung))
    case End(_) =>                                        // workers.go:696, 702, 714, 807, 811
      if !w.work.Busy? then None else Some(w.(work := Ending))
    case Leak(_) =>                                       // multi_vendor.go:84-106
      if !w.work.Busy? then None else Some(w.(leaked := true))
    case Unleak(_) =>
      if !w.leaked then None else Some(w.(leaked := false))
    case Fail(_) =>                                       // workers.go:357
      if !w.phase.AtSelect? || !w.work.Ending? then None else Some(w.(phase := Failing, work := Over))
    case _ => None
  }

  /** A step of the timer, the Add after a registration, or a worker's step that others see. */
  function OtherNext(s: State, act: Action): Option<State> {
    match act
    case Add =>                                           // workers.go:126
      if !s.adding then None else Some(s.(adding := false, wg := s.wg + 1))
    case Expire =>                                        // workers.go:131-136
      if s.program.Adding? || (s.program.Sending? && s.program.signal.SIGCONT?) then None
      else Some(s.(expired := true))
    case MaxRun(i) =>                                     // workers.go:137-139
      if !s.expired || i >= |s.workers| || !RegisteredAt(s, i) then None else Deliver(s, i, Interrupt)
    case Report(i) =>                                     // workers.go:360
      if i >= |s.workers| || !s.workers[i].phase.Failing? || |s.status| >= 1 then None
      else Some(With(s, i, s.workers[i].(phase := Reported)).(status := s.status + [s.workers[i].file]))
    case CallDone(i) =>                                   // workers.go:311, 361
      if i >= |s.workers| || !(s.workers[i].phase.Interrupted? || s.workers[i].phase.Reported?) then None
      else Some(With(s, i, s.workers[i].(phase := Done)).(wg := s.wg - 1))
    case _ => None
  }

  predicate WorkerAct(act: Action) {
    || act.Reread? || act.HandOver? || act.Loop? || act.Hang? || act.End? || act.Leak? || act.Unleak? || act.Fail?
  }

  predicate OwnerAct(act: Action) {
    !WorkerAct(act) && !(act.Add? || act.Expire? || act.MaxRun? || act.Report? || act.CallDone?)
  }

  /** One step; None if it cannot be taken. The owner goes on only after its pending Add. */
  function Next(s: State, act: Action): Option<State> {
    if OwnerAct(act) then if s.adding then None else OwnerNext(s, act)
    else if WorkerAct(act) then
      if act.worker >= |s.workers| then None
      else
        var w := WorkerNext(s.workers[act.worker], s.dialOut, act);
        if w.None? then None else Some(With(s, act.worker, w.value))
    else OtherNext(s, act)
  }

  /** The state after a run of steps; None if some step could not be taken. */
  function Exec(s: State, acts: seq<Action>): Option<State> {
    if acts == [] then Some(s)
    else
      var before := Exec(s, acts[..|acts| - 1]);
      if before.None? then None else Next(before.value, acts[|acts| - 1])
  }

  // ---------- the invariant ----------

  function Bool(b: bool): nat {
    if b then 1 else 0
  }

  /** How many workers have not called Done. */
  function Unfinished(workers: seq<Worker>): nat {
    if workers == [] then 0
    else Unfinished(workers[..|workers| - 1]) + Bool(!workers[|workers| - 1].phase.Done?)
  }

  /** Alive and not sent an Interrupt; a failing worker is alive until it has reported. */
  predicate Live(w: Worker) {
    w.phase.AtSelect? || w.phase.Rereading? || w.phase.HandingOver? || w.phase.Failing?
  }

  /** The worker at i is registered under its own file. */
  predicate RegisteredAt(s: State, i: nat)
    requires i < |s.workers|
  {
    s.workers[i].file in s.registry && s.registry[s.workers[i].file] == i
  }

  ghost predicate RegistryOk(s: State) {
    forall f :: f in s.registry ==> s.registry[f] < |s.workers| && s.workers[s.registry[f]].file == f
  }

  ghost predicate LiveOk(s: State) {
    forall i :: 0 <= i < |s.workers| && Live(s.workers[i]) ==> RegisteredAt(s, i)
  }

  /** A status message is about a registered worker that has reported. */
  ghost predicate StatusOk(s: State) {
    && |s.status| <= 1
    && (forall f :: f in s.status ==>
          f in s.registry && s.registry[f] < |s.workers| &&
          (s.workers[s.registry[f]].phase.Reported? || s.workers[s.registry[f]].phase.Done?))
  }

  ghost predicate CounterOk(s: State) {
    s.wg == Unfinished(s.workers) - Bool(s.adding)
  }

  predicate Distinct(files: seq<string>) {
    forall i, j :: 0 <= i < j < |files| ==> files[i] != files[j]
  }

  /** The files still to be added at the start are distinct and not registered. */
  ghost predicate AddingOk(s: State) {
    s.program.Adding? ==> Distinct(s.program.rest) && forall i :: 0 <= i < |s.program.rest| ==>
                                                        s.program.rest[i] !in s.registry
  }

  ghost predicate Inv(s: State) {
    RegistryOk(s) && LiveOk(s) && StatusOk(s) && CounterOk(s) && AddingOk(s)
  }

  // ---------- steps keep the invariant ----------

  lemma {:induction false} UnfinishedUpdate(workers: seq<Worker>, i: nat, w: Worker)
    requires i < |workers|
    ensures Unfinished(workers[i := w]) == Unfinished(workers) - Bool(!workers[i].phase.Done?) + Bool(!w.phase.Done?)
  {
    var k := |workers| - 1;
    if i < k {
      UnfinishedUpdate(workers[..k], i, w);
      assert workers[i := w][..k] == workers[..k][i := w];
    } else {
      assert workers[i := w][..k] == workers[..k];
    }
  }

  /** Moving one worker on from a phase in which it has not reported or called Done. */
  lemma WorkerKeeps(s: State, i: nat, w: Worker)
    requires Inv(s) && i < |s.workers| && w.file == s.workers[i].file
    requires s.workers[i].phase.Reported? || s.workers[i].phase.Done? ==> w.phase == s.workers[i].phase || w.phase.Done?
    requires Live(w) ==> RegisteredAt(s, i)
    ensures var t := With(s, i, w);
      && RegistryOk(t) && LiveOk(t) && StatusOk(t) && AddingOk(t)
      && t.wg == Unfinished(t.workers) - Bool(t.adding) + Bool(w.phase.Done? && !s.workers[i].phase.Done?)
  {
    UnfinishedUpdate(s.workers, i, w);
    var t := With(s, i, w);
    forall j | 0 <= j < |t.workers| && Live(t.workers[j]) ensures RegisteredAt(t, j) {
      assert j != i ==> Live(s.workers[j]);
      assert RegisteredAt(s, j);
    }
  }

  lemma DeliverKeeps(s: State, i: nat, signal: Signal)
    requires Inv(s) && Deliver(s, i, signal).Some?
    ensures Inv(Deliver(s, i, signal).value)
    ensures signal.Interrupt? ==> !Live(Deliver(s, i, signal).value.workers[i])
  {
    assert Live(s.workers[i]);
    WorkerKeeps(s, i, Signalled(s.workers[i], signal, s.dialOut));
  }

  lemma CreateKeeps(s: State, file: string)
    requires Inv(s) && !s.adding && file !in s.registry && !s.program.Adding?
    ensures Inv(Create(s, file))
  {
    CreateKeepsMost(s, file);
  }

  lemma CreateKeepsMost(s: State, file: string)
    requires Inv(s) && !s.adding && file !in s.registry
    ensures var t := Create(s, file); RegistryOk(t) && LiveOk(t) && StatusOk(t) && CounterOk(t)
  {
    var t := Create(s, file);
    assert t.workers[..|s.workers|] == s.workers;
    forall j | 0 <= j < |t.workers| && Live(t.workers[j]) ensures RegisteredAt(t, j) {
      if j < |s.workers| {
        assert Live(s.workers[j]);
        assert RegisteredAt(s, j);
      }
    }
  }

  lemma DistinctTail(files: seq<string>)
    requires files != [] && Distinct(files)
    ensures Distinct(files[1..])
    ensures forall i :: 0 <= i < |files[1..]| ==> files[1..][i] == files[i + 1] && files[i + 1] != files[0]
  {
  }

  lemma RegisterKeeps(s: State, loads: bool)
    requires Inv(s) && Next(s, Register(loads)).Some?
    ensures Inv(Next(s, Register(loads)).value)
  {
    var rest := s.program.rest;
    DistinctTail(rest);
    if loads {
      CreateKeepsMost(s, rest[0]);
      LiveCopies(Create(s, rest[0]), Next(s, Register(loads)).value);
    } else {
      LiveCopies(s, Next(s, Register(loads)).value);
    }
  }

  /** Taking a file out of the registry whose worker is not live and has no message pending. */
  lemma DropKeeps(s: State, file: string)
    requires Inv(s) && file in s.registry && !Live(s.workers[s.registry[file]]) && file !in s.status
    ensures Inv(s.(registry := s.registry - {file}))
  {
    var t := s.(registry := s.registry - {file});
    forall j | 0 <= j < |t.workers| && Live(t.workers[j]) ensures RegisteredAt(t, j) {
      assert Live(s.workers[j]);
      assert RegisteredAt(s, j);
    }
  }

  lemma StatusKeeps(s: State)
    requires Inv(s) && Next(s, OnStatus).Some?
    ensures Inv(Next(s, OnStatus).value)
  {
    assert s.status[0] in s.status;
    assert s.status[1..] == [];
    var u := s.(status := []);
    assert LiveOk(u) by {
      forall j | 0 <= j < |u.workers| && Live(u.workers[j]) ensures RegisteredAt(u, j) {
        assert Live(s.workers[j]);
        assert RegisteredAt(s, j);
      }
    }
    DropKeeps(u, s.status[0]);
  }

  lemma RemoveKeeps(s: State, file: string)
    requires Inv(s) && Next(s, Remove(file)).Some?
    ensures Inv(Next(s, Remove(file)).value)
  {
    var i := s.registry[file];
    DeliverKeeps(s, i, Interrupt);
    var t := Deliver(s, i, Interrupt).value;
    assert t.workers[i].file == file;
    DropKeeps(t, file);
    ProgramKeeps(t.(registry := s.registry - {file}), Next(s, Remove(file)).value.program);
  }

  lemma ProgramKeeps(s: State, program: Program)
    requires Inv(s) && !program.Adding?
    ensures Inv(s.(program := program))
  {
    var t := s.(program := program);
    forall j | 0 <= j < |t.workers| && Live(t.workers[j]) ensures RegisteredAt(t, j) {
      assert RegisteredAt(s, j);
    }
  }

  lemma OwnerKeeps(s: State, act: Action)
    requires Inv(s) && OwnerAct(act) && Next(s, act).Some?
    ensures Inv(Next(s, act).value)
  {
    hide Inv;
    var t := Next(s, act).value;
    match act
    case Register(loads) => RegisterKeeps(s, loads);
    case SendTo(i) =>
      DeliverKeeps(s, i, s.program.signal);
      ProgramKeeps(Deliver(s, i, s.program.signal).value, t.program);
    case OnStatus => StatusKeeps(s);
    case VisitListed(loads) => ListedKeeps(s, loads);
    case Continue =>
      DeliverKeeps(s, s.program.worker, SIGCONT);
      ProgramKeeps(Deliver(s, s.program.worker, SIGCONT).value, t.program);
    case Remove(file) => RemoveKeeps(s, file);
    case _ => ProgramKeeps(s, t.program);
  }

  lemma ListedKeeps(s: State, loads: bool)
    requires Inv(s) && Next(s, VisitListed(loads)).Some?
    ensures Inv(Next(s, VisitListed(loads)).value)
  {
    hide Inv;
    var t := Next(s, VisitListed(loads)).value;
    var file := s.program.rest[0];
    if file in s.registry {
      DeliverKeeps(s, s.registry[file], SIGHUP);
      ProgramKeeps(Deliver(s, s.registry[file], SIGHUP).value, t.program);
    } else if loads {
      CreateKeeps(s, file);
      ProgramKeeps(Create(s, file), t.program);
    } else {
      ProgramKeeps(s, t.program);
    }
  }

  lemma OtherKeeps(s: State, act: Action)
    requires Inv(s) && !OwnerAct(act) && !WorkerAct(act) && Next(s, act).Some?
    ensures Inv(Next(s, act).value)
  {
    var t := Next(s, act).value;
    match act
    case MaxRun(i) => DeliverKeeps(s, i, Interrupt);
    case Report(i) =>
      assert Live(s.workers[i]);
      WorkerKeeps(s, i, s.workers[i].(phase := Reported));
      LiveCopies(With(s, i, s.workers[i].(phase := Reported)), t);
    case CallDone(i) =>
      WorkerKeeps(s, i, s.workers[i].(phase := Done));
      LiveCopies(With(s, i, s.workers[i].(phase := Done)), t);
    case _ => LiveCopies(s, t);
  }

  lemma WorkerActKeeps(s: State, act: Action)
    requires Inv(s) && WorkerAct(act) && Next(s, act).Some?
    ensures Inv(Next(s, act).value)
  {
    var i := act.worker;
    var w := WorkerNext(s.workers[i], s.dialOut, act).value;
    assert Live(w) ==> Live(s.workers[i]);
    WorkerKeeps(s, i, w);
  }

  lemma LiveCopies(s: State, t: State)
    requires LiveOk(s) && t.workers == s.workers && t.registry == s.registry
    ensures LiveOk(t)
  {
    forall j | 0 <= j < |t.workers| && Live(t.workers[j]) ensures RegisteredAt(t, j) {
      assert RegisteredAt(s, j);
    }
  }

  /** Every state reached from distinct files keeps the invariant. */
  lemma {:induction false} Reachable(files: seq<string>, dialOut: bool, acts: seq<Action>)
    requires Distinct(files) && Exec(Initial(files, dialOut), acts).Some?
    ensures Inv(Exec(Initial(files, dialOut), acts).value)
  {
    if acts != [] {
      hide Inv;
      var before, act := acts[..|acts| - 1], acts[|acts| - 1];
      Reachable(files, dialOut, before);
      var s := Exec(Initial(files, dialOut), before).value;
      if OwnerAct(act) {
        OwnerKeeps(s, act);
      } else if WorkerAct(act) {
        WorkerActKeeps(s, act);
      } else {
        OtherKeeps(s, act);
      }
    }
  }

  // ---------- what holds in every run ----------

  /**
   The counter is the number of workers that have not called Done, less the Add that is still to come; so it is
   negative exactly when all of them have called Done before that Add.
   */
  lemma CounterCountsWorkers(files: seq<string>, dialOut: bool, acts: seq<Action>, s: State)
    requires Distinct(files) && Exec(Initial(files, dialOut), acts) == Some(s)
    ensures s.wg == Unfinished(s.workers) - Bool(s.adding)
    ensures s.wg < 0 <==> s.adding && Unfinished(s.workers) == 0
  {
    Reachable(files, dialOut, acts);
  }

  /** A live worker that was not interrupted is registered under its file; so no two of them serve one file. */
  lemma LiveAreRegistered(files: seq<string>, dialOut: bool, acts: seq<Action>, s: State, i: nat, j: nat)
    requires Distinct(files) && Exec(Initial(files, dialOut), acts) == Some(s)
    requires i < |s.workers| && j < |s.workers| && Live(s.workers[i]) && Live(s.workers[j])
    ensures RegisteredAt(s, i)
    ensures s.workers[i].file == s.workers[j].file ==> i == j
  {
    hide Exec;
    Reachable(files, dialOut, acts);
    assert RegisteredAt(s, i) && RegisteredAt(s, j);
  }

  /** A status message removes the worker that sent it, and that one is past its report. */
  lemma StatusRemovesDead(files: seq<string>, dialOut: bool, acts: seq<Action>, s: State)
    requires Distinct(files) && Exec(Initial(files, dialOut), acts) == Some(s) && s.status != []
    ensures var f := s.status[0];
      && f in s.registry && s.registry[f] < |s.workers|
      && s.workers[s.registry[f]].file == f
      && (s.workers[s.registry[f]].phase.Reported? || s.workers[s.registry[f]].phase.Done?)
  {
    hide Exec;
    Reachable(files, dialOut, acts);
    assert s.status[0] in s.status;
  }

  /** A status message takes its file out of the registry, and so does a removal; no other file is touched. */
  lemma RemovalsRemove(s: State, file: string)
    ensures Next(s, OnStatus).Some? ==>
      var t := Next(s, OnStatus).value;
      s.status != [] && t.status == s.status[1..] && t.registry == s.registry - {s.status[0]}
    ensures Next(s, Remove(file)).Some? ==>
      var t := Next(s, Remove(file)).value;
      && file in s.registry && s.registry[file] < |s.workers| && t.registry == s.registry - {file}
      && t.workers == s.workers[s.registry[file] := s.workers[s.registry[file]].(phase := Interrupted)]
  {
  }

  /** A visit in a reconciliation: a registered worker gets its SIGHUP, a file that loads a worker of its own. */
  lemma VisitDoes(s: State, loads: bool)
    requires s.program.Reconciling? && s.program.rest != [] && Next(s, VisitListed(loads)).Some?
    ensures var t, file := Next(s, VisitListed(loads)).value, s.program.rest[0];
      && (file in s.registry ==>
            && s.registry[file] < |s.workers| && s.workers[s.registry[file]].phase.AtSelect? && t.registry == s.registry
            && t.workers == s.workers[s.registry[file] := s.workers[s.registry[file]].(phase := Rereading)])
      && (file !in s.registry && loads ==>
            && t.workers == s.workers + [Worker(file, AtSelect, NoWork, false)] && t.adding
            && t.registry == s.registry[file := |s.workers|] && t.program.Starting? && t.program.worker == |s.workers|)
      && (file !in s.registry && !loads ==> t.workers == s.workers && t.registry == s.registry)
  {
  }

  /** A signal to all workers goes to every registered one, and only then is the owner done. */
  lemma BroadcastDoes(s: State)
    requires s.program.Waiting? && !s.adding
    ensures Next(s, OnHup(None)) == Some(s.(program := Sending(SIGHUP, s.registry.Values, false)))
    ensures Next(s, OnInterrupt) == Some(s.(program := Sending(Interrupt, s.registry.Values, true)))
  {
  }

  // ---------- exactly distinct files ----------

  /** Append a step to a run. */
  function Then(s: State, acts: seq<Action>, act: Action): (r: seq<Action>)
    ensures Exec(s, r) == if Exec(s, acts).None? then None else Next(Exec(s, acts).value, act)
  {
    assert (acts + [act])[..|acts|] == acts;
    acts + [act]
  }

  lemma NoSteps(s: State)
    ensures Exec(s, []) == Some(s)
  {
  }

  /** The run that adds the first n files, all of which load. */
  lemma {:induction false} AddFiles(files: seq<string>, dialOut: bool, n: nat) returns (acts: seq<Action>)
    requires n <= |files|
    ensures Exec(Initial(files, dialOut), acts).Some?
    ensures var s := Exec(Initial(files, dialOut), acts).value;
      && s.program == Adding(files[n..]) && !s.adding && |s.workers| == n
      && (forall k :: 0 <= k < n ==> s.workers[k] == NewWorker(files[k]))
      && (n > 0 ==> files[n - 1] in s.registry && s.registry[files[n - 1]] == n - 1)
      && s.wg == n && !s.expired && s.status == []
  {
    hide Exec;
    NoSteps(Initial(files, dialOut));
    if n == 0 {
      acts := [];
    } else {
      acts := AddFiles(files, dialOut, n - 1);
      assert files[n - 1..][1..] == files[n..];
      acts := Then(Initial(files, dialOut), acts, Register(true));
      acts := Then(Initial(files, dialOut), acts, Add);
    }
  }

  /** A file given twice: its first worker is left unregistered by the second. */
  lemma DuplicateIsLost(files: seq<string>, dialOut: bool, i: nat, j: nat) returns (acts: seq<Action>)
    requires i < j < |files| && files[i] == files[j]
    ensures Exec(Initial(files, dialOut), acts).Some? && !LiveOk(Exec(Initial(files, dialOut), acts).value)
  {
    hide Exec;
    acts := AddFiles(files, dialOut, j + 1);
    var s := Exec(Initial(files, dialOut), acts).value;
    assert Live(s.workers[i]) && !RegisteredAt(s, i);
  }

  /** Every run keeps the live workers registered exactly if no file is given twice at the start. */
  lemma RegisteredIffDistinct(files: seq<string>, dialOut: bool)
    ensures Distinct(files) <==>
      forall acts :: Exec(Initial(files, dialOut), acts).Some? ==> LiveOk(Exec(Initial(files, dialOut), acts).value)
  {
    hide Exec;
    hide LiveOk;
    if Distinct(files) {
      forall acts | Exec(Initial(files, dialOut), acts).Some?
        ensures LiveOk(Exec(Initial(files, dialOut), acts).value) {
        Reachable(files, dialOut, acts);
      }
    } else {
      var i, j :| 0 <= i < j < |files| && files[i] == files[j];
      var acts := DuplicateIsLost(files, dialOut, i, j);
    }
  }

  // ---------- when the owner is blocked for ever ----------

  /**
   A worker at its hand-over whose connection loop will not take it: it hangs, loops, or waits for the worker
   itself.
   */
  predicate Stuck(w: Worker) {
    w.phase.HandingOver? && !w.work.Busy? && !w.leaked
  }

  /** A worker that will never take a signal again: it is past its loop or stuck. */
  predicate IsDeaf(w: Worker) {
    w.phase.Interrupted? || w.phase.Failing? || w.phase.Reported? || w.phase.Done? || Stuck(w)
  }

  predicate Deaf(s: State, i: nat) {
    i < |s.workers| && IsDeaf(s.workers[i])
  }

  predicate DeafFile(s: State, f: string) {
    f in s.registry && Deaf(s, s.registry[f])
  }

  /** Something is still to be sent to such a worker: to one that is next, or later in the same reconciliation. */
  ghost predicate Blocked(s: State) {
    match s.program
    case Sending(_, todo, _) => exists i :: i in todo && Deaf(s, i)
    case Reconciling(list, rest) => BlockedAhead(s, list, rest)
    case Starting(list, rest, i) => Deaf(s, i) || BlockedAhead(s, list, rest)
    case Removing(unlisted) => exists f :: DeafFile(s, f) && f in unlisted
    case _ => false
  }

  /** The owner waits for the next signal or has left its loop. */
  predicate Idle(s: State) {
    s.program.Waiting? || s.program.Left?
  }

  lemma DeafStays(s: State, act: Action, i: nat)
    requires Deaf(s, i) && Next(s, act).Some?
    ensures Deaf(Next(s, act).value, i)
  {
    hide WorkerNext;
    if WorkerAct(act) && act.worker == i {
      DeafWorkerStays(s.workers[i], s.dialOut, act);
    }
  }

  lemma DeafTakesNothing(s: State, i: nat)
    requires Deaf(s, i)
    ensures forall signal :: Deliver(s, i, signal).None?
  {
  }

  lemma DeafWorkerStays(w: Worker, dialOut: bool, act: Action)
    requires IsDeaf(w) && WorkerNext(w, dialOut, act).Some?
    ensures IsDeaf(WorkerNext(w, dialOut, act).value)
  {
  }

  /**
   A deaf worker stays registered while the owner is busy: a message about it is handled only when the owner waits.
   */
  lemma DeafFileStays(s: State, act: Action, f: string)
    requires DeafFile(s, f) && Next(s, act).Some? && !s.program.Waiting? && !s.program.Adding?
    ensures DeafFile(Next(s, act).value, f)
  {
    hide IsDeaf;
    hide WorkerNext;
    DeafTakesNothing(s, s.registry[f]);
    DeafStays(s, act, s.registry[f]);
  }

  /** Of the files still to be handled in a reconciliation, one is deaf. */
  ghost predicate BlockedAhead(s: State, list: seq<string>, rest: seq<string>) {
    exists f :: DeafFile(s, f) && (f in rest || f !in list)
  }

  lemma ReconcilingStays(s: State, act: Action)
    requires s.program.Reconciling? && BlockedAhead(s, s.program.list, s.program.rest) && Next(s, act).Some?
    ensures Blocked(Next(s, act).value)
  {
    hide IsDeaf;
    hide WorkerNext;
    var t := Next(s, act).value;
    var list, rest := s.program.list, s.program.rest;
    var f :| DeafFile(s, f) && (f in rest || f !in list);
    DeafFileStays(s, act, f);
    DeafTakesNothing(s, s.registry[f]);
    if rest != [] {
      InTail(rest, f);
    }
    if t.program.Removing? {
      assert f in t.program.unlisted;
    } else {
      assert BlockedAhead(t, t.program.list, t.program.rest);
    }
  }

  lemma BlockedStays(s: State, act: Action)
    requires Blocked(s) && Next(s, act).Some?
    ensures Blocked(Next(s, act).value)
  {
    hide IsDeaf;
    hide WorkerNext;
    var t := Next(s, act).value;
    match s.program
    case Sending(_, todo, _) =>
      SendingStays(s, act);
    case Reconciling(list, rest) =>
      ReconcilingStays(s, act);
    case Starting(list, rest, i) =>
      StartingStays(s, act);
    case Removing(unlisted) =>
      var f :| DeafFile(s, f) && f in unlisted;
      DeafFileStays(s, act, f);
      DeafTakesNothing(s, s.registry[f]);
      assert f in t.program.unlisted;
  }

  lemma SendingStays(s: State, act: Action)
    requires s.program.Sending? && Blocked(s) && Next(s, act).Some?
    ensures Blocked(Next(s, act).value)
  {
    hide IsDeaf;
    hide WorkerNext;
    var i :| i in s.program.todo && Deaf(s, i);
    DeafStays(s, act, i);
    DeafTakesNothing(s, i);
    var t := Next(s, act).value;
    assert t.program.Sending? && i in t.program.todo;
  }

  lemma StartingStays(s: State, act: Action)
    requires s.program.Starting? && Blocked(s) && Next(s, act).Some?
    ensures Blocked(Next(s, act).value)
  {
    hide IsDeaf;
    hide WorkerNext;
    var list, rest, i := s.program.list, s.program.rest, s.program.worker;
    if Deaf(s, i) {
      DeafStays(s, act, i);
      DeafTakesNothing(s, i);
    } else {
      var f :| DeafFile(s, f) && (f in rest || f !in list);
      DeafFileStays(s, act, f);
      assert BlockedAhead(Next(s, act).value, list, rest);
    }
  }

  lemma InTail(rest: seq<string>, f: string)
    requires rest != []
    ensures f in rest <==> f == rest[0] || f in rest[1..]
  {
  }

  /** Once blocked, the owner never waits for a signal or a status message again. */
  lemma {:induction false} BlockedForever(s: State, acts: seq<Action>)
    requires Blocked(s) && Exec(s, acts).Some?
    ensures Blocked(Exec(s, acts).value) && !Idle(Exec(s, acts).value)
  {
    if acts != [] {
      hide Blocked;
      BlockedForever(s, acts[..|acts| - 1]);
      BlockedStays(Exec(s, acts[..|acts| - 1]).value, acts[|acts| - 1]);
    }
    NotIdle(Exec(s, acts).value);
  }

  lemma NotIdle(s: State)
    requires Blocked(s)
    ensures !Idle(s)
  {
  }

  // ---------- and otherwise it need not be ----------

  /** A worker without a connection loop: SIGCONT is for these only, so no worker gets a second loop. */
  predicate Unstarted(w: Worker) {
    w.work.NoWork? && !w.leaked
  }

  /** What the owner is doing refers to what there is; before the start every worker is at its select. */
  ghost predicate ProgramOk(s: State) {
    match s.program
    case Adding(_) => !s.expired && forall i :: 0 <= i < |s.workers| ==>
                                      s.workers[i].phase == AtSelect && Unstarted(s.workers[i])
    case Sending(signal, todo, _) =>
      forall i :: i in todo ==> i < |s.workers| && (signal.SIGCONT? ==> Unstarted(s.workers[i]))
    case Starting(_, _, i) => i < |s.workers| && Unstarted(s.workers[i])
    case Removing(unlisted) => unlisted <= s.registry.Keys
    case _ => true
  }

  lemma OwnerKeepsProgram(s: State, act: Action)
    requires RegistryOk(s) && ProgramOk(s) && OwnerAct(act) && Next(s, act).Some?
    ensures ProgramOk(Next(s, act).value)
  {
  }

  lemma UnstartedStays(w: Worker, dialOut: bool, act: Action)
    requires Unstarted(w) && WorkerNext(w, dialOut, act).Some?
    ensures Unstarted(WorkerNext(w, dialOut, act).value) && !w.phase.AtSelect?
  {
  }

  lemma WorkerKeepsProgram(s: State, act: Action)
    requires RegistryOk(s) && ProgramOk(s) && WorkerAct(act) && Next(s, act).Some?
    ensures RegistryOk(Next(s, act).value) && ProgramOk(Next(s, act).value)
  {
    SameFile(s.workers[act.worker], s.dialOut, act);
    if Unstarted(s.workers[act.worker]) {
      UnstartedStays(s.workers[act.worker], s.dialOut, act);
    }
    hide WorkerNext;
    hide Unstarted;
  }

  lemma SameFile(w: Worker, dialOut: bool, act: Action)
    requires WorkerNext(w, dialOut, act).Some?
    ensures WorkerNext(w, dialOut, act).value.file == w.file
  {
  }

  lemma OtherKeepsProgram(s: State, act: Action)
    requires RegistryOk(s) && ProgramOk(s) && !OwnerAct(act) && !WorkerAct(act) && Next(s, act).Some?
    ensures RegistryOk(Next(s, act).value) && ProgramOk(Next(s, act).value)
  {
  }

  lemma DeliverKeepsRegistry(s: State, i: nat, signal: Signal)
    requires RegistryOk(s) && Deliver(s, i, signal).Some?
    ensures RegistryOk(Deliver(s, i, signal).value)
    ensures Deliver(s, i, signal).value.registry == s.registry && |Deliver(s, i, signal).value.workers| == |s.workers|
  {
  }

  lemma OwnerKeepsRegistry(s: State, act: Action)
    requires RegistryOk(s) && OwnerAct(act) && Next(s, act).Some?
    ensures RegistryOk(Next(s, act).value)
  {
    hide Deliver;
    match act
    case SendTo(i) => DeliverKeepsRegistry(s, i, s.program.signal);
    case VisitListed(_) =>
      if s.program.rest[0] in s.registry {
        DeliverKeepsRegistry(s, s.registry[s.program.rest[0]], SIGHUP);
      }
    case Continue => DeliverKeepsRegistry(s, s.program.worker, SIGCONT);
    case Remove(f) => DeliverKeepsRegistry(s, s.registry[f], Interrupt);
    case _ =>
  }

  lemma StepKeepsProgram(s: State, act: Action)
    requires RegistryOk(s) && ProgramOk(s) && Next(s, act).Some?
    ensures RegistryOk(Next(s, act).value) && ProgramOk(Next(s, act).value)
  {
    hide RegistryOk;
    hide ProgramOk;
    hide Next;
    if OwnerAct(act) {
      OwnerKeepsRegistry(s, act);
      OwnerKeepsProgram(s, act);
    } else if WorkerAct(act) {
      WorkerKeepsProgram(s, act);
    } else {
      OtherKeepsProgram(s, act);
    }
  }

  lemma {:induction false} ReachableProgram(files: seq<string>, dialOut: bool, acts: seq<Action>)
    requires Exec(Initial(files, dialOut), acts).Some?
    ensures RegistryOk(Exec(Initial(files, dialOut), acts).value) &&
      ProgramOk(Exec(Initial(files, dialOut), acts).value)
  {
    if acts != [] {
      hide RegistryOk;
      hide ProgramOk;
      hide Next;
      var before := acts[..|acts| - 1];
      ReachableProgram(files, dialOut, before);
      StepKeepsProgram(Exec(Initial(files, dialOut), before).value, acts[|acts| - 1]);
    }
  }

  /** Some run from here leads the owner back to waiting or out. */
  ghost predicate CanIdle(s: State) {
    exists acts :: Exec(s, acts).Some? && Idle(Exec(s, acts).value)
  }

  lemma {:induction false} ExecCons(s: State, act: Action, acts: seq<Action>)
    requires Next(s, act).Some?
    ensures Exec(s, [act] + acts) == Exec(Next(s, act).value, acts)
    decreases |acts|
  {
    hide Next;
    var all := [act] + acts;
    if acts == [] {
      assert all[..0] == [];
    } else {
      var k := |acts| - 1;
      ExecCons(s, act, acts[..k]);
      assert all[..|all| - 1] == [act] + acts[..k];
    }
  }

  lemma IdleNow(s: State)
    requires Idle(s)
    ensures CanIdle(s)
  {
    var acts: seq<Action> := [];
    assert Exec(s, acts) == Some(s);
  }

  lemma IdleAfter(s: State, act: Action)
    requires Next(s, act).Some? && CanIdle(Next(s, act).value)
    ensures CanIdle(s)
  {
    hide Next;
    hide Exec;
    var t := Next(s, act).value;
    var acts :| Exec(t, acts).Some? && Idle(Exec(t, acts).value);
    ExecCons(s, act, acts);
  }

  /** A worker that is not deaf is at its select, or gets there in one step. */
  lemma Listening(s: State, i: nat) returns (t: State)
    requires i < |s.workers| && !Deaf(s, i)
    ensures t == s.(workers := t.workers) && |t.workers| == |s.workers|
    ensures t.workers[i] == s.workers[i].(phase := AtSelect, leaked := t.workers[i].leaked)
    ensures forall j :: 0 <= j < |s.workers| && j != i ==> t.workers[j] == s.workers[j]
    ensures t.workers[i].leaked ==> s.workers[i].leaked
    ensures forall j :: Deaf(t, j) <==> Deaf(s, j)
    ensures RegistryOk(s) ==> RegistryOk(t)
    ensures CanIdle(t) ==> CanIdle(s)
  {
    hide CanIdle;
    t := s;
    var w := s.workers[i];
    if !w.phase.AtSelect? {
      var act := if w.phase.Rereading? then Reread(i, false, false) else HandOver(i, w.leaked);
      t := Next(s, act).value;
      if CanIdle(t) {
        IdleAfter(s, act);
      }
    }
  }

  lemma {:induction false} SendingCanIdle(s: State)
    requires s.program.Sending? && !s.adding && ProgramOk(s) && !Blocked(s)
    ensures CanIdle(s)
    decreases s.program.todo
  {
    hide CanIdle;
    hide WorkerNext;
    var todo := s.program.todo;
    if todo == {} {
      IdleNow(Next(s, SendDone).value);
      IdleAfter(s, SendDone);
    } else {
      var i :| i in todo;
      assert !Deaf(s, i);
      var t := Listening(s, i);
      var u := Next(t, SendTo(i)).value;
      forall j | j in u.program.todo ensures !Deaf(u, j) && j < |u.workers| {
        assert !Deaf(s, j);
      }
      SendingCanIdle(u);
      IdleAfter(t, SendTo(i));
    }
  }

  /** Removing one file makes no other one deaf. */
  lemma OthersHear(s: State, f: string, g: string)
    requires RegistryOk(s) && Next(s, Remove(f)).Some? && g != f && !DeafFile(s, g)
    ensures !DeafFile(Next(s, Remove(f)).value, g)
  {
    assert g in s.registry ==> s.registry[g] != s.registry[f];
  }

  /** Visiting a listed file makes none deaf. */
  lemma VisitedHears(s: State, f: string)
    requires RegistryOk(s) && Next(s, VisitListed(false)).Some? && !DeafFile(s, f)
    ensures !DeafFile(Next(s, VisitListed(false)).value, f)
  {
  }

  lemma RemovedStaysOpen(s: State, f: string)
    requires s.program.Removing? && !s.adding && RegistryOk(s) && ProgramOk(s)
    requires f in s.program.unlisted && s.workers[s.registry[f]].phase.AtSelect?
    requires forall g :: g in s.program.unlisted ==> !DeafFile(s, g)
    ensures Next(s, Remove(f)).Some?
    ensures var u := Next(s, Remove(f)).value;
      && u.program == Removing(s.program.unlisted - {f}) && !u.adding && RegistryOk(u) && ProgramOk(u) && !Blocked(u)
  {
    var u := Next(s, Remove(f)).value;
    hide IsDeaf;
    forall g | g in u.program.unlisted ensures !DeafFile(u, g) {
      OthersHear(s, f, g);
    }
    StepKeepsProgram(s, Remove(f));
  }

  lemma {:induction false} RemovingCanIdle(s: State)
    requires s.program.Removing? && !s.adding && RegistryOk(s) && ProgramOk(s) && !Blocked(s)
    ensures CanIdle(s)
    decreases s.program.unlisted
  {
    hide CanIdle;
    hide WorkerNext;
    hide IsDeaf;
    var unlisted := s.program.unlisted;
    if unlisted == {} {
      IdleNow(Next(s, RemoveDone).value);
      IdleAfter(s, RemoveDone);
    } else {
      var f :| f in unlisted;
      assert !DeafFile(s, f);
      var t := Listening(s, s.registry[f]);
      forall g | g in unlisted ensures !DeafFile(t, g) {
        assert !DeafFile(s, g);
      }
      RemovedStaysOpen(t, f);
      RemovingCanIdle(Next(t, Remove(f)).value);
      IdleAfter(t, Remove(f));
    }
  }

  lemma {:induction false} ReconcilingCanIdle(s: State)
    requires s.program.Reconciling? && !s.adding && RegistryOk(s) && !Blocked(s)
    ensures CanIdle(s)
    decreases |s.program.rest|
  {
    hide CanIdle;
    hide WorkerNext;
    hide IsDeaf;
    var list, rest := s.program.list, s.program.rest;
    if rest == [] {
      var t := Next(s, RemoveBegin).value;
      forall f | f in t.program.unlisted ensures !DeafFile(t, f) {
        assert !DeafFile(s, f);
      }
      RemovingCanIdle(t);
      IdleAfter(s, RemoveBegin);
    } else {
      InTail(rest, rest[0]);
      var t := s;
      if rest[0] in s.registry {
        assert !DeafFile(s, rest[0]);
        t := Listening(s, s.registry[rest[0]]);
      }
      var u := Next(t, VisitListed(false)).value;
      forall f | f in rest[1..] || f !in list ensures !DeafFile(u, f) {
        InTail(rest, f);
        assert !DeafFile(s, f);
        VisitedHears(t, f);
      }
      OwnerKeepsRegistry(t, VisitListed(false));
      ReconcilingCanIdle(u);
      IdleAfter(t, VisitListed(false));
    }
  }

  lemma StartingCanIdle(s: State)
    requires s.program.Starting? && !s.adding && RegistryOk(s) && ProgramOk(s) && !Blocked(s)
    ensures CanIdle(s)
  {
    hide CanIdle;
    hide WorkerNext;
    var i := s.program.worker;
    var t := Listening(s, i);
    var u := Next(t, Continue).value;
    forall f | f in u.program.rest || f !in u.program.list ensures !DeafFile(u, f) {
      assert !DeafFile(s, f);
    }
    assert RegistryOk(u);
    ReconcilingCanIdle(u);
    IdleAfter(t, Continue);
  }

  lemma {:induction false} AddingCanIdle(s: State)
    requires s.program.Adding? && !s.adding && RegistryOk(s) && ProgramOk(s)
    ensures CanIdle(s)
    decreases |s.program.rest|
  {
    hide CanIdle;
    hide WorkerNext;
    if s.program.rest != [] {
      AddingCanIdle(Next(s, Register(false)).value);
      IdleAfter(s, Register(false));
    } else {
      var t := Next(s, Begin).value;
      if s.dialOut {
        IdleNow(t);
      } else {
        forall i | i in t.program.todo ensures i < |t.workers| && !Deaf(t, i) {
        }
        SendingCanIdle(t);
      }
      IdleAfter(s, Begin);
    }
  }

  lemma OwnerCanIdle(s: State)
    requires !s.adding && RegistryOk(s) && ProgramOk(s) && !Blocked(s)
    ensures CanIdle(s)
  {
    hide CanIdle;
    hide WorkerNext;
    hide Blocked;
    hide RegistryOk;
    hide ProgramOk;
    match s.program
    case Adding(_) => AddingCanIdle(s);
    case Sending(_, _, _) => SendingCanIdle(s);
    case Waiting => IdleNow(s);
    case Reconciling(_, _) => ReconcilingCanIdle(s);
    case Starting(_, _, _) => StartingCanIdle(s);
    case Removing(_) => RemovingCanIdle(s);
    case Left => IdleNow(s);
  }

  lemma AddUnblocks(s: State)
    requires s.adding && RegistryOk(s) && ProgramOk(s) && !Blocked(s)
    ensures CanIdle(s)
  {
    hide CanIdle;
    hide WorkerNext;
    var t := Next(s, Add).value;
    assert t == s.(adding := false, wg := s.wg + 1);
    assert forall f :: DeafFile(t, f) <==> DeafFile(s, f);
    assert forall i :: Deaf(t, i) <==> Deaf(s, i);
    OwnerCanIdle(t);
    IdleAfter(s, Add);
  }

  /** From every reachable state the owner can get back to waiting or out of its loop exactly if it is not blocked. */
  lemma BlockedIff(files: seq<string>, dialOut: bool, acts: seq<Action>, s: State)
    requires Exec(Initial(files, dialOut), acts) == Some(s)
    ensures Blocked(s) <==> !CanIdle(s)
  {
    hide Blocked;
    hide RegistryOk;
    hide ProgramOk;
    ReachableProgram(files, dialOut, acts);
    hide Exec;
    if Blocked(s) {
      forall more | Exec(s, more).Some? ensures !Idle(Exec(s, more).value) {
        BlockedForever(s, more);
      }
    } else if s.adding {
      AddUnblocks(s);
    } else {
      OwnerCanIdle(s);
    }
  }

  /** A connection loop at its status send stays there for ever if its worker will never be at its select again. */
  lemma {:induction false} OfferNeverTaken(s: State, acts: seq<Action>, i: nat)
    requires Deaf(s, i) && s.workers[i].work.Ending? && Exec(s, acts).Some?
    ensures Deaf(Exec(s, acts).value, i) && Exec(s, acts).value.workers[i].work.Ending?
  {
    if acts != [] {
      hide IsDeaf;
      hide WorkerNext;
      var before := acts[..|acts| - 1];
      OfferNeverTaken(s, before, i);
      OfferStays(Exec(s, before).value, acts[|acts| - 1], i);
    }
  }

  lemma OfferStays(s: State, act: Action, i: nat)
    requires Deaf(s, i) && s.workers[i].work.Ending? && Next(s, act).Some?
    ensures Deaf(Next(s, act).value, i) && Next(s, act).value.workers[i].work.Ending?
  {
    DeafStays(s, act, i);
    DeafTakesNothing(s, i);
    EndingStays(s.workers[i], s.dialOut, act);
    hide IsDeaf;
    hide WorkerNext;
  }

  lemma EndingStays(w: Worker, dialOut: bool, act: Action)
    requires IsDeaf(w) && w.work.Ending?
    ensures WorkerNext(w, dialOut, act).Some? ==> WorkerNext(w, dialOut, act).value.work.Ending?
  {
  }

  // ---------- runs that go wrong ----------

  lemma Extend(s: State, acts: seq<Action>, t: State, act: Action, u: State) returns (more: seq<Action>)
    requires Exec(s, acts) == Some(t) && Next(t, act) == Some(u)
    ensures Exec(s, more) == Some(u)
  {
    hide Next;
    more := Then(s, acts, act);
  }

  /** There is one worker, and the owner waits. */
  function One(w: Worker): State {
    State([w], map[w.file := 0], 1, false, [], Waiting, false, false)
  }

  /** A worker with a busy connection loop, at its select. */
  function AtWork(file: string): Worker {
    NewWorker(file).(work := Busy)
  }

  lemma AddOne(g: string) returns (acts: seq<Action>)
    ensures Exec(Initial([g], false), acts) == Some(One(NewWorker(g)).(program := Adding([])))
  {
    hide Exec;
    var s := Initial([g], false);
    NoSteps(s);
    assert [g][1..] == [];
    var added := One(NewWorker(g)).(program := Adding([]), wg := 0, adding := true);
    assert s.workers + [NewWorker(g)] == added.workers && s.registry[g := 0] == added.registry;
    acts := Extend(s, [], s, Register(true), added);
    acts := Extend(s, acts, added, Add, added.(wg := 1, adding := false));
  }

  lemma StartOne(g: string) returns (acts: seq<Action>)
    ensures Exec(Initial([g], false), acts) == Some(One(AtWork(g)))
  {
    hide Exec;
    var s := Initial([g], false);
    acts := AddOne(g);
    var added := One(NewWorker(g)).(program := Adding([]));
    OneValue(NewWorker(g));
    var sending := added.(program := Sending(SIGCONT, {0}, false));
    acts := Extend(s, acts, added, Begin, sending);
    var sent := One(AtWork(g)).(program := Sending(SIGCONT, {}, false));
    assert With(sending, 0, AtWork(g)).workers == sent.workers && sending.program.todo - {0} == {};
    acts := Extend(s, acts, sending, SendTo(0), sent);
    acts := Extend(s, acts, sent, SendDone, One(AtWork(g)));
  }

  lemma OneValue(w: Worker)
    ensures One(w).registry.Values == {0}
  {
    assert One(w).registry[w.file] == 0;
  }

  /** The worker takes a SIGHUP and begins to re-read its configuration. */
  lemma HupOne(s: State, acts: seq<Action>, w: Worker) returns (more: seq<Action>)
    requires Exec(s, acts) == Some(One(w)) && w.phase.AtSelect?
    ensures Exec(s, more) == Some(One(w.(phase := Rereading)))
  {
    hide Exec;
    OneValue(w);
    var a := One(w).(program := Sending(SIGHUP, {0}, false));
    more := Extend(s, acts, One(w), OnHup(None), a);
    var b := One(w.(phase := Rereading)).(program := Sending(SIGHUP, {}, false));
    assert With(a, 0, w.(phase := Rereading)).workers == b.workers && a.program.todo - {0} == {};
    more := Extend(s, more, a, SendTo(0), b);
    more := Extend(s, more, b, SendDone, One(w.(phase := Rereading)));
  }

  lemma WorkerStep(s: State, acts: seq<Action>, w: Worker, act: Action, w': Worker) returns (more: seq<Action>)
    requires Exec(s, acts) == Some(One(w)) && WorkerAct(act) && act.worker == 0
    requires WorkerNext(w, false, act) == Some(w') && w'.file == w.file
    ensures Exec(s, more) == Some(One(w'))
  {
    hide Exec;
    hide WorkerNext;
    assert With(One(w), 0, w').workers == [w'];
    more := Extend(s, acts, One(w), act, One(w'));
  }

  /** A SIGHUP to a stuck worker blocks the owner. */
  lemma StuckBlocks(s: State, acts: seq<Action>, w: Worker) returns (more: seq<Action>)
    requires Exec(s, acts) == Some(One(w)) && Stuck(w)
    ensures Exec(s, more) == Some(One(w).(program := Sending(SIGHUP, {0}, false)))
    ensures Blocked(Exec(s, more).value)
  {
    hide Exec;
    OneValue(w);
    var t := One(w).(program := Sending(SIGHUP, {0}, false));
    more := Extend(s, acts, One(w), OnHup(None), t);
    assert 0 in t.program.todo && Deaf(t, 0);
  }

  /**
   No worker fails or is interrupted here. The first SIGHUP leaves a mixed subscription without paths, which hangs; the
   second one leaves the worker at its hand-over; the third one blocks the owner.
   */
  lemma HangCanBlock(g: string)
    ensures exists acts ::
      && Exec(Initial([g], false), acts).Some?
      && Blocked(Exec(Initial([g], false), acts).value)
      && Exec(Initial([g], false), acts).value.workers == [Worker(g, HandingOver, Hung, false)]
  {
    hide Exec;
    var s := Initial([g], false);
    var w := AtWork(g);
    var acts := StartOne(g);
    acts := HupOne(s, acts, w);
    acts := WorkerStep(s, acts, w.(phase := Rereading), Reread(0, true, true), w.(phase := HandingOver));
    acts := WorkerStep(s, acts, w.(phase := HandingOver), HandOver(0, false), w);
    acts := WorkerStep(s, acts, w, Hang(0), w.(work := Hung));
    acts := HupOne(s, acts, w.(work := Hung));
    var stuck := Worker(g, HandingOver, Hung, false);
    acts := WorkerStep(s, acts, w.(phase := Rereading, work := Hung), Reread(0, true, true), stuck);
    acts := StuckBlocks(s, acts, stuck);
  }

  /** The connection loop waits at its status send for the worker, and the worker at its hand-over for the loop. */
  lemma EndCanBlock(g: string)
    ensures exists acts ::
      && Exec(Initial([g], false), acts).Some?
      && Blocked(Exec(Initial([g], false), acts).value)
      && Exec(Initial([g], false), acts).value.workers == [Worker(g, HandingOver, Ending, false)]
  {
    hide Exec;
    var s := Initial([g], false);
    var w := AtWork(g);
    var acts := StartOne(g);
    acts := HupOne(s, acts, w);
    acts := WorkerStep(s, acts, w.(phase := Rereading), End(0), w.(phase := Rereading, work := Ending));
    var stuck := Worker(g, HandingOver, Ending, false);
    acts := WorkerStep(s, acts, w.(phase := Rereading, work := Ending), Reread(0, true, true), stuck);
    acts := StuckBlocks(s, acts, stuck);
  }

  /** The timer interrupts the one worker; then a reconciliation with another file starts a second one. */
  lemma NewWorkerAfterExpiry(g: string, f: string) returns (acts: seq<Action>)
    requires f != g
    ensures Exec(Initial([g], false), acts) ==
      Some(State([AtWork(g).(phase := Interrupted), NewWorker(f)], map[g := 0, f := 1], 1, true, [],
                 Starting([f], [], 1), true, false))
  {
    hide Exec;
    var s := Initial([g], false);
    acts := StartOne(g);
    var a := One(AtWork(g));
    acts := Extend(s, acts, a, Expire, a.(expired := true));
    var b := One(AtWork(g).(phase := Interrupted)).(expired := true);
    assert With(a, 0, AtWork(g).(phase := Interrupted)).workers == b.workers;
    acts := Extend(s, acts, a.(expired := true), MaxRun(0), b);
    var c := b.(program := Reconciling([f], [f]));
    acts := Extend(s, acts, b, OnHup(Some([f])), c);
    var d := State([AtWork(g).(phase := Interrupted), NewWorker(f)], map[g := 0, f := 1], 1, true, [],
                   Starting([f], [], 1), true, false);
    assert [f][1..] == [] && c.workers + [NewWorker(f)] == d.workers && c.registry[f := 1] == d.registry;
    acts := Extend(s, acts, c, VisitListed(true), d);
  }

  /** The timer can interrupt a new worker between its registration and the Add: the counter goes below zero. */
  lemma CounterCanGoNegative(g: string, f: string)
    requires f != g
    ensures exists acts :: Exec(Initial([g], false), acts).Some? && Exec(Initial([g], false), acts).value.wg < 0
  {
    hide Exec;
    var s := Initial([g], false);
    var acts := NewWorkerAfterExpiry(g, f);
    acts := Then(s, acts, MaxRun(1));
    acts := Then(s, acts, CallDone(0));
    acts := Then(s, acts, CallDone(1));
    assert Exec(s, acts).value.wg == -1;
  }

  /** There are two workers, and the owner waits. */
  function Two(v: Worker, w: Worker): State {
    State([v, w], map[v.file := 0, w.file := 1], 2, false, [], Waiting, false, false)
  }

  lemma AddTwo(f: string, g: string) returns (acts: seq<Action>)
    requires f != g
    ensures Exec(Initial([f, g], false), acts) == Some(Two(NewWorker(f), NewWorker(g)).(program := Adding([])))
  {
    hide Exec;
    var s := Initial([f, g], false);
    NoSteps(s);
    assert [f, g][1..] == [g] && [g][1..] == [];
    var a := One(NewWorker(f)).(wg := 0, adding := true, program := Adding([g]));
    assert s.workers + [NewWorker(f)] == a.workers && s.registry[f := 0] == a.registry;
    acts := Extend(s, [], s, Register(true), a);
    var b := a.(wg := 1, adding := false);
    acts := Extend(s, acts, a, Add, b);
    var c := Two(NewWorker(f), NewWorker(g)).(wg := 1, adding := true, program := Adding([]));
    assert b.workers + [NewWorker(g)] == c.workers && b.registry[g := 1] == c.registry;
    acts := Extend(s, acts, b, Register(true), c);
    acts := Extend(s, acts, c, Add, c.(wg := 2, adding := false));
  }

  lemma BeginTwo(f: string, g: string) returns (acts: seq<Action>)
    requires f != g
    ensures Exec(Initial([f, g], false), acts) ==
      Some(Two(AtWork(f), NewWorker(g)).(program := Sending(SIGCONT, {1}, false)))
  {
    hide Exec;
    var s := Initial([f, g], false);
    acts := AddTwo(f, g);
    var a := Two(NewWorker(f), NewWorker(g));
    TwoValues(NewWorker(f), NewWorker(g));
    var b := a.(program := Sending(SIGCONT, {0, 1}, false));
    acts := Extend(s, acts, a.(program := Adding([])), Begin, b);
    var c := Two(AtWork(f), NewWorker(g)).(program := Sending(SIGCONT, {1}, false));
    assert With(b, 0, AtWork(f)).workers == c.workers && {0, 1} - {0} == {1};
    acts := Extend(s, acts, b, SendTo(0), c);
  }

  lemma StartTwo(f: string, g: string) returns (acts: seq<Action>)
    requires f != g
    ensures Exec(Initial([f, g], false), acts) == Some(Two(AtWork(f), AtWork(g)))
  {
    hide Exec;
    var s := Initial([f, g], false);
    acts := BeginTwo(f, g);
    var c := Two(AtWork(f), NewWorker(g)).(program := Sending(SIGCONT, {1}, false));
    var d := Two(AtWork(f), AtWork(g)).(program := Sending(SIGCONT, {}, false));
    assert With(c, 1, AtWork(g)).workers == d.workers && {1} - {1} == {};
    acts := Extend(s, acts, c, SendTo(1), d);
    acts := Extend(s, acts, d, SendDone, Two(AtWork(f), AtWork(g)));
  }

  lemma TwoValues(v: Worker, w: Worker)
    requires v.file != w.file
    ensures Two(v, w).registry.Values == {0, 1}
  {
    var m := Two(v, w).registry;
    assert m[v.file] == 0 && m[w.file] == 1;
  }

  /**
   A SIGHUP after one of two workers has failed, and before its report is handled, blocks the owner; the other goes
   on.
   */
  lemma FailureCanBlock(f: string, g: string)
    requires f != g
    ensures exists acts ::
      && Exec(Initial([f, g], false), acts).Some?
      && Blocked(Exec(Initial([f, g], false), acts).value)
      && AtWork(g) in Exec(Initial([f, g], false), acts).value.workers
  {
    hide Exec;
    var s := Initial([f, g], false);
    var acts := StartTwo(f, g);
    var ending, failed := AtWork(f).(work := Ending), AtWork(f).(phase := Failing, work := Over);
    assert With(Two(AtWork(f), AtWork(g)), 0, ending).workers == [ending, AtWork(g)];
    acts := Extend(s, acts, Two(AtWork(f), AtWork(g)), End(0), Two(ending, AtWork(g)));
    assert With(Two(ending, AtWork(g)), 0, failed).workers == [failed, AtWork(g)];
    acts := Extend(s, acts, Two(ending, AtWork(g)), Fail(0), Two(failed, AtWork(g)));
    TwoValues(failed, AtWork(g));
    var t := Two(failed, AtWork(g)).(program := Sending(SIGHUP, {0, 1}, false));
    acts := Extend(s, acts, Two(failed, AtWork(g)), OnHup(None), t);
    assert 0 in t.program.todo && Deaf(t, 0);
    assert t.workers[1] == AtWork(g);
  }
}
