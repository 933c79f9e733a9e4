/**
 * One state file shared by any number of processes. A process takes an exclusive lock, loads the file,
 * computes, writes its own temporary file, renames it over the state file, reports and releases. A process
 * may stop at any point (crash, I/O failure, refusal, exit); stopping releases the lock.
 */
module LockedFile {
  import opened Bytes

  type Pid = nat

  /** A temporary file while it is written, and once it is complete. */
  datatype Temp<F> = Torn | Whole(content: F)

  datatype Phase<F, Op, Out> =
    | Waiting(op: Op)
    | Locked(op: Op)
    | Loaded(op: Op, snapshot: Option<F>)
    | Computed(op: Op, next: F, out: Out)
    | Writing(op: Op, next: F, out: Out)
    | Written(op: Op, next: F, out: Out)
    | Saved(slot: nat, out: Out, holding: bool, reported: bool)

  datatype Process<F, Op, Out> = Process(ticket: nat, phase: Phase<F, Op, Out>)

  /**
   * The shared world. `started`, `saved` and `reports` are its history: the operations of all processes ever
   * started, the tickets whose result was renamed into place, and what was reported for which of these.
   */
  datatype World<F, Op, Out> = World(
    file: Option<F>,
    lock: Option<Pid>,
    processes: map<Pid, Process<F, Op, Out>>,
    temps: map<Pid, Temp<F>>,
    started: seq<Op>,
    saved: seq<nat>,
    reports: seq<(nat, Out)>)

  datatype Event<Op> =
    | Start(pid: Pid, op: Op)
    | Lock(pid: Pid)
    | Load(pid: Pid)
    | Compute(pid: Pid)
    | OpenTemp(pid: Pid)
    | FinishTemp(pid: Pid)
    | Rename(pid: Pid)
    | Report(pid: Pid)
    | Release(pid: Pid)
    | Stop(pid: Pid)

  /** The operation a process performs on the file it loaded: new content and output, or a refusal. */
  type Operation<!F, !Op, Out> = (Option<F>, Op) -> Option<(F, Out)>

  function Initial<F, Op, Out>(file: Option<F>): World<F, Op, Out> {
    World(file, None, map[], map[], [], [], [])
  }

  function SetPhase<F, Op, Out>(w: World<F, Op, Out>, pid: Pid, phase: Phase<F, Op, Out>): World<F, Op, Out>
    requires pid in w.processes
  {
    w.(processes := w.processes[pid := w.processes[pid].(phase := phase)])
  }

  function Unlock<F, Op, Out>(w: World<F, Op, Out>, pid: Pid): World<F, Op, Out> {
    w.(lock := if w.lock == Some(pid) then None else w.lock)
  }

  /** One event; an event that is not enabled changes nothing. */
  function Step<F, Op, Out>(apply: Operation<F, Op, Out>, w: World<F, Op, Out>, e: Event<Op>): World<F, Op, Out> {
    if e.Start? then
      if e.pid in w.processes then w
      else w.(processes := w.processes[e.pid := Process(|w.started|, Waiting(e.op))], started := w.started + [e.op])
    else if e.pid !in w.processes then w
    else
      match (e, w.processes[e.pid].phase)
      case (Lock(pid), Waiting(op)) =>
        if w.lock == None then SetPhase(w.(lock := Some(pid)), pid, Locked(op)) else w
      case (Load(pid), Locked(op)) => SetPhase(w, pid, Loaded(op, w.file))
      case (Compute(pid), Loaded(op, snapshot)) =>
        (match apply(snapshot, op)
         case None => Unlock(w, pid).(processes := w.processes - {pid})
         case Some((next, out)) => SetPhase(w, pid, Computed(op, next, out)))
      case (OpenTemp(pid), Computed(op, next, out)) =>
        SetPhase(w.(temps := w.temps[pid := Torn]), pid, Writing(op, next, out))
      case (FinishTemp(pid), Writing(op, next, out)) =>
        SetPhase(w.(temps := w.temps[pid := Whole(next)]), pid, Written(op, next, out))
      case (Rename(pid), Written(op, next, out)) =>
        if pid in w.temps && w.temps[pid].Whole? then
          SetPhase(w.(file := Some(w.temps[pid].content), temps := w.temps - {pid},
                      saved := w.saved + [w.processes[pid].ticket]),
                   pid, Saved(|w.saved|, out, true, false))
        else w
      case (Report(pid), Saved(slot, out, holding, false)) =>
        SetPhase(w.(reports := w.reports + [(slot, out)]), pid, Saved(slot, out, holding, true))
      case (Release(pid), Saved(slot, out, true, reported)) =>
        SetPhase(Unlock(w, pid), pid, Saved(slot, out, false, reported))
      case (Stop(pid), _) => Unlock(w, pid).(processes := w.processes - {pid})
      case _ => w
  }

  function Run<F, Op, Out>(apply: Operation<F, Op, Out>, file: Option<F>, events: seq<Event<Op>>): World<F, Op, Out> {
    if events == [] then Initial(file)
    else Step(apply, Run(apply, file, events[..|events| - 1]), events[|events| - 1])
  }

  /** The specification: operations one after another, none refused. */
  function Sequential<F, Op, Out>(
      apply: Operation<F, Op, Out>, file: Option<F>, ops: seq<Op>): Option<(Option<F>, seq<Out>)>
  {
    if ops == [] then Some((file, []))
    else
      match Sequential(apply, file, ops[..|ops| - 1])
      case None => None
      case Some((f, outs)) =>
        match apply(f, ops[|ops| - 1])
        case None => None
        case Some((next, out)) => Some((Some(next), outs + [out]))
  }

  ghost predicate TicketsKnown<F, Op, Out>(w: World<F, Op, Out>) {
    forall i :: 0 <= i < |w.saved| ==> w.saved[i] < |w.started|
  }

  /** The saved operations in the order their results were renamed into place. */
  ghost function SavedOps<F, Op, Out>(w: World<F, Op, Out>): seq<Op>
    requires TicketsKnown(w)
  {
    seq(|w.saved|, i requires 0 <= i < |w.saved| => w.started[w.saved[i]])
  }

  predicate HoldsLock<F, Op, Out>(phase: Phase<F, Op, Out>) {
    !phase.Waiting? && (phase.Saved? ==> phase.holding)
  }

  /** What is known of a process from where it is. */
  ghost predicate PhaseOk<F, Op, Out>(
      apply: Operation<F, Op, Out>, w: World<F, Op, Out>, outs: seq<Out>, pid: Pid, proc: Process<F, Op, Out>)
  {
    && proc.ticket < |w.started|
    && (HoldsLock(proc.phase) ==> w.lock == Some(pid))
    && match proc.phase
       case Waiting(op) => w.started[proc.ticket] == op
       case Locked(op) => w.started[proc.ticket] == op
       case Loaded(op, snapshot) => w.started[proc.ticket] == op && snapshot == w.file
       case Computed(op, next, out) => w.started[proc.ticket] == op && apply(w.file, op) == Some((next, out))
       case Writing(op, next, out) => w.started[proc.ticket] == op && apply(w.file, op) == Some((next, out))
       case Written(op, next, out) =>
         && w.started[proc.ticket] == op && apply(w.file, op) == Some((next, out))
         && pid in w.temps && w.temps[pid] == Whole(next)
       case Saved(slot, out, _, _) => slot < |outs| && outs[slot] == out
  }

  predicate Unreported<F, Op, Out>(phase: Phase<F, Op, Out>) {
    phase.Saved? && !phase.reported
  }

  /** Tickets are used once and saved at most once; a saved process knows its place in the save order. */
  ghost predicate DistinctTickets<F, Op, Out>(processes: map<Pid, Process<F, Op, Out>>, saved: seq<nat>) {
    && (forall p, q :: p in processes && q in processes && p != q ==> processes[p].ticket != processes[q].ticket)
    && (forall i, j :: 0 <= i < j < |saved| ==> saved[i] != saved[j])
    && (forall p, i :: p in processes && !processes[p].phase.Saved? && 0 <= i < |saved| ==>
          saved[i] != processes[p].ticket)
    && (forall p :: p in processes && processes[p].phase.Saved? ==>
          processes[p].phase.slot < |saved| && saved[processes[p].phase.slot] == processes[p].ticket)
  }

  /** No save is reported twice, and none is reported while its process still has to report it. */
  ghost predicate DistinctReports<F, Op, Out>(processes: map<Pid, Process<F, Op, Out>>, reports: seq<(nat, Out)>) {
    && (forall i, j :: 0 <= i < j < |reports| ==> reports[i].0 != reports[j].0)
    && (forall p, i :: p in processes && Unreported(processes[p].phase) && 0 <= i < |reports| ==>
          reports[i].0 != processes[p].phase.slot)
  }

  ghost predicate ReportsOk<Out>(reports: seq<(nat, Out)>, outs: seq<Out>) {
    forall i :: 0 <= i < |reports| ==> reports[i].0 < |outs| && outs[reports[i].0] == reports[i].1
  }

  ghost predicate Inv<F, Op, Out>(apply: Operation<F, Op, Out>, file: Option<F>, w: World<F, Op, Out>, outs: seq<Out>) {
    && TicketsKnown(w)
    && |outs| == |w.saved|
    && Sequential(apply, file, SavedOps(w)) == Some((w.file, outs))
    && ReportsOk(w.reports, outs)
    && DistinctTickets(w.processes, w.saved) && DistinctReports(w.processes, w.reports)
    && (forall p :: p in w.processes ==> PhaseOk(apply, w, outs, p, w.processes[p]))
  }

  lemma RenameKeepsDistinct<F, Op, Out>(
      processes: map<Pid, Process<F, Op, Out>>, saved: seq<nat>, reports: seq<(nat, Out)>, pid: Pid, out: Out)
    requires DistinctTickets(processes, saved) && DistinctReports(processes, reports)
    requires pid in processes && !processes[pid].phase.Saved?
    requires forall i :: 0 <= i < |reports| ==> reports[i].0 < |saved|
    ensures var moved := processes[pid := processes[pid].(phase := Saved(|saved|, out, true, false))];
            DistinctTickets(moved, saved + [processes[pid].ticket]) && DistinctReports(moved, reports)
  {
  }

  /** Renaming appends one operation to the sequential run. */
  lemma RenameKeepsInv<F, Op, Out>(
      apply: Operation<F, Op, Out>, file: Option<F>, w: World<F, Op, Out>, outs: seq<Out>, pid: Pid)
    requires Inv(apply, file, w, outs)
    requires pid in w.processes && w.processes[pid].phase.Written?
    ensures Inv(apply, file, Step(apply, w, Rename(pid)), outs + [w.processes[pid].phase.out])
  {
    var proc := w.processes[pid];
    var next := Step(apply, w, Rename(pid));
    assert PhaseOk(apply, w, outs, pid, proc);
    assert SavedOps(next) == SavedOps(w) + [proc.phase.op];
    assert SavedOps(next)[..|w.saved|] == SavedOps(w);
    RenameKeepsDistinct(w.processes, w.saved, w.reports, pid, proc.phase.out);
    forall p | p in next.processes
      ensures PhaseOk(apply, next, outs + [proc.phase.out], p, next.processes[p])
    {
      if p != pid { assert PhaseOk(apply, w, outs, p, w.processes[p]); }
    }
  }

  lemma StartKeepsInv<F, Op, Out>(
      apply: Operation<F, Op, Out>, file: Option<F>, w: World<F, Op, Out>, outs: seq<Out>, pid: Pid, op: Op)
    requires Inv(apply, file, w, outs) && pid !in w.processes
    ensures Inv(apply, file, Step(apply, w, Start(pid, op)), outs)
  {
    var next := Step(apply, w, Start(pid, op));
    assert SavedOps(next) == SavedOps(w);
    forall p | p in next.processes
      ensures PhaseOk(apply, next, outs, p, next.processes[p])
    {
      if p != pid { assert PhaseOk(apply, w, outs, p, w.processes[p]); }
    }
    forall p | p in w.processes ensures w.processes[p].ticket < |w.started| {
      assert PhaseOk(apply, w, outs, p, w.processes[p]);
    }
  }

  /** A process that stops takes nothing with it but its lock. */
  lemma StopKeepsInv<F, Op, Out>(
      apply: Operation<F, Op, Out>, file: Option<F>, w: World<F, Op, Out>, outs: seq<Out>, pid: Pid)
    requires Inv(apply, file, w, outs) && pid in w.processes
    ensures Inv(apply, file, Unlock(w, pid).(processes := w.processes - {pid}), outs)
  {
    var next := Unlock(w, pid).(processes := w.processes - {pid});
    assert SavedOps(next) == SavedOps(w);
    forall p | p in next.processes
      ensures PhaseOk(apply, next, outs, p, next.processes[p])
    {
      assert PhaseOk(apply, w, outs, p, w.processes[p]);
    }
  }

  /** A process that moves on before its rename touches only its own phase, temporary file and lock. */
  lemma AdvanceKeepsInv<F, Op, Out>(
      apply: Operation<F, Op, Out>, file: Option<F>, w: World<F, Op, Out>, outs: seq<Out>, pid: Pid,
      lock: Option<Pid>, temps: map<Pid, Temp<F>>, phase: Phase<F, Op, Out>)
    requires Inv(apply, file, w, outs) && pid in w.processes
    requires !w.processes[pid].phase.Saved? && !phase.Saved?
    requires lock == w.lock || w.lock == None
    requires forall p :: p != pid && p in w.temps ==> p in temps && temps[p] == w.temps[p]
    requires PhaseOk(apply, w.(lock := lock, temps := temps), outs, pid, w.processes[pid].(phase := phase))
    ensures Inv(apply, file, SetPhase(w.(lock := lock, temps := temps), pid, phase), outs)
  {
    var next := SetPhase(w.(lock := lock, temps := temps), pid, phase);
    assert SavedOps(next) == SavedOps(w);
    forall p | p in next.processes
      ensures PhaseOk(apply, next, outs, p, next.processes[p])
    {
      if p != pid { assert PhaseOk(apply, w, outs, p, w.processes[p]); }
    }
  }

  lemma ReportKeepsDistinct<F, Op, Out>(
      processes: map<Pid, Process<F, Op, Out>>, saved: seq<nat>, reports: seq<(nat, Out)>, pid: Pid)
    requires DistinctTickets(processes, saved) && DistinctReports(processes, reports)
    requires pid in processes && Unreported(processes[pid].phase)
    ensures var phase := processes[pid].phase;
            DistinctReports(processes[pid := processes[pid].(phase := phase.(reported := true))],
                            reports + [(phase.slot, phase.out)])
  {
    var phase := processes[pid].phase;
    forall p | p in processes && p != pid && Unreported(processes[p].phase)
      ensures phase.slot != processes[p].phase.slot
    {
      assert processes[p].ticket != processes[pid].ticket;
    }
  }

  lemma ReportKeepsInv<F, Op, Out>(
      apply: Operation<F, Op, Out>, file: Option<F>, w: World<F, Op, Out>, outs: seq<Out>, pid: Pid)
    requires Inv(apply, file, w, outs)
    requires pid in w.processes && Unreported(w.processes[pid].phase)
    ensures var phase := w.processes[pid].phase;
            Inv(apply, file,
                SetPhase(w.(reports := w.reports + [(phase.slot, phase.out)]), pid, phase.(reported := true)), outs)
  {
    var phase := w.processes[pid].phase;
    var next := SetPhase(w.(reports := w.reports + [(phase.slot, phase.out)]), pid, phase.(reported := true));
    assert SavedOps(next) == SavedOps(w);
    assert PhaseOk(apply, w, outs, pid, w.processes[pid]);
    ReportKeepsDistinct(w.processes, w.saved, w.reports, pid);
    forall p | p in next.processes
      ensures PhaseOk(apply, next, outs, p, next.processes[p])
    {
      assert PhaseOk(apply, w, outs, p, w.processes[p]);
    }
  }

  lemma ReleaseKeepsInv<F, Op, Out>(
      apply: Operation<F, Op, Out>, file: Option<F>, w: World<F, Op, Out>, outs: seq<Out>, pid: Pid)
    requires Inv(apply, file, w, outs)
    requires pid in w.processes && w.processes[pid].phase.Saved?
    ensures Inv(apply, file, SetPhase(Unlock(w, pid), pid, w.processes[pid].phase.(holding := false)), outs)
  {
    var next := SetPhase(Unlock(w, pid), pid, w.processes[pid].phase.(holding := false));
    assert SavedOps(next) == SavedOps(w);
    forall p | p in next.processes
      ensures PhaseOk(apply, next, outs, p, next.processes[p])
    {
      assert PhaseOk(apply, w, outs, p, w.processes[p]);
    }
  }

  /** Every other event leaves the sequential run as it was. */
  lemma OtherKeepsInv<F, Op, Out>(
      apply: Operation<F, Op, Out>, file: Option<F>, w: World<F, Op, Out>, outs: seq<Out>, e: Event<Op>)
    requires Inv(apply, file, w, outs) && !e.Rename?
    ensures Inv(apply, file, Step(apply, w, e), outs)
  {
    if e.Start? {
      if e.pid !in w.processes { StartKeepsInv(apply, file, w, outs, e.pid, e.op); }
    } else if e.pid in w.processes {
      var pid := e.pid;
      assert PhaseOk(apply, w, outs, pid, w.processes[pid]);
      match (e, w.processes[pid].phase)
      case (Lock(_), Waiting(op)) =>
        if w.lock == None { AdvanceKeepsInv(apply, file, w, outs, pid, Some(pid), w.temps, Locked(op)); }
      case (Load(_), Locked(op)) =>
        AdvanceKeepsInv(apply, file, w, outs, pid, w.lock, w.temps, Loaded(op, w.file));
      case (Compute(_), Loaded(op, snapshot)) =>
        if apply(snapshot, op) == None {
          StopKeepsInv(apply, file, w, outs, pid);
        } else {
          var (next, out) := apply(snapshot, op).value;
          AdvanceKeepsInv(apply, file, w, outs, pid, w.lock, w.temps, Computed(op, next, out));
        }
      case (OpenTemp(_), Computed(op, next, out)) =>
        AdvanceKeepsInv(apply, file, w, outs, pid, w.lock, w.temps[pid := Torn], Writing(op, next, out));
      case (FinishTemp(_), Writing(op, next, out)) =>
        AdvanceKeepsInv(apply, file, w, outs, pid, w.lock, w.temps[pid := Whole(next)], Written(op, next, out));
      case (Report(_), Saved(_, _, _, false)) => ReportKeepsInv(apply, file, w, outs, pid);
      case (Release(_), Saved(_, _, true, _)) => ReleaseKeepsInv(apply, file, w, outs, pid);
      case (Stop(_), _) => StopKeepsInv(apply, file, w, outs, pid);
      case _ =>
    }
  }

  lemma {:induction false} RunKeepsInv<F, Op, Out>(
      apply: Operation<F, Op, Out>, file: Option<F>, events: seq<Event<Op>>)
      returns (outs: seq<Out>)
    ensures Inv(apply, file, Run(apply, file, events), outs)
  {
    if events == [] {
      outs := [];
    } else {
      var e := events[|events| - 1];
      var w := Run(apply, file, events[..|events| - 1]);
      outs := RunKeepsInv(apply, file, events[..|events| - 1]);
      if e.Rename? && e.pid in w.processes && w.processes[e.pid].phase.Written? {
        RenameKeepsInv(apply, file, w, outs, e.pid);
        outs := outs + [w.processes[e.pid].phase.out];
      } else if !e.Rename? {
        OtherKeepsInv(apply, file, w, outs, e);
      }
    }
  }

  /**
   * No lost update, for every interleaving and every pattern of stops: the file is what the saved operations
   * produce one after another in save order, each started operation is saved at most once, and every report is
   * the output of its own operation in that sequence, given at most once.
   */
  lemma Serializable<F, Op, Out>(apply: Operation<F, Op, Out>, file: Option<F>, events: seq<Event<Op>>)
      returns (outs: seq<Out>)
    ensures var w := Run(apply, file, events);
            && TicketsKnown(w)
            && Sequential(apply, file, SavedOps(w)) == Some((w.file, outs))
            && |outs| == |w.saved|
            && (forall i, j :: 0 <= i < j < |w.saved| ==> w.saved[i] != w.saved[j])
            && ReportsOk(w.reports, outs)
            && (forall i, j :: 0 <= i < j < |w.reports| ==> w.reports[i].0 != w.reports[j].0)
  {
    outs := RunKeepsInv(apply, file, events);
  }

  lemma StepExtends<F, Op, Out>(apply: Operation<F, Op, Out>, w: World<F, Op, Out>, e: Event<Op>)
    ensures w.saved <= Step(apply, w, e).saved && w.started <= Step(apply, w, e).started
    ensures w.reports <= Step(apply, w, e).reports
  {
  }

  /** History only grows. */
  lemma {:induction false} RunExtends<F, Op, Out>(
      apply: Operation<F, Op, Out>, file: Option<F>, events: seq<Event<Op>>, k: nat)
    requires k <= |events|
    ensures Run(apply, file, events[..k]).saved <= Run(apply, file, events).saved
    ensures Run(apply, file, events[..k]).started <= Run(apply, file, events).started
    ensures Run(apply, file, events[..k]).reports <= Run(apply, file, events).reports
  {
    if k == |events| {
      assert events[..k] == events;
    } else {
      var front := events[..|events| - 1];
      assert front[..k] == events[..k];
      RunExtends(apply, file, front, k);
      StepExtends(apply, Run(apply, file, front), events[|events| - 1]);
    }
  }

  // ----- One process alone -----

  /** The world after a process has started, taken the lock, loaded and computed. */
  function Begun<F, Op, Out>(apply: Operation<F, Op, Out>, w: World<F, Op, Out>, pid: Pid, op: Op): World<F, Op, Out> {
    var started := Step(apply, w, Start(pid, op));
    var locked := Step(apply, started, Lock(pid));
    Step(apply, Step(apply, locked, Load(pid)), Compute(pid))
  }

  /** After it has written its temporary file and renamed it. */
  function Renamed<F, Op, Out>(apply: Operation<F, Op, Out>, w: World<F, Op, Out>, pid: Pid): World<F, Op, Out> {
    Step(apply, Step(apply, Step(apply, w, OpenTemp(pid)), FinishTemp(pid)), Rename(pid))
  }

  /** And after it has reported and released. */
  function Ended<F, Op, Out>(apply: Operation<F, Op, Out>, w: World<F, Op, Out>, pid: Pid): World<F, Op, Out> {
    Step(apply, Step(apply, w, Report(pid)), Release(pid))
  }

  lemma BeginAlone<F, Op, Out>(apply: Operation<F, Op, Out>, w: World<F, Op, Out>, pid: Pid, op: Op)
    requires w.lock == None && pid !in w.processes
    ensures var begun := Begun(apply, w, pid, op);
            && begun.file == w.file && begun.saved == w.saved && begun.reports == w.reports
            && begun.started == w.started + [op]
            && match apply(w.file, op)
               case None => begun.lock == None && begun.processes == w.processes
               case Some((next, out)) =>
                 && begun.lock == Some(pid) && pid in begun.processes
                 && begun.processes[pid] == Process(|w.started|, Computed(op, next, out))
  {
  }

  lemma RenameAlone<F, Op, Out>(apply: Operation<F, Op, Out>, w: World<F, Op, Out>, pid: Pid)
    requires pid in w.processes && w.processes[pid].phase.Computed?
    ensures var renamed, phase := Renamed(apply, w, pid), w.processes[pid].phase;
            && renamed.file == Some(phase.next) && renamed.lock == w.lock && renamed.started == w.started
            && renamed.saved == w.saved + [w.processes[pid].ticket] && renamed.reports == w.reports
            && pid in renamed.processes && renamed.processes[pid].phase == Saved(|w.saved|, phase.out, true, false)
  {
    var phase := w.processes[pid].phase;
    var torn := Step(apply, w, OpenTemp(pid));
    assert torn == SetPhase(w.(temps := w.temps[pid := Torn]), pid, Writing(phase.op, phase.next, phase.out));
    var finished := Step(apply, torn, FinishTemp(pid));
    assert finished.temps[pid] == Whole(phase.next) && finished.file == w.file && finished.saved == w.saved;
  }

  lemma EndAlone<F, Op, Out>(apply: Operation<F, Op, Out>, w: World<F, Op, Out>, pid: Pid)
    requires w.lock == Some(pid) && pid in w.processes
    requires w.processes[pid].phase.Saved? && w.processes[pid].phase.holding && !w.processes[pid].phase.reported
    ensures var ended, phase := Ended(apply, w, pid), w.processes[pid].phase;
            && ended.file == w.file && ended.lock == None && ended.started == w.started && ended.saved == w.saved
            && ended.reports == w.reports + [(phase.slot, phase.out)]
  {
  }

  /**
   * A process that finds the lock free and is not interrupted does its work: the file is its result, it is saved and
   * reported once, and the lock is free again. If its operation is refused the file stays and the lock is free too.
   */
  lemma AloneDoesItsWork<F, Op, Out>(apply: Operation<F, Op, Out>, w: World<F, Op, Out>, pid: Pid, op: Op)
    requires w.lock == None && pid !in w.processes
    ensures match apply(w.file, op)
            case None =>
              var begun := Begun(apply, w, pid, op);
              begun.file == w.file && begun.lock == None && begun.saved == w.saved && begun.reports == w.reports
            case Some((next, out)) =>
              var ended := Ended(apply, Renamed(apply, Begun(apply, w, pid, op), pid), pid);
              && ended.file == Some(next) && ended.lock == None
              && ended.saved == w.saved + [|w.started|] && ended.started == w.started + [op]
              && ended.reports == w.reports + [(|w.saved|, out)]
  {
    BeginAlone(apply, w, pid, op);
    if apply(w.file, op).Some? {
      RenameAlone(apply, Begun(apply, w, pid, op), pid);
      EndAlone(apply, Renamed(apply, Begun(apply, w, pid, op), pid), pid);
    }
  }

  /** A process that stops, wherever it is, is gone and holds no lock; the file and the history stay. */
  lemma StopReleases<F, Op, Out>(apply: Operation<F, Op, Out>, w: World<F, Op, Out>, pid: Pid)
    requires pid in w.processes
    ensures var stopped := Step(apply, w, Stop(pid));
            && pid !in stopped.processes && stopped.lock == (if w.lock == Some(pid) then None else w.lock)
            && stopped.processes == w.processes - {pid} && stopped.temps == w.temps
            && stopped.file == w.file && stopped.saved == w.saved && stopped.reports == w.reports
            && stopped.started == w.started
  {
  }

  lemma {:induction false} SequentialBegins<F, Op, Out>(apply: Operation<F, Op, Out>, file: Option<F>, ops: seq<Op>)
    requires ops != [] && Sequential(apply, file, ops).Some?
    ensures apply(file, ops[0]).Some?
  {
    var n := |ops| - 1;
    if n == 0 {
      assert ops[..n] == [];
    } else {
      SequentialBegins(apply, file, ops[..n]);
    }
  }

  /** A file on which every operation is refused stays as it is, and nothing is saved or reported. */
  lemma RefusingFileStays<F(!new), Op(!new), Out>(
      apply: Operation<F, Op, Out>, file: Option<F>, events: seq<Event<Op>>)
    requires forall op: Op :: apply(file, op) == None
    ensures var w := Run(apply, file, events);
            w.file == file && w.saved == [] && w.reports == []
  {
    var w := Run(apply, file, events);
    var outs := Serializable(apply, file, events);
    if w.saved != [] {
      SequentialBegins(apply, file, SavedOps(w));
    }
    assert w.saved == [] && SavedOps(w) == [];
    assert w.reports != [] ==> w.reports[0].0 < |outs|;
  }

  // ----- Operations that use a token up -----

  /** Each operation that succeeds adds one token to those on file, a token that was not there. */
  ghost predicate UsesTokens<F(!new), Op(!new), Out, D>(
      apply: Operation<F, Op, Out>, onFile: Option<F> -> set<D>, token: Out -> D)
  {
    forall f: Option<F>, op: Op :: apply(f, op).Some? ==>
      && onFile(Some(apply(f, op).value.0)) == onFile(f) + {token(apply(f, op).value.1)}
      && token(apply(f, op).value.1) !in onFile(f)
  }

  ghost predicate TokensUsed<Out, D>(outs: seq<Out>, token: Out -> D, before: set<D>, after: set<D>) {
    && before <= after
    && (forall i :: 0 <= i < |outs| ==> token(outs[i]) in after && token(outs[i]) !in before)
    && (forall i, j :: 0 <= i < j < |outs| ==> token(outs[i]) != token(outs[j]))
    && (forall d :: d in after ==> d in before || exists i :: 0 <= i < |outs| && token(outs[i]) == d)
  }

  lemma {:induction false} SequentialUsesTokens<F(!new), Op(!new), Out, D>(
      apply: Operation<F, Op, Out>, onFile: Option<F> -> set<D>, token: Out -> D, file: Option<F>, ops: seq<Op>)
    requires UsesTokens(apply, onFile, token)
    requires Sequential(apply, file, ops).Some?
    ensures var (end, outs) := Sequential(apply, file, ops).value;
            |outs| == |ops| && TokensUsed(outs, token, onFile(file), onFile(end))
  {
    if ops == [] {
    } else {
      var n := |ops| - 1;
      SequentialUsesTokens(apply, onFile, token, file, ops[..n]);
      var (before, front) := Sequential(apply, file, ops[..n]).value;
      var (next, out) := apply(before, ops[n]).value;
      var outs := front + [out];
      forall d | d in onFile(Some(next))
        ensures d in onFile(file) || exists i :: 0 <= i < |outs| && token(outs[i]) == d
      {
        if d == token(out) {
          assert outs[n] == out;
        } else if d !in onFile(file) {
          var i :| 0 <= i < |front| && token(front[i]) == d;
          assert outs[i] == front[i];
        }
      }
      forall i | 0 <= i < n ensures token(outs[i]) != token(out) && token(outs[i]) in onFile(before) {
        assert outs[i] == front[i];
      }
    }
  }

  /** Across all processes no token is reported twice; every reported token is on file and was not at the start. */
  lemma ReportsUseTokens<F(!new), Op(!new), Out, D>(
      apply: Operation<F, Op, Out>, onFile: Option<F> -> set<D>, token: Out -> D, file: Option<F>,
      events: seq<Event<Op>>)
    requires UsesTokens(apply, onFile, token)
    ensures var w := Run(apply, file, events);
            && (forall i, j :: 0 <= i < j < |w.reports| ==> token(w.reports[i].1) != token(w.reports[j].1))
            && (forall i :: 0 <= i < |w.reports| ==>
                  token(w.reports[i].1) in onFile(w.file) && token(w.reports[i].1) !in onFile(file))
  {
    var w := Run(apply, file, events);
    var outs := Serializable(apply, file, events);
    SequentialUsesTokens(apply, onFile, token, file, SavedOps(w));
    forall i, j | 0 <= i < j < |w.reports| ensures token(w.reports[i].1) != token(w.reports[j].1) {
      assert w.reports[i].0 != w.reports[j].0;
    }
  }

  lemma {:induction false} SequentialTokensGrow<F(!new), Op(!new), Out, D>(
      apply: Operation<F, Op, Out>, onFile: Option<F> -> set<D>, token: Out -> D, file: Option<F>, ops: seq<Op>, k: nat)
    requires UsesTokens(apply, onFile, token)
    requires k <= |ops| && Sequential(apply, file, ops).Some?
    ensures Sequential(apply, file, ops[..k]).Some?
    ensures onFile(Sequential(apply, file, ops[..k]).value.0) <= onFile(Sequential(apply, file, ops).value.0)
  {
    if k == |ops| {
      assert ops[..k] == ops;
    } else {
      var n := |ops| - 1;
      assert ops[..n][..k] == ops[..k];
      SequentialTokensGrow(apply, onFile, token, file, ops[..n], k);
    }
  }

  /** The tokens on file only grow along a run. */
  lemma TokensGrow<F(!new), Op(!new), Out, D>(
      apply: Operation<F, Op, Out>, onFile: Option<F> -> set<D>, token: Out -> D, file: Option<F>,
      events: seq<Event<Op>>, k: nat)
    requires UsesTokens(apply, onFile, token) && k <= |events|
    ensures onFile(Run(apply, file, events[..k]).file) <= onFile(Run(apply, file, events).file)
  {
    var early, late := Run(apply, file, events[..k]), Run(apply, file, events);
    var _ := Serializable(apply, file, events[..k]);
    var _ := Serializable(apply, file, events);
    RunExtends(apply, file, events, k);
    assert SavedOps(early) == SavedOps(late)[..|early.saved|];
    SequentialTokensGrow(apply, onFile, token, file, SavedOps(late), |early.saved|);
  }

  /** What holds of every success holds of every report and the started operation it belongs to. */
  lemma {:induction false} SequentialOutputs<F(!new), Op(!new), Out>(
      apply: Operation<F, Op, Out>, good: (Op, Out) -> bool, file: Option<F>, ops: seq<Op>)
    requires forall f: Option<F>, op: Op :: apply(f, op).Some? ==> good(op, apply(f, op).value.1)
    requires Sequential(apply, file, ops).Some?
    ensures |Sequential(apply, file, ops).value.1| == |ops|
    ensures forall i :: 0 <= i < |ops| ==> good(ops[i], Sequential(apply, file, ops).value.1[i])
  {
    if ops == [] {
    } else {
      SequentialOutputs(apply, good, file, ops[..|ops| - 1]);
    }
  }

  lemma ReportsAreOutputs<F(!new), Op(!new), Out>(
      apply: Operation<F, Op, Out>, good: (Op, Out) -> bool, file: Option<F>, events: seq<Event<Op>>)
    requires forall f: Option<F>, op: Op :: apply(f, op).Some? ==> good(op, apply(f, op).value.1)
    ensures forall report :: report in Run(apply, file, events).reports ==>
            GoodReport(good, Run(apply, file, events), report)
  {
    var w := Run(apply, file, events);
    var outs := Serializable(apply, file, events);
    SequentialOutputs(apply, good, file, SavedOps(w));
    forall report | report in w.reports ensures GoodReport(good, w, report) {
      var i :| 0 <= i < |w.reports| && w.reports[i] == report;
      assert outs[report.0] == report.1 && SavedOps(w)[report.0] == w.started[w.saved[report.0]];
    }
  }

  ghost predicate GoodReport<F, Op, Out>(good: (Op, Out) -> bool, w: World<F, Op, Out>, report: (nat, Out)) {
    && report.0 < |w.saved| && w.saved[report.0] < |w.started|
    && good(w.started[w.saved[report.0]], report.1)
  }
}
