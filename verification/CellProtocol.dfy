/** The parallel decoder's cells: the planning and executing thread hands a
    cell one block after another, each under a ticket; pool tasks and that
    thread race for its decode and its literals. Every load, store and
    compare-exchange is one step, in any interleaving. */
module CellProtocol {

  /** A decode of a block: `first` if its sequences come before its literals. */
  datatype Pc =
    | Waiting | Taken
    | Seqs(first: bool, wrote: nat)
    | LitTry(first: bool) | LitWork(first: bool) | LitMark(first: bool)
    | Ending | Ended
  {
    predicate Active() { !Waiting? && !Ended? }
    predicate OnLits() { LitWork? || LitMark? }

    /** Nothing is published yet. */
    predicate Before() { Taken? || ((LitTry? || LitWork? || LitMark?) && !first) }
  }

  datatype Task = Task(ticket: nat, pc: Pc)

  /** Where the executing thread is, for the block of `t`. */
  datatype Exec =
    | Idle
    | Hand(t: nat, next: bool, stores: nat)
    | Planned(t: nat)
    | Inline(t: nat, id: nat)
    | LitsTry(t: nat) | LitsWork(t: nat) | LitsMark(t: nat)
    | Start(t: nat) | StartProgress(t: nat) | StartLits(t: nat) | LitsWait(t: nat)
    | Run(t: nat, at: nat, n: nat)
    | Wait(t: nat, at: nat) | WaitMore(t: nat, at: nat, ended: bool)
    | Finish(t: nat)
    | Retired(t: nat)
  {
    predicate Quiet() { Idle? || Hand? }
    predicate OnLits() { LitsWork? || LitsMark? }

    /** Someone has taken the literals by now. */
    predicate PastLits() { Start? || StartProgress? || StartLits? || LitsWait? || Running() || Finish? }
    predicate Running() { Run? || Wait? || WaitMore? }
  }

  /** The cell's atomics and its slot, which names for each sequence the
      ticket whose decode wrote it; the threads; and, seen by none of them,
      the ticket the claim is about, the task that took it, and who took what. */
  datatype State = State(
    claim: nat, done: nat, litClaim: nat, litDone: nat, sequencesFirst: bool, progress: nat,
    slot: map<nat, nat>, tasks: seq<Task>, exec: Exec,
    cur: int, owner: int, takes: multiset<int>, litTakes: multiset<int>)

  datatype Action =
    | BeginHand(t: nat, next: bool) | HandStore | Spawn | TryTake | Retire | Reuse | InlineEnds
    | TryLits | EndLits | MarkLits
    | LoadDone | LoadProgress | LoadLitDone | AwaitLits
    | ReadSeq | LoadReady | WaitDone | WaitProgress | StopRun | AwaitDone
    | Claim(i: nat) | Order(i: nat) | Clear(i: nat) | Write(i: nat) | Publish(i: nat) | EndSeqs(i: nat, ok: bool)
    | ClaimLits(i: nat) | TaskEndLits(i: nat) | TaskMarkLits(i: nat) | MarkDone(i: nat)
  {
    predicate OfTask() {
      Claim? || Order? || Clear? || Write? || Publish? || EndSeqs? || ClaimLits? || TaskEndLits? || TaskMarkLits? || MarkDone?
    }
    predicate OfSlot() { Clear? || Write? || Publish? }
    predicate OfHand() { BeginHand? || HandStore? || Reuse? || Retire? }
    predicate OfTake() { Spawn? || TryTake? || InlineEnds? }
    predicate OfLits() { TryLits? || EndLits? || MarkLits? }
  }

  /** `Cell::new`: taken, of no block. */
  ghost predicate Init(s: State) {
    s == State(1, 0, 1, 0, false, 0, map[], [], Idle, -1, -1, multiset{}, multiset{})
  }

  /** A block's number of sequences. */
  datatype Blocks = Blocks(num: nat -> nat)

  ghost predicate Enabled(s: State, a: Action, b: Blocks) {
    match a
    // Tickets are never used again.
    case BeginHand(t, _) => s.exec.Idle? && t > s.cur
    case HandStore => s.exec.Hand? && s.exec.stores <= 3
    case Spawn => s.exec.Planned?
    case TryTake => s.exec.Planned?
    case Retire => s.exec.Planned?
    // A cell given up is reused once no task holds it.
    case Reuse => s.exec.Retired? && forall i :: 0 <= i < |s.tasks| ==> s.tasks[i].pc.Ended?
    case InlineEnds => s.exec.Inline? && s.exec.id < |s.tasks| && s.tasks[s.exec.id].pc.Ended?
    case TryLits => s.exec.LitsTry?
    case EndLits => s.exec.LitsWork?
    case MarkLits => s.exec.LitsMark?
    case LoadDone => s.exec.Start?
    case LoadProgress => s.exec.StartProgress?
    case LoadLitDone => s.exec.StartLits?
    case AwaitLits => s.exec.LitsWait? && s.litDone == 2 * s.exec.t + 1
    case ReadSeq => s.exec.Run? && s.exec.at < s.exec.n
    case LoadReady => s.exec.Run? && s.exec.at == s.exec.n < b.num(s.exec.t)
    case WaitDone => s.exec.Wait?
    case WaitProgress => s.exec.WaitMore?
    case StopRun => s.exec.Run?
    case AwaitDone => s.exec.Finish? && s.done == 2 * s.exec.t + 1
    case _ =>
      a.i < |s.tasks|
      && var pc := s.tasks[a.i].pc;
         match a
         case Claim(_) => pc.Waiting?
         case Order(_) => pc.Taken?
         case Clear(_) => pc.Seqs? && pc.wrote == 0 && s.progress == 0
         case Write(_) => pc.Seqs? && pc.wrote < b.num(s.tasks[a.i].ticket)
         case Publish(_) => pc.Seqs? && s.progress < pc.wrote
         case EndSeqs(_, _) => pc.Seqs?
         case ClaimLits(_) => pc.LitTry?
         case TaskEndLits(_) => pc.LitWork?
         case TaskMarkLits(_) => pc.LitMark?
         case _ => pc.Ending?
  }

  function AfterLits(first: bool): Pc { if first then Ending else Seqs(false, 0) }

  /** One step. */
  ghost function Apply(s: State, a: Action, b: Blocks): State
    requires Enabled(s, a, b)
  {
    if a.OfTask() then ApplyTask(s, a, b) else ApplyExec(s, a, b)
  }

  ghost function ApplyExec(s: State, a: Action, b: Blocks): State
    requires Enabled(s, a, b) && !a.OfTask()
  {
    var e := s.exec;
    match a
    case BeginHand(t, next) => s.(exec := Hand(t, next, 0))
    case HandStore =>
      if e.stores == 0 then s.(progress := 0, exec := Hand(e.t, e.next, 1))
      else if e.stores == 1 then s.(sequencesFirst := e.next, exec := Hand(e.t, e.next, 2))
      else if e.stores == 2 then s.(litClaim := 2 * e.t, exec := Hand(e.t, e.next, 3))
      else s.(claim := 2 * e.t, exec := Planned(e.t), cur := e.t, owner := -1)
    case Spawn => s.(tasks := s.tasks + [Task(e.t, Waiting)])
    case TryTake =>
      if s.claim == 2 * e.t then
        s.(claim := s.claim + 1, tasks := s.tasks + [Task(e.t, Taken)], owner := |s.tasks|, exec := Inline(e.t, |s.tasks|),
           takes := s.takes + multiset{e.t})
      else s.(exec := LitsTry(e.t))
    case Retire =>
      if s.claim == 2 * e.t then s.(claim := s.claim + 1, exec := Retired(e.t), takes := s.takes + multiset{e.t})
      else s.(exec := Retired(e.t))
    case Reuse => s.(exec := Idle)
    case InlineEnds => s.(exec := LitsTry(e.t))
    case TryLits =>
      if s.litClaim == 2 * e.t then s.(litClaim := s.litClaim + 1, exec := LitsWork(e.t), litTakes := s.litTakes + multiset{e.t})
      else s.(exec := Start(e.t))
    case EndLits => s.(exec := LitsMark(e.t))
    case MarkLits => s.(litDone := 2 * e.t + 1, exec := Start(e.t))
    case LoadDone => s.(exec := if s.done == 2 * e.t + 1 then LitsWait(e.t) else StartProgress(e.t))
    case LoadProgress => s.(exec := if s.progress != 0 then StartLits(e.t) else Start(e.t))
    case LoadLitDone => s.(exec := if s.litDone == 2 * e.t + 1 then LitsWait(e.t) else Start(e.t))
    case AwaitLits => s.(exec := Run(e.t, 0, 0))
    case ReadSeq => s.(exec := Run(e.t, e.at + 1, e.n))
    case LoadReady => s.(exec := if s.progress > e.at then Run(e.t, e.at, s.progress) else Wait(e.t, e.at))
    case WaitDone => s.(exec := WaitMore(e.t, e.at, s.done == 2 * e.t + 1))
    case WaitProgress =>
      s.(exec := if s.progress > e.at then Run(e.t, e.at, s.progress) else if e.ended then Finish(e.t) else Wait(e.t, e.at))
    case StopRun => s.(exec := Finish(e.t))
    case _ => s.(exec := Idle)
  }

  ghost function ApplyTask(s: State, a: Action, b: Blocks): State
    requires Enabled(s, a, b) && a.OfTask()
  {
    var Task(t, pc) := s.tasks[a.i];
    match a
    case Claim(i) =>
      if s.claim == 2 * t then At(s, i, Taken).(claim := s.claim + 1, owner := i, takes := s.takes + multiset{t})
      else At(s, i, Ended)
    case Order(i) => At(s, i, if s.sequencesFirst then Seqs(true, 0) else LitTry(false))
    case Clear(i) => s.(slot := map[])
    case Write(i) => At(s, i, Seqs(pc.first, pc.wrote + 1)).(slot := s.slot[pc.wrote := t])
    case Publish(i) => s.(progress := pc.wrote)
    case EndSeqs(i, ok) => At(s, i, if ok && pc.first then LitTry(true) else Ending)
    case ClaimLits(i) =>
      if s.litClaim == 2 * t then At(s, i, LitWork(pc.first)).(litClaim := s.litClaim + 1, litTakes := s.litTakes + multiset{t})
      else At(s, i, AfterLits(pc.first))
    case TaskEndLits(i) => At(s, i, LitMark(pc.first))
    case TaskMarkLits(i) => At(s, i, AfterLits(pc.first)).(litDone := 2 * t + 1)
    case MarkDone(i) => At(s, i, Ended).(done := 2 * t + 1)
  }

  ghost function At(s: State, i: nat, pc: Pc): State
    requires i < |s.tasks|
  {
    s.(tasks := s.tasks[i := s.tasks[i].(pc := pc)])
  }

  // The invariant

  /** The claim is about ticket `cur`, planned or taken. */
  ghost predicate ClaimOk(s: State) {
    && -1 <= s.cur && -1 <= s.owner < |s.tasks|
    && (if s.cur < 0 then s.claim == 1 && s.exec.Quiet() else s.claim == 2 * s.cur || s.claim == 2 * s.cur + 1)
    && (if s.exec.Hand? then s.exec.t > s.cur && s.exec.stores <= 3 else s.exec.Idle? || s.exec.t == s.cur)
    && (s.exec.Quiet() ==> s.cur < 0 || s.claim == 2 * s.cur + 1)
    && (s.claim == 2 * s.cur ==> s.exec.Planned?)
    && (s.exec.Inline? ==> s.owner == s.exec.id)
  }

  /** Only the task that took the current block is at work. */
  ghost predicate TasksOk(s: State) {
    && -1 <= s.owner < |s.tasks|
    && (forall i :: 0 <= i < |s.tasks| ==> TaskOk(s, i))
    && (s.owner >= 0 ==> s.claim == 2 * s.cur + 1 && s.tasks[s.owner].ticket == s.cur && !s.tasks[s.owner].pc.Waiting?)
    && (s.exec.Quiet() && s.owner >= 0 ==> s.tasks[s.owner].pc.Ended?)
    && (s.claim == 2 * s.cur + 1 && !s.exec.Quiet() && !s.exec.Retired? ==> s.owner >= 0)
  }

  ghost predicate TaskOk(s: State, i: nat)
    requires i < |s.tasks|
  {
    s.tasks[i].ticket <= s.cur && (s.tasks[i].pc.Active() ==> s.owner == i)
  }

  /** A done mark of the current ticket means that its decode has ended. */
  ghost predicate DoneOk(s: State) {
    && -1 <= s.owner < |s.tasks|
    && (s.cur < 0 ==> s.done == 0) && (s.cur >= 0 ==> s.done <= 2 * s.cur + 1)
    && (s.done == 2 * s.cur + 1 <==> s.owner >= 0 && s.tasks[s.owner].pc.Ended?)
  }

  /** What is published was written by the decode of the current ticket. */
  ghost predicate SlotOk(s: State) {
    && -1 <= s.owner < |s.tasks|
    && (forall k :: 0 <= k < s.progress ==> k in s.slot && s.slot[k] == s.cur)
    && (s.claim == 2 * s.cur || (s.exec.Hand? && s.exec.stores >= 1) ==> s.progress == 0)
    && (s.owner >= 0 && s.tasks[s.owner].pc.Before() ==> s.progress == 0)
    && (s.owner >= 0 && s.tasks[s.owner].pc.Seqs? ==>
          var wrote := s.tasks[s.owner].pc.wrote;
          s.progress <= wrote && forall k :: 0 <= k < wrote ==> k in s.slot && s.slot[k] == s.cur)
  }

  /** The executing thread has seen no more published than there is. */
  ghost predicate RunOk(s: State) {
    && (s.exec.Run? ==> s.exec.at <= s.exec.n <= s.progress)
    && (s.exec.WaitMore? && s.exec.ended ==> s.done == 2 * s.cur + 1)
    && (s.exec.Running() ==> s.litDone == 2 * s.cur + 1)
  }

  /** The literals: taken by one side at most, marked done once that has ended. */
  ghost predicate LitsOk(s: State) {
    && -1 <= s.owner < |s.tasks|
    && var t := if s.exec.Hand? && s.exec.stores == 3 then s.exec.t else s.cur;
       var onTask := s.owner >= 0 && s.tasks[s.owner].pc.OnLits();
       && (if t < 0 then s.litClaim == 1 else s.litClaim == 2 * t || s.litClaim == 2 * t + 1)
       && (if s.cur < 0 then s.litDone == 0 else s.litDone <= 2 * s.cur + 1)
       && (onTask || s.exec.OnLits() ==> s.litClaim == 2 * s.cur + 1 && s.litDone < s.litClaim)
       && !(onTask && s.exec.OnLits())
       && (s.litDone == 2 * s.cur + 1 && s.cur >= 0 && t == s.cur ==> s.litClaim == 2 * s.cur + 1)
       && (s.exec.PastLits() ==> s.litClaim == 2 * s.cur + 1)
  }

  /** Each ticket is claimed at most once, and its literals too. */
  ghost predicate OnceOk(s: State) {
    && (forall t :: s.takes[t] <= 1 && s.litTakes[t] <= 1)
    && (forall t: int :: t > s.cur || s.claim == 2 * t ==> s.takes[t] == 0)
    && (forall t: int :: t > s.cur || s.litClaim == 2 * t ==> s.litTakes[t] == 0)
  }

  ghost predicate Inv(s: State) {
    ClaimOk(s) && TasksOk(s) && DoneOk(s) && SlotOk(s) && RunOk(s) && LitsOk(s) && OnceOk(s)
  }

  lemma InitInv(s: State)
    requires Init(s)
    ensures Inv(s)
  {
  }

  // One step: what the executing thread does, then what a task does, for each
  // part of the invariant, a few actions at a time

  ghost predicate OwnerInv(s: State) { ClaimOk(s) && TasksOk(s) && DoneOk(s) }

  ghost predicate DataInv(s: State) { SlotOk(s) && RunOk(s) }

  lemma ExecOwner(s: State, a: Action, b: Blocks)
    requires OwnerInv(s) && Enabled(s, a, b) && !a.OfTask() && LitsOk(s)
    ensures OwnerInv(ApplyExec(s, a, b))
  {
    hide ClaimOk, TasksOk, DoneOk, SlotOk, RunOk, LitsOk, OnceOk, ApplyTask, ApplyExec, Enabled;
    if a.OfHand() {
      ExecOwnerHands(s, a, b);
    } else if a.OfTake() {
      ExecOwnerTakes(s, a, b);
    } else {
      ExecOwnerRest(s, a, b);
    }
  }

  lemma ExecOwnerHands(s: State, a: Action, b: Blocks)
    requires OwnerInv(s) && Enabled(s, a, b) && !a.OfTask() && LitsOk(s)
    requires a.OfHand()
    ensures OwnerInv(ApplyExec(s, a, b))
  {
    hide LitsOk;
    var u := ApplyExec(s, a, b);
    forall i | 0 <= i < |u.tasks| ensures TaskOk(u, i) {
      if i < |s.tasks| {
        assert TaskOk(s, i);
      }
    }
  }

  lemma ExecOwnerTakes(s: State, a: Action, b: Blocks)
    requires OwnerInv(s) && Enabled(s, a, b) && !a.OfTask() && LitsOk(s)
    requires a.OfTake()
    ensures OwnerInv(ApplyExec(s, a, b))
  {
    hide LitsOk;
    var u := ApplyExec(s, a, b);
    forall i | 0 <= i < |u.tasks| ensures TaskOk(u, i) {
      if i < |s.tasks| {
        assert TaskOk(s, i);
      }
    }
  }

  lemma ExecOwnerRest(s: State, a: Action, b: Blocks)
    requires OwnerInv(s) && Enabled(s, a, b) && !a.OfTask() && LitsOk(s)
    requires !a.OfHand() && !a.OfTake()
    ensures OwnerInv(ApplyExec(s, a, b))
  {
    hide LitsOk;
    var u := ApplyExec(s, a, b);
    forall i | 0 <= i < |u.tasks| ensures TaskOk(u, i) {
      if i < |s.tasks| {
        assert TaskOk(s, i);
      }
    }
  }

  lemma ExecData(s: State, a: Action, b: Blocks)
    requires OwnerInv(s) && DataInv(s) && LitsOk(s) && Enabled(s, a, b) && !a.OfTask()
    ensures SlotOk(ApplyExec(s, a, b))
  {
    hide LitsOk, DoneOk;
  }

  lemma ExecRun(s: State, a: Action, b: Blocks)
    requires OwnerInv(s) && DataInv(s) && LitsOk(s) && Enabled(s, a, b) && !a.OfTask()
    ensures RunOk(ApplyExec(s, a, b))
  {
    hide ClaimOk, TasksOk, DoneOk, SlotOk, RunOk, LitsOk, OnceOk, ApplyTask, ApplyExec, Enabled;
    if a.OfHand() || a.OfTake() || a.OfLits() {
      ExecRunStarts(s, a, b);
    } else {
      ExecRunGoes(s, a, b);
    }
  }

  lemma ExecRunStarts(s: State, a: Action, b: Blocks)
    requires OwnerInv(s) && DataInv(s) && LitsOk(s) && Enabled(s, a, b) && !a.OfTask()
    requires (a.OfHand() || a.OfTake() || a.OfLits())
    ensures RunOk(ApplyExec(s, a, b))
  {
    hide TasksOk;
  }

  lemma ExecRunGoes(s: State, a: Action, b: Blocks)
    requires OwnerInv(s) && DataInv(s) && LitsOk(s) && Enabled(s, a, b) && !a.OfTask()
    requires !(a.OfHand() || a.OfTake() || a.OfLits())
    ensures RunOk(ApplyExec(s, a, b))
  {
    hide TasksOk;
  }

  lemma ExecLits(s: State, a: Action, b: Blocks)
    requires OwnerInv(s) && LitsOk(s) && OnceOk(s) && Enabled(s, a, b) && !a.OfTask()
    ensures LitsOk(ApplyExec(s, a, b))
  {
    hide ClaimOk, TasksOk, DoneOk, SlotOk, RunOk, LitsOk, OnceOk, ApplyTask, ApplyExec, Enabled;
    if a.HandStore? {
      ExecLitsStore(s, a, b);
    } else if a.OfTake() {
      ExecLitsTakes(s, a, b);
    } else {
      ExecLitsRest(s, a, b);
    }
  }

  lemma ExecLitsStore(s: State, a: Action, b: Blocks)
    requires OwnerInv(s) && LitsOk(s) && OnceOk(s) && Enabled(s, a, b) && !a.OfTask()
    requires a.HandStore?
    ensures LitsOk(ApplyExec(s, a, b))
  {
    hide OnceOk, DoneOk;
  }

  lemma ExecLitsTakes(s: State, a: Action, b: Blocks)
    requires OwnerInv(s) && LitsOk(s) && OnceOk(s) && Enabled(s, a, b) && !a.OfTask()
    requires a.OfTake()
    ensures LitsOk(ApplyExec(s, a, b))
  {
    hide OnceOk, DoneOk;
  }

  lemma ExecLitsRest(s: State, a: Action, b: Blocks)
    requires OwnerInv(s) && LitsOk(s) && OnceOk(s) && Enabled(s, a, b) && !a.OfTask()
    requires !a.HandStore? && !a.OfTake()
    ensures LitsOk(ApplyExec(s, a, b))
  {
    hide OnceOk, DoneOk;
  }

  lemma ExecOnce(s: State, a: Action, b: Blocks)
    requires OwnerInv(s) && LitsOk(s) && OnceOk(s) && Enabled(s, a, b) && !a.OfTask()
    ensures OnceOk(ApplyExec(s, a, b))
  {
    hide ClaimOk, TasksOk, DoneOk, SlotOk, RunOk, LitsOk, OnceOk, ApplyTask, ApplyExec, Enabled;
    if a.OfHand() || a.OfTake() {
      ExecOnceStarts(s, a, b);
    } else {
      ExecOnceGoes(s, a, b);
    }
  }

  lemma ExecOnceStarts(s: State, a: Action, b: Blocks)
    requires OwnerInv(s) && LitsOk(s) && OnceOk(s) && Enabled(s, a, b) && !a.OfTask()
    requires (a.OfHand() || a.OfTake())
    ensures OnceOk(ApplyExec(s, a, b))
  {
    hide TasksOk, DoneOk;
  }

  lemma ExecOnceGoes(s: State, a: Action, b: Blocks)
    requires OwnerInv(s) && LitsOk(s) && OnceOk(s) && Enabled(s, a, b) && !a.OfTask()
    requires !(a.OfHand() || a.OfTake())
    ensures OnceOk(ApplyExec(s, a, b))
  {
    hide TasksOk, DoneOk;
  }

  lemma TaskOwner(s: State, a: Action, b: Blocks)
    requires OwnerInv(s) && Enabled(s, a, b) && a.OfTask()
    ensures OwnerInv(ApplyTask(s, a, b)) && TaskOk(s, a.i)
  {
    hide ClaimOk, TasksOk, DoneOk, SlotOk, RunOk, LitsOk, OnceOk, ApplyTask, ApplyExec, Enabled;
    if a.Claim? || a.MarkDone? {
      TaskOwnerClaims(s, a, b);
    } else if a.OfSlot() {
      TaskOwnerSlot(s, a, b);
    } else {
      TaskOwnerWorks(s, a, b);
    }
  }

  lemma TaskOwnerClaims(s: State, a: Action, b: Blocks)
    requires OwnerInv(s) && Enabled(s, a, b) && a.OfTask()
    requires (a.Claim? || a.MarkDone?)
    ensures OwnerInv(ApplyTask(s, a, b)) && TaskOk(s, a.i)
  {
    var u := ApplyTask(s, a, b);
    assert TaskOk(s, a.i);
    forall i | 0 <= i < |u.tasks| ensures TaskOk(u, i) {
      assert TaskOk(s, i);
    }
  }

  lemma TaskOwnerSlot(s: State, a: Action, b: Blocks)
    requires OwnerInv(s) && Enabled(s, a, b) && a.OfTask()
    requires a.OfSlot()
    ensures OwnerInv(ApplyTask(s, a, b)) && TaskOk(s, a.i)
  {
    var u := ApplyTask(s, a, b);
    assert TaskOk(s, a.i);
    forall i | 0 <= i < |u.tasks| ensures TaskOk(u, i) {
      assert TaskOk(s, i);
    }
  }

  lemma TaskOwnerWorks(s: State, a: Action, b: Blocks)
    requires OwnerInv(s) && Enabled(s, a, b) && a.OfTask()
    requires !(a.Claim? || a.MarkDone?) && !a.OfSlot()
    ensures OwnerInv(ApplyTask(s, a, b)) && TaskOk(s, a.i)
  {
    var u := ApplyTask(s, a, b);
    assert TaskOk(s, a.i);
    forall i | 0 <= i < |u.tasks| ensures TaskOk(u, i) {
      assert TaskOk(s, i);
    }
  }

  lemma TaskData(s: State, a: Action, b: Blocks)
    requires OwnerInv(s) && DataInv(s) && LitsOk(s) && Enabled(s, a, b) && a.OfTask() && TaskOk(s, a.i)
    ensures SlotOk(ApplyTask(s, a, b))
  {
    hide LitsOk, DoneOk, RunOk, SlotOk;
    if a.OfSlot() {
      TaskSlot(s, a, b);
    } else {
      TaskMoves(s, a, b);
    }
  }

  /** The steps that change the slot, or what is published of it. */
  lemma TaskSlot(s: State, a: Action, b: Blocks)
    requires OwnerInv(s) && SlotOk(s) && Enabled(s, a, b) && a.OfSlot() && TaskOk(s, a.i)
    ensures SlotOk(ApplyTask(s, a, b))
  {
    hide DoneOk;
  }

  lemma TaskMoves(s: State, a: Action, b: Blocks)
    requires OwnerInv(s) && SlotOk(s) && Enabled(s, a, b) && a.OfTask() && TaskOk(s, a.i) && !a.OfSlot()
    ensures SlotOk(ApplyTask(s, a, b))
  {
    hide ClaimOk, TasksOk, DoneOk, SlotOk, RunOk, LitsOk, OnceOk, ApplyTask, ApplyExec, Enabled;
    if a.Claim? || a.Order? || a.MarkDone? {
      TaskMovesClaims(s, a, b);
    } else {
      TaskMovesWorks(s, a, b);
    }
  }

  lemma TaskMovesClaims(s: State, a: Action, b: Blocks)
    requires OwnerInv(s) && SlotOk(s) && Enabled(s, a, b) && a.OfTask() && TaskOk(s, a.i) && !a.OfSlot()
    requires (a.Claim? || a.Order? || a.MarkDone?)
    ensures SlotOk(ApplyTask(s, a, b))
  {
    hide DoneOk;
  }

  lemma TaskMovesWorks(s: State, a: Action, b: Blocks)
    requires OwnerInv(s) && SlotOk(s) && Enabled(s, a, b) && a.OfTask() && TaskOk(s, a.i) && !a.OfSlot()
    requires !(a.Claim? || a.Order? || a.MarkDone?)
    ensures SlotOk(ApplyTask(s, a, b))
  {
    hide DoneOk;
  }

  lemma TaskRun(s: State, a: Action, b: Blocks)
    requires OwnerInv(s) && DataInv(s) && LitsOk(s) && Enabled(s, a, b) && a.OfTask() && TaskOk(s, a.i)
    ensures RunOk(ApplyTask(s, a, b))
  {
    hide ClaimOk, TasksOk, DoneOk, SlotOk, RunOk, LitsOk, OnceOk, ApplyTask, ApplyExec, Enabled;
    if a.Claim? || a.Order? || a.MarkDone? {
      TaskRunClaims(s, a, b);
    } else {
      TaskRunWorks(s, a, b);
    }
  }

  lemma TaskRunClaims(s: State, a: Action, b: Blocks)
    requires OwnerInv(s) && DataInv(s) && LitsOk(s) && Enabled(s, a, b) && a.OfTask() && TaskOk(s, a.i)
    requires (a.Claim? || a.Order? || a.MarkDone?)
    ensures RunOk(ApplyTask(s, a, b))
  {
  }

  lemma TaskRunWorks(s: State, a: Action, b: Blocks)
    requires OwnerInv(s) && DataInv(s) && LitsOk(s) && Enabled(s, a, b) && a.OfTask() && TaskOk(s, a.i)
    requires !(a.Claim? || a.Order? || a.MarkDone?)
    ensures RunOk(ApplyTask(s, a, b))
  {
  }

  lemma TaskLits(s: State, a: Action, b: Blocks)
    requires OwnerInv(s) && LitsOk(s) && OnceOk(s) && Enabled(s, a, b) && a.OfTask() && TaskOk(s, a.i)
    ensures LitsOk(ApplyTask(s, a, b))
  {
    hide ClaimOk, TasksOk, DoneOk, SlotOk, RunOk, LitsOk, OnceOk, ApplyTask, ApplyExec, Enabled;
    if a.Claim? || a.Order? || a.MarkDone? {
      TaskLitsClaims(s, a, b);
    } else if a.OfSlot() || a.EndSeqs? {
      TaskLitsSlot(s, a, b);
    } else {
      TaskLitsMarks(s, a, b);
    }
  }

  lemma TaskLitsClaims(s: State, a: Action, b: Blocks)
    requires OwnerInv(s) && LitsOk(s) && OnceOk(s) && Enabled(s, a, b) && a.OfTask() && TaskOk(s, a.i)
    requires (a.Claim? || a.Order? || a.MarkDone?)
    ensures LitsOk(ApplyTask(s, a, b))
  {
    hide OnceOk, DoneOk;
  }

  lemma TaskLitsSlot(s: State, a: Action, b: Blocks)
    requires OwnerInv(s) && LitsOk(s) && OnceOk(s) && Enabled(s, a, b) && a.OfTask() && TaskOk(s, a.i)
    requires (a.OfSlot() || a.EndSeqs?)
    ensures LitsOk(ApplyTask(s, a, b))
  {
    hide OnceOk, DoneOk;
  }

  lemma TaskLitsMarks(s: State, a: Action, b: Blocks)
    requires OwnerInv(s) && LitsOk(s) && OnceOk(s) && Enabled(s, a, b) && a.OfTask() && TaskOk(s, a.i)
    requires !(a.Claim? || a.Order? || a.MarkDone?) && !(a.OfSlot() || a.EndSeqs?)
    ensures LitsOk(ApplyTask(s, a, b))
  {
    hide OnceOk, DoneOk;
  }

  lemma TaskOnce(s: State, a: Action, b: Blocks)
    requires OwnerInv(s) && LitsOk(s) && OnceOk(s) && Enabled(s, a, b) && a.OfTask() && TaskOk(s, a.i)
    ensures OnceOk(ApplyTask(s, a, b))
  {
    hide DoneOk;
  }

  /** Every step of every thread keeps it. */
  lemma StepInv(s: State, a: Action, b: Blocks)
    requires Inv(s) && Enabled(s, a, b)
    ensures Inv(Apply(s, a, b))
  {
    hide ClaimOk, TasksOk, DoneOk, SlotOk, RunOk, LitsOk, OnceOk, ApplyTask, ApplyExec, Enabled;
    if a.OfTask() {
      TaskOwner(s, a, b);
      TaskData(s, a, b);
      TaskRun(s, a, b);
      TaskLits(s, a, b);
      TaskOnce(s, a, b);
    } else {
      ExecOwner(s, a, b);
      ExecData(s, a, b);
      ExecRun(s, a, b);
      ExecLits(s, a, b);
      ExecOnce(s, a, b);
    }
  }

  // Whole runs

  ghost predicate IsRun(states: seq<State>, actions: seq<Action>, b: Blocks) {
    && |states| == |actions| + 1 && Init(states[0])
    && forall k :: 0 <= k < |actions| ==> Enabled(states[k], actions[k], b) && states[k + 1] == Apply(states[k], actions[k], b)
  }

  lemma {:induction false} RunInv(states: seq<State>, actions: seq<Action>, b: Blocks, k: nat)
    requires IsRun(states, actions, b) && k < |states|
    ensures Inv(states[k])
    decreases k
  {
    hide Inv, Enabled, Apply;
    if k == 0 {
      InitInv(states[0]);
    } else {
      RunInv(states, actions, b, k - 1);
      StepInv(states[k - 1], actions[k - 1], b);
    }
  }

  /** A block's decode, and its literals, are taken by one thread at most. */
  lemma ClaimedOnce(states: seq<State>, actions: seq<Action>, b: Blocks, k: nat, t: nat)
    requires IsRun(states, actions, b) && k < |states|
    ensures states[k].takes[t] <= 1 && states[k].litTakes[t] <= 1
  {
    RunInv(states, actions, b, k);
  }

  /** A task takes a decode, or literals, only of the block the cell was last
      handed, and while that thread is not handing it the next. */
  lemma StaleNeverClaims(states: seq<State>, actions: seq<Action>, b: Blocks, k: nat)
    requires IsRun(states, actions, b) && k < |actions| && (actions[k].Claim? || actions[k].ClaimLits?)
    ensures actions[k].i < |states[k].tasks|
    ensures var s, t := states[k], states[k].tasks[actions[k].i].ticket;
            s.takes[t] + s.litTakes[t] < states[k + 1].takes[t] + states[k + 1].litTakes[t] ==>
              t == s.cur && !s.exec.Quiet()
  {
    RunInv(states, actions, b, k);
    assert Enabled(states[k], actions[k], b);
    assert TaskOk(states[k], actions[k].i);
  }

  /** A sequence is read only once this block's decode has written it, the
      literals done. */
  lemma ReadsWritten(states: seq<State>, actions: seq<Action>, b: Blocks, k: nat)
    requires IsRun(states, actions, b) && k < |actions| && actions[k].ReadSeq?
    ensures var s := states[k];
            && s.exec.Run? && s.exec.t == s.cur && s.exec.at in s.slot && s.slot[s.exec.at] == s.exec.t
            && s.litDone == 2 * s.exec.t + 1 && s.owner >= 0
            && s.owner < |s.tasks| && !s.tasks[s.owner].pc.OnLits()
  {
    RunInv(states, actions, b, k);
    assert Enabled(states[k], actions[k], b);
  }

  /** No step but the next block's handing touches what is published. */
  lemma PublishedKept(s: State, a: Action, b: Blocks)
    requires Inv(s) && Enabled(s, a, b) && !a.HandStore?
    ensures s.progress <= Apply(s, a, b).progress
    ensures forall i :: 0 <= i < s.progress ==> i in s.slot && i in Apply(s, a, b).slot && Apply(s, a, b).slot[i] == s.slot[i]
  {
    hide RunOk, LitsOk, OnceOk, DoneOk;
    if a.OfTask() {
      assert TaskOk(s, a.i);
    }
  }

  lemma PublishedThere(s: State)
    requires Inv(s)
    ensures forall i :: 0 <= i < s.progress ==> i in s.slot
  {
  }

  lemma {:induction false} PublishedStays(states: seq<State>, actions: seq<Action>, b: Blocks, j: nat, k: nat)
    requires IsRun(states, actions, b) && j <= k < |states|
    requires forall m :: j <= m < k ==> !actions[m].HandStore?
    ensures states[j].progress <= states[k].progress
    ensures forall i :: 0 <= i < states[j].progress ==>
              i in states[j].slot && i in states[k].slot && states[k].slot[i] == states[j].slot[i]
    decreases k
  {
    hide Inv, Enabled, Apply;
    RunInv(states, actions, b, j);
    PublishedThere(states[j]);
    if j < k {
      PublishedStays(states, actions, b, j, k - 1);
      RunInv(states, actions, b, k - 1);
      PublishedKept(states[k - 1], actions[k - 1], b);
    }
  }

  /** A done mark: that block's decode has ended, and no other is under way. */
  lemma DoneMeansEnded(states: seq<State>, actions: seq<Action>, b: Blocks, k: nat)
    requires IsRun(states, actions, b) && k < |states| && states[k].cur >= 0 && states[k].done == 2 * states[k].cur + 1
    ensures var s := states[k];
            && 0 <= s.owner < |s.tasks| && s.tasks[s.owner] == Task(s.cur, Ended)
            && forall i :: 0 <= i < |s.tasks| ==> !s.tasks[i].pc.Active()
  {
    RunInv(states, actions, b, k);
    var s := states[k];
    forall i | 0 <= i < |s.tasks| ensures !s.tasks[i].pc.Active() {
      assert TaskOk(s, i);
    }
  }

  /** Waiting for more sequences fails only once the decode has ended, all it
      published already executed. */
  lemma WaitFailsAtEnd(states: seq<State>, actions: seq<Action>, b: Blocks, k: nat)
    requires IsRun(states, actions, b) && k < |actions| && actions[k].WaitProgress? && states[k + 1].exec.Finish?
    ensures var s := states[k];
            && s.exec.WaitMore? && s.progress <= s.exec.at && s.done == 2 * s.exec.t + 1
            && forall i :: 0 <= i < |s.tasks| ==> !s.tasks[i].pc.Active()
  {
    RunInv(states, actions, b, k);
    assert Enabled(states[k], actions[k], b);
    DoneMeansEnded(states, actions, b, k);
  }

  /** The thread never waits for literals that no one has taken. */
  lemma AwaitedLitsTaken(states: seq<State>, actions: seq<Action>, b: Blocks, k: nat)
    requires IsRun(states, actions, b) && k < |states| && states[k].exec.LitsWait?
    ensures states[k].litClaim == 2 * states[k].exec.t + 1 && states[k].owner >= 0
  {
    RunInv(states, actions, b, k);
  }
}
