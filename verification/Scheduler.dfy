/** The round-robin scheduler of kernel/task/sched.c as a state machine, and its loops. */
module Scheduler {
  import opened Bytes

  const MAX_TASKS: nat := 8
  const KSTACK_SIZE: nat := 4096
  /** sizeof(regs_t): what irq_common_stub pushes and pops. */
  const FRAME_BYTES: nat := 76

  datatype State = Empty | Runnable | Running | Zombie

  datatype Task = Task(pid: Word32, state: State, savedEsp: Word32, kstackTop: Word32, entry: Word32, userEsp: Word32)

  const NO_TASK: Task := Task(0, Empty, 0, 0, 0, 0)

  /** g_tasks, g_cur, g_rr, g_next_pid; stacks is the address of g_kstacks, esp0 what the TSS was last given. */
  datatype Sched = Sched(tasks: seq<Task>, cur: nat, rr: nat, nextPid: Word32, stacks: nat, nextEsp: Word32, esp0: Word32, force: bool)

  predicate Sized(s: Sched) {
    |s.tasks| == MAX_TASKS && s.cur < MAX_TASKS && s.rr < MAX_TASKS && s.stacks + MAX_TASKS * KSTACK_SIZE < 0x1_0000_0000
  }

  predicate Alive(t: Task) {
    t.state != Empty && t.state != Zombie
  }

  // ---------------------------------------------------------------- picking

  /** The slot k places ahead of slot r on the ring. */
  function Slot(r: nat, k: nat): (i: nat)
    ensures i < MAX_TASKS
  {
    (r + k) % MAX_TASKS
  }

  /** How far slot i is ahead of slot r on the ring. */
  function Ahead(i: nat, r: nat): (k: nat)
    requires i < MAX_TASKS && r < MAX_TASKS
    ensures k < MAX_TASKS
  {
    (i + MAX_TASKS - r) % MAX_TASKS
  }

  /** First runnable slot at or after rr, going round; k slots were looked at already. */
  function NextRunnable(s: Sched, k: nat): (i: nat)
    requires Sized(s) && k <= MAX_TASKS
    ensures i <= MAX_TASKS
    ensures i < MAX_TASKS ==> s.tasks[i].state == Runnable
    decreases MAX_TASKS - k
  {
    if k == MAX_TASKS then MAX_TASKS
    else if s.tasks[Slot(s.rr, k)].state == Runnable then Slot(s.rr, k)
    else NextRunnable(s, k + 1)
  }

  /** First live slot at or after rr, going round. */
  function NextAlive(s: Sched, k: nat): (i: nat)
    requires Sized(s) && k <= MAX_TASKS
    ensures i <= MAX_TASKS
    ensures i < MAX_TASKS ==> Alive(s.tasks[i])
    decreases MAX_TASKS - k
  {
    if k == MAX_TASKS then MAX_TASKS
    else if Alive(s.tasks[Slot(s.rr, k)]) then Slot(s.rr, k)
    else NextAlive(s, k + 1)
  }

  lemma AheadOf(j: nat, r: nat, k: nat)
    requires j < MAX_TASKS && r < MAX_TASKS
    ensures Ahead(j, r) == k ==> j == Slot(r, k)
    ensures k < MAX_TASKS ==> Ahead(Slot(r, k), r) == k
  {}

  /** The pick is the runnable slot nearest ahead of rr; there is none only when no slot is runnable. */
  lemma {:induction false} NextRunnableIsNearest(s: Sched, k: nat)
    requires Sized(s) && k <= MAX_TASKS
    ensures var i := NextRunnable(s, k);
            forall j :: 0 <= j < MAX_TASKS && s.tasks[j].state == Runnable && Ahead(j, s.rr) >= k ==>
              i < MAX_TASKS && Ahead(i, s.rr) <= Ahead(j, s.rr)
    decreases MAX_TASKS - k
  {
    hide Ahead, Slot;
    AheadOf(0, s.rr, k);
    if k < MAX_TASKS && s.tasks[Slot(s.rr, k)].state != Runnable {
      NextRunnableIsNearest(s, k + 1);
      forall j | 0 <= j < MAX_TASKS && s.tasks[j].state == Runnable && Ahead(j, s.rr) >= k
        ensures Ahead(j, s.rr) >= k + 1
      {
        AheadOf(j, s.rr, k);
      }
    }
  }

  lemma {:induction false} NextAliveFinds(s: Sched, k: nat, j: nat)
    requires Sized(s) && k <= MAX_TASKS && j < MAX_TASKS && Alive(s.tasks[j]) && Ahead(j, s.rr) >= k
    ensures NextAlive(s, k) < MAX_TASKS
    decreases MAX_TASKS - k
  {
    hide Ahead, Slot;
    if k < MAX_TASKS && !Alive(s.tasks[Slot(s.rr, k)]) {
      AheadOf(j, s.rr, k);
      NextAliveFinds(s, k + 1, j);
    }
  }

  datatype Picked = Picked(slot: nat, rr: nat)

  /** sched_pick: a runnable slot moves rr behind it; else any live slot; else the current one. */
  function Pick(s: Sched): (p: Picked)
    requires Sized(s)
    ensures p.slot < MAX_TASKS && p.rr < MAX_TASKS
  {
    var i := NextRunnable(s, 0);
    if i < MAX_TASKS then Picked(i, (i + 1) % MAX_TASKS)
    else
      var j := NextAlive(s, 0);
      Picked(if j < MAX_TASKS then j else s.cur, s.rr)
  }

  // ---------------------------------------------------------------- the operations

  datatype Event =
    | Tick(esp: Word32)                 // timer interrupt; the stub saved esp
    | Yield(esp: Word32)                // yield system call
    | Exit                              // exit system call, or a fault in user mode
    | Add(entry: Word32, userEsp: Word32)

  function SetState(s: Sched, i: nat, st: State): Sched
    requires i < |s.tasks|
  {
    s.(tasks := s.tasks[i := s.tasks[i].(state := st)])
  }

  function SaveEsp(s: Sched, i: nat, esp: Word32): Sched
    requires i < |s.tasks|
  {
    s.(tasks := s.tasks[i := s.tasks[i].(savedEsp := esp)])
  }

  /** The CPU goes to slot i. */
  function Dispatch(s: Sched, i: nat): Sched
    requires i < |s.tasks|
  {
    var t := s.tasks[i];
    SetState(s, i, Running).(nextEsp := t.savedEsp, esp0 := if t.kstackTop != 0 then t.kstackTop else s.esp0, cur := i)
  }

  function Ticked(s: Sched, esp: Word32): Sched
    requires Sized(s)
  {
    var a := SaveEsp(s, s.cur, esp);
    var p := Pick(a);
    var b := a.(rr := p.rr);
    if p.slot == s.cur && b.tasks[s.cur].state == Running then b.(nextEsp := esp)
    else Dispatch(if b.tasks[s.cur].state == Running then SetState(b, s.cur, Runnable) else b, p.slot)
  }

  function Yielded(s: Sched, esp: Word32): Sched
    requires Sized(s)
  {
    var p := Pick(s);
    var b := s.(rr := p.rr);
    if p.slot == s.cur then b
    else Dispatch(SetState(SaveEsp(b, s.cur, esp), s.cur, Runnable), p.slot).(force := true)
  }

  /** The outcome of sched_exit; when it would pick the exiting task itself, it halts the machine. */
  datatype Exited = Halted | Left(s: Sched)

  function ExitOf(s: Sched): Exited
    requires Sized(s)
  {
    var a := SetState(s, s.cur, Zombie);
    var p := Pick(a);
    if p.slot == s.cur then Halted else Left(Dispatch(a.(rr := p.rr), p.slot).(force := true))
  }

  /** Lowest slot that holds no live task, from i on. */
  function FreeSlot(s: Sched, i: nat): (r: nat)
    requires i <= |s.tasks|
    ensures i <= r <= |s.tasks| && (r < |s.tasks| ==> !Alive(s.tasks[r]))
    ensures forall k :: i <= k < r ==> Alive(s.tasks[k])
    decreases |s.tasks| - i
  {
    if i == |s.tasks| || !Alive(s.tasks[i]) then i else FreeSlot(s, i + 1)
  }

  function StackTop(s: Sched, slot: nat): nat {
    s.stacks + (slot + 1) * KSTACK_SIZE
  }

  /** The frame a task that never ran is resumed from. */
  function InitialFrame(s: Sched, slot: nat): int {
    StackTop(s, slot) - FRAME_BYTES
  }

  function Added(s: Sched, entry: Word32, userEsp: Word32): Sched
    requires Sized(s)
  {
    var i := FreeSlot(s, 0);
    if i == MAX_TASKS then s
    else s.(tasks := s.tasks[i := Task(s.nextPid, Runnable, InitialFrame(s, i), StackTop(s, i), entry, userEsp)],
            nextPid := (s.nextPid + 1) % 0x1_0000_0000)
  }

  function Initial(stacks: nat): Sched
    requires stacks + MAX_TASKS * KSTACK_SIZE < 0x1_0000_0000
  {
    Sched(seq<Task>(MAX_TASKS, _ => NO_TASK)[0 := NO_TASK.(state := Running)], 0, 1, 1, stacks, 0, stacks + KSTACK_SIZE, false)
  }

  // ---------------------------------------------------------------- the invariant

  /** Exactly one task is running and it is the current one; the kernel task is live. */
  predicate Good(s: Sched) {
    && Sized(s) && Alive(s.tasks[0])
    && forall i :: 0 <= i < MAX_TASKS ==> (s.tasks[i].state == Running <==> i == s.cur)
  }

  /** The kernel task never exits. */
  predicate Enabled(s: Sched, e: Event) {
    e.Exit? ==> s.cur != 0
  }

  /** With a good state every pick is a runnable task, or the current one when no other is runnable. */
  lemma PickGood(s: Sched)
    requires Good(s)
    ensures var p := Pick(s);
            if exists j :: 0 <= j < MAX_TASKS && s.tasks[j].state == Runnable
            then s.tasks[p.slot].state == Runnable && p.rr == (p.slot + 1) % MAX_TASKS
            else p.slot == s.cur && p.rr == s.rr
  {
    NextRunnableIsNearest(s, 0);
    if j :| 0 <= j < MAX_TASKS && s.tasks[j].state == Runnable {
      assert Ahead(j, s.rr) >= 0;
    } else {
      NextAliveFinds(s, 0, s.cur);
    }
  }

  /** A user task that exits always leaves somebody to run: the machine is not halted. */
  lemma ExitNeverHalts(s: Sched)
    requires Good(s)
    ensures ExitOf(s).Halted? ==> s.cur == 0
    ensures s.cur != 0 ==> ExitOf(s).Left? && Good(ExitOf(s).s)
    ensures s.cur != 0 ==> ExitOf(s).s.cur != s.cur && s.tasks[ExitOf(s).s.cur].state == Runnable
                           && ExitOf(s).s.nextEsp == s.tasks[ExitOf(s).s.cur].savedEsp
  {
    var a := SetState(s, s.cur, Zombie);
    NextRunnableIsNearest(a, 0);
    if s.cur != 0 {
      assert a.tasks[0].state == Runnable && Ahead(0, s.rr) >= 0;
    }
  }

  /** An exit, of whatever task, halts the machine exactly when no task is runnable. */
  lemma HaltsWhenAlone(s: Sched)
    requires Good(s)
    ensures ExitOf(s).Halted? <==> forall j :: 0 <= j < MAX_TASKS ==> s.tasks[j].state != Runnable
  {
    var a := SetState(s, s.cur, Zombie);
    NextRunnableIsNearest(a, 0);
    if j :| 0 <= j < MAX_TASKS && s.tasks[j].state == Runnable {
      hide NextRunnable, NextAlive, Ahead;
      assert a.tasks[j].state == Runnable && Ahead(j, a.rr) >= 0;
    } else {
      hide NextRunnable, NextAlive, Ahead;
      assert forall j :: 0 <= j < MAX_TASKS ==> !Alive(a.tasks[j]);
    }
  }

  /** The state after an event. */
  function Step(s: Sched, e: Event): Sched
    requires Good(s) && Enabled(s, e)
  {
    match e
    case Tick(esp) => Ticked(s, esp)
    case Yield(esp) => Yielded(s, esp)
    case Exit => ExitNeverHalts(s); ExitOf(s).s
    case Add(entry, userEsp) => Added(s, entry, userEsp)
  }

  lemma TickGood(s: Sched, esp: Word32)
    requires Good(s)
    ensures Good(Ticked(s, esp)) && Ticked(s, esp).stacks == s.stacks
  {
    hide NextRunnable, NextAlive;
    PickGood(SaveEsp(s, s.cur, esp));
  }

  lemma StepGood(s: Sched, e: Event)
    requires Good(s) && Enabled(s, e)
    ensures Good(Step(s, e)) && Step(s, e).stacks == s.stacks
  {
    hide NextRunnable, NextAlive, Pick, Ticked;
    match e
    case Tick(esp) => TickGood(s, esp);
    case Yield(esp) => PickGood(s);
    case Exit => ExitNeverHalts(s);
    case Add(entry, userEsp) =>
  }

  // ---------------------------------------------------------------- who is resumed from where

  /** Task slot lost the CPU, or was built, with this frame. */
  datatype Mark = Mark(slot: nat, esp: int)

  /** The frame a slot was last left with; -1 for none. */
  function LastMark(log: seq<Mark>, slot: nat): int {
    if log == [] then -1
    else if log[|log| - 1].slot == slot then log[|log| - 1].esp
    else LastMark(log[..|log| - 1], slot)
  }

  /** What an event puts on record: the frame of a task that loses the CPU, and of a task that is built. */
  function Marks(s: Sched, e: Event): seq<Mark>
    requires Good(s) && Enabled(s, e)
  {
    match e
    case Tick(esp) => if Step(s, e).cur != s.cur then [Mark(s.cur, esp)] else []
    case Yield(esp) => if Step(s, e).cur != s.cur then [Mark(s.cur, esp)] else []
    case Exit => []
    case Add(_, _) => if FreeSlot(s, 0) < MAX_TASKS then [Mark(FreeSlot(s, 0), InitialFrame(s, FreeSlot(s, 0)))] else []
  }

  /** Every live task that waits for the CPU holds the frame it was last left with. */
  predicate Framed(s: Sched, log: seq<Mark>) {
    Sized(s) && forall i :: 0 <= i < MAX_TASKS && i != s.cur && Alive(s.tasks[i]) ==> s.tasks[i].savedEsp == LastMark(log, i)
  }

  lemma MarkAppended(log: seq<Mark>, m: Mark, i: nat)
    ensures LastMark(log + [m], i) == if m.slot == i then m.esp else LastMark(log, i)
  {
    assert (log + [m])[..|log|] == log;
  }

  /** A switch hands out the frame saved when the task last lost the CPU, or its initial frame. */
  lemma StepFramed(s: Sched, e: Event, log: seq<Mark>)
    requires Good(s) && Enabled(s, e) && Framed(s, log)
    ensures Good(Step(s, e)) && Framed(Step(s, e), log + Marks(s, e))
    ensures Step(s, e).cur != s.cur ==> Step(s, e).nextEsp == LastMark(log + Marks(s, e), Step(s, e).cur)
  {
    hide NextRunnable, NextAlive, Pick;
    StepGood(s, e);
    var t, ms := Step(s, e), Marks(s, e);
    assert log + [] == log;
    forall i: nat ensures ms != [] ==> LastMark(log + ms, i) == if ms[0].slot == i then ms[0].esp else LastMark(log, i) {
      if ms != [] { MarkAppended(log, ms[0], i); }
    }
    match e
    case Tick(esp) => PickGood(SaveEsp(s, s.cur, esp));
    case Yield(esp) => PickGood(s);
    case Exit => ExitNeverHalts(s);
    case Add(entry, userEsp) =>
  }

  // ---------------------------------------------------------------- runs

  /** A possible history: the state before and after every event. */
  ghost predicate Run(ss: seq<Sched>, es: seq<Event>) {
    && |ss| == |es| + 1
    && forall k :: 0 <= k < |es| ==> StepsTo(ss[k], es[k], ss[k + 1])
  }

  /** One event; RunGood shows that a run meets good states only. */
  ghost predicate StepsTo(s: Sched, e: Event, t: Sched) {
    Good(s) ==> Enabled(s, e) && t == Step(s, e)
  }

  /** The frames on record after the first k events. */
  ghost function LogOf(ss: seq<Sched>, es: seq<Event>, k: nat): seq<Mark>
    requires |ss| == |es| + 1 && k <= |es|
  {
    if k == 0 then []
    else LogOf(ss, es, k - 1) + if Good(ss[k - 1]) && Enabled(ss[k - 1], es[k - 1]) then Marks(ss[k - 1], es[k - 1]) else []
  }

  /**
   * Every run of ticks, yields, additions and exits of user tasks: exactly one task is running and it is the current
   * one, the kernel task stays live, an exit never halts, and every switch resumes a task where it was last left.
   */
  lemma {:induction false} RunGood(ss: seq<Sched>, es: seq<Event>, stacks: nat, k: nat)
    requires Run(ss, es) && stacks + MAX_TASKS * KSTACK_SIZE < 0x1_0000_0000 && ss[0] == Initial(stacks) && k <= |es|
    ensures Good(ss[k]) && Framed(ss[k], LogOf(ss, es, k))
    ensures k < |es| && es[k].Exit? ==> ExitOf(ss[k]).Left?
    ensures k > 0 && ss[k].cur != ss[k - 1].cur ==> ss[k].nextEsp == LastMark(LogOf(ss, es, k), ss[k].cur)
  {
    hide Step, ExitOf, Marks, Pick;
    if k > 0 {
      RunGood(ss, es, stacks, k - 1);
      assert StepsTo(ss[k - 1], es[k - 1], ss[k]);
      StepFramed(ss[k - 1], es[k - 1], LogOf(ss, es, k - 1));
    }
    ExitNeverHalts(ss[k]);
    assert k < |es| ==> StepsTo(ss[k], es[k], ss[k + 1]);
  }

  // ---------------------------------------------------------------- nobody waits for ever

  /** A waiting task is dispatched, or comes strictly nearer to the front of the ring. */
  lemma PickProgress(s: Sched, e: Event, x: nat)
    requires Good(s) && Enabled(s, e) && x < MAX_TASKS && s.tasks[x].state == Runnable
    ensures Good(Step(s, e))
    ensures var t := Step(s, e);
            t.cur == x ||
            (t.tasks[x].state == Runnable &&
             if e.Add? then t.rr == s.rr else Ahead(x, t.rr) < Ahead(x, s.rr))
  {
    hide NextAlive;
    StepGood(s, e);
    match e
    case Tick(esp) => PickNearer(SaveEsp(s, s.cur, esp), x);
    case Yield(esp) => PickNearer(s, x);
    case Exit =>
      ExitNeverHalts(s);
      PickNearer(SetState(s, s.cur, Zombie), x);
    case Add(entry, userEsp) =>
  }

  lemma PickNearer(s: Sched, x: nat)
    requires Sized(s) && x < MAX_TASKS && s.tasks[x].state == Runnable
    ensures var p := Pick(s);
            s.tasks[p.slot].state == Runnable && (p.slot == x || Ahead(x, p.rr) < Ahead(x, s.rr))
  {
    NextRunnableIsNearest(s, 0);
    assert Ahead(x, s.rr) >= 0;
    if Pick(s).slot != x { RingStep(Pick(s).slot, x, s.rr); }
  }

  lemma RingStep(i: nat, x: nat, r: nat)
    requires i < MAX_TASKS && x < MAX_TASKS && r < MAX_TASKS && i != x && Ahead(i, r) <= Ahead(x, r)
    ensures Ahead(x, (i + 1) % MAX_TASKS) < Ahead(x, r)
  {}

  /** Number of events that pick a task. */
  function Picks(es: seq<Event>): nat {
    if es == [] then 0 else (if es[0].Add? then 0 else 1) + Picks(es[1..])
  }

  ghost predicate AllEnabled(s: Sched, es: seq<Event>)
    decreases |es|
  {
    Good(s) && (es == [] || (Enabled(s, es[0]) && AllEnabled(Step(s, es[0]), es[1..])))
  }

  /** Slot x gets the CPU during the events. */
  ghost predicate Served(s: Sched, es: seq<Event>, x: nat)
    requires AllEnabled(s, es)
    decreases |es|
  {
    es != [] && (Step(s, es[0]).cur == x || Served(Step(s, es[0]), es[1..], x))
  }

  /** A runnable task gets the CPU within as many picks as there are slots. */
  lemma {:induction false} EveryoneIsServed(s: Sched, es: seq<Event>, x: nat)
    requires AllEnabled(s, es) && x < MAX_TASKS && s.tasks[x].state == Runnable && Picks(es) > Ahead(x, s.rr)
    ensures Served(s, es, x)
    decreases |es|
  {
    hide Step, Good, Ahead;
    PickProgress(s, es[0], x);
    if Step(s, es[0]).cur != x {
      EveryoneIsServed(Step(s, es[0]), es[1..], x);
    }
  }

  // ---------------------------------------------------------------- the globals of sched.c

  lemma ScanStep(s: Sched, k: nat)
    requires Sized(s) && k < MAX_TASKS
    ensures NextRunnable(s, k) == if s.tasks[Slot(s.rr, k)].state == Runnable then Slot(s.rr, k) else NextRunnable(s, k + 1)
    ensures NextAlive(s, k) == if Alive(s.tasks[Slot(s.rr, k)]) then Slot(s.rr, k) else NextAlive(s, k + 1)
  {
    hide Slot, Alive;
  }

  lemma ScanEnd(s: Sched)
    requires Sized(s)
    ensures NextRunnable(s, MAX_TASKS) == MAX_TASKS && NextAlive(s, MAX_TASKS) == MAX_TASKS
  {}

  class Cpu {
    const tasks: array<Task>
    const stacks: nat
    var cur: nat
    var rr: nat
    var on: bool
    var nextPid: Word32
    var curEsp: Word32
    var nextEsp: Word32
    var esp0: Word32
    var force: bool

    ghost predicate Valid()
      reads this, tasks
    {
      tasks.Length == MAX_TASKS && cur < MAX_TASKS && rr < MAX_TASKS && stacks + MAX_TASKS * KSTACK_SIZE < 0x1_0000_0000
    }

    ghost function Abs(): (s: Sched)
      requires Valid()
      reads this, tasks
      ensures Sized(s)
    {
      Sched(tasks[..], cur, rr, nextPid, stacks, nextEsp, esp0, force)
    }

    /** The globals as they are before sched_init. */
    constructor (stacks: nat)
      requires stacks + MAX_TASKS * KSTACK_SIZE < 0x1_0000_0000
      ensures Valid() && !on && this.stacks == stacks && nextPid == 1 && fresh(tasks) && nextEsp == 0 && !force
    {
      tasks := new Task[MAX_TASKS](_ => NO_TASK);
      this.stacks := stacks;
      cur, rr, on, nextPid, curEsp, nextEsp, esp0, force := 0, 1, false, 1, 0, 0, 0, false;
    }

    /** sched_init */
    method Init()
      requires Valid() && nextPid == 1 && nextEsp == 0 && !force
      modifies this, tasks
      ensures Valid() && on && Abs() == Initial(stacks) && Good(Abs())
    {
      var i := 0;
      while i < MAX_TASKS
        modifies tasks
        invariant i <= MAX_TASKS && forall k :: 0 <= k < i ==> tasks[k] == NO_TASK
      {
        tasks[i] := NO_TASK;
        i := i + 1;
      }
      tasks[0] := tasks[0].(state := Running);
      cur, rr, on := 0, 1, true;
      esp0 := stacks + KSTACK_SIZE;
      assert tasks[..] == Initial(stacks).tasks;
    }

    /** sched_pick */
    method PickSlot() returns (i: nat)
      requires Valid()
      modifies this`rr
      ensures Valid() && Picked(i, rr) == Pick(old(Abs()))
      ensures Abs() == old(Abs()).(rr := rr)
    {
      hide Slot, NextRunnable, NextAlive;
      ghost var s := Abs();
      var step := 0;
      while step < MAX_TASKS
        invariant step <= MAX_TASKS && Valid() && Abs() == s && NextRunnable(s, 0) == NextRunnable(s, step)
      {
        ScanStep(s, step);
        i := Slot(rr, step);
        if tasks[i].state == Runnable {
          rr := (i + 1) % MAX_TASKS;
          return;
        }
        step := step + 1;
      }
      ScanEnd(s);
      step := 0;
      while step < MAX_TASKS
        invariant step <= MAX_TASKS && Valid() && Abs() == s && NextAlive(s, 0) == NextAlive(s, step)
      {
        ScanStep(s, step);
        i := Slot(rr, step);
        if tasks[i].state != Empty && tasks[i].state != Zombie {
          return;
        }
        step := step + 1;
      }
      return cur;
    }

    /** sched_add; the pid, or nothing when every slot holds a live task. */
    method AddTask(entry: Word32, userEsp: Word32) returns (ok: bool, pid: Word32)
      requires Valid()
      modifies this`nextPid, tasks
      ensures Valid() && Abs() == Added(old(Abs()), entry, userEsp)
      ensures ok == (FreeSlot(old(Abs()), 0) < MAX_TASKS) && (ok ==> pid == old(nextPid))
    {
      ghost var s := Abs();
      var slot := 0;
      while slot < MAX_TASKS && tasks[slot].state != Empty && tasks[slot].state != Zombie
        invariant slot <= MAX_TASKS && FreeSlot(s, 0) == FreeSlot(s, slot)
      {
        slot := slot + 1;
      }
      if slot == MAX_TASKS {
        return false, 0;
      }
      var top := stacks + (slot + 1) * KSTACK_SIZE;
      pid := nextPid;
      tasks[slot] := Task(pid, Runnable, top - FRAME_BYTES, top, entry, userEsp);
      nextPid := (nextPid + 1) % 0x1_0000_0000;
      return true, pid;
    }

    /** The part the three switching operations share: slot i becomes the running task. */
    method DispatchSlot(i: nat)
      requires Valid() && i < MAX_TASKS
      modifies this, tasks
      ensures Valid() && Abs() == Dispatch(old(Abs()), i) && on == old(on) && curEsp == old(curEsp)
    {
      var next := tasks[i];
      tasks[i] := next.(state := Running);
      if next.kstackTop != 0 {
        esp0 := next.kstackTop;
      }
      nextEsp := next.savedEsp;
      cur := i;
    }

    /** sched_tick */
    method TimerTick()
      requires Valid()
      modifies this, tasks
      ensures Valid() && on == old(on)
      ensures Abs() == if old(on) then Ticked(old(Abs()), old(curEsp)) else old(Abs()).(nextEsp := old(curEsp))
    {
      hide Pick, Dispatch;
      if !on {
        nextEsp := curEsp;
        return;
      }
      ghost var s := Abs();
      var was := cur;
      tasks[was] := tasks[was].(savedEsp := curEsp);
      assert Abs() == SaveEsp(s, was, curEsp);
      var next := PickSlot();
      if next == was && tasks[was].state == Running {
        nextEsp := tasks[was].savedEsp;
        return;
      }
      if tasks[was].state == Running {
        tasks[was] := tasks[was].(state := Runnable);
      }
      DispatchSlot(next);
    }

    /** sched_yield */
    method YieldCpu()
      requires Valid()
      modifies this, tasks
      ensures Valid() && on == old(on)
      ensures Abs() == if old(on) then Yielded(old(Abs()), old(curEsp)) else old(Abs())
    {
      hide Pick, Dispatch;
      if !on {
        return;
      }
      var next := PickSlot();
      if next == cur {
        return;
      }
      tasks[cur] := tasks[cur].(savedEsp := curEsp);
      tasks[cur] := tasks[cur].(state := Runnable);
      DispatchSlot(next);
      force := true;
    }

    /** sched_exit; halted stands for the endless hlt loop. */
    method ExitTask() returns (halted: bool)
      requires Valid()
      modifies this, tasks
      ensures Valid() && on == old(on)
      ensures old(on) ==> halted == ExitOf(old(Abs())).Halted? && (!halted ==> Abs() == ExitOf(old(Abs())).s)
      ensures !old(on) ==> !halted && Abs() == old(Abs())
      ensures old(on) && old(cur) != 0 && Good(old(Abs())) ==> !halted && Good(Abs())
    {
      hide Pick, Dispatch;
      if !on {
        return false;
      }
      ghost var s := Abs();
      ExitLives(s);
      tasks[cur] := tasks[cur].(state := Zombie);
      assert Abs() == SetState(s, s.cur, Zombie);
      var next := PickSlot();
      if next == cur {
        return true;
      }
      DispatchSlot(next);
      force := true;
      return false;
    }
  }

  lemma ExitLives(s: Sched)
    requires Sized(s)
    ensures Good(s) && s.cur != 0 ==> ExitOf(s).Left? && Good(ExitOf(s).s)
  {
    if Good(s) { ExitNeverHalts(s); }
  }
}
