/** The process tree as a value: slots, threads waiting for children, and what
    creating, ending and reaping processes do to them. */
module ProcessTree {

  const MAX_PROCESSES := 64
  const ANY := 0xffff_ffff

  datatype Life = Unused | Alive | Zombie

  datatype Process = Process(pid: nat, parent: nat, life: Life, orphaned: bool, idle: bool)

  /** A thread slot: blocked in a wait for a child of its process, or not. */
  datatype Waiting = NotWaiting | For(process: nat, target: nat)

  /** `reaped` collects the pids whose slots were given back after they ended. */
  datatype State = State(slots: seq<Process>, waits: seq<Waiting>, nextPid: nat, initPid: nat, reaped: set<nat>)

  predicate Used(p: Process) { p.life != Unused }

  predicate Matches(w: Waiting, child: Process) {
    w.For? && w.process == child.parent && (w.target == ANY || w.target == child.pid)
  }

  // ----- the steps

  function Cleared(p: Process): Process { Process(0, 0, Unused, false, p.idle) }

  function Reap(s: State, i: nat): State
    requires i < |s.slots|
  {
    s.(slots := s.slots[i := Cleared(s.slots[i])], reaped := s.reaped + {s.slots[i].pid})
  }

  /** The first thread blocked in a wait that this child satisfies. */
  function Waiter(waits: seq<Waiting>, child: Process): (t: nat)
    ensures t <= |waits| && (t < |waits| ==> Matches(waits[t], child))
    ensures forall u :: 0 <= u < t ==> !Matches(waits[u], child)
  {
    if waits == [] then 0 else
    var t := Waiter(waits[..|waits| - 1], child);
    if t < |waits| - 1 then t else if Matches(waits[|waits| - 1], child) then |waits| - 1 else |waits|
  }

  /** A zombie is handed to its waiting parent, or reaped at once if it is an orphan. */
  function Notify(s: State, i: nat): State
    requires i < |s.slots|
  {
    var t := Waiter(s.waits, s.slots[i]);
    if t < |s.waits| then Reap(s.(waits := s.waits[t := NotWaiting]), i)
    else if s.slots[i].orphaned then Reap(s, i)
    else s
  }

  /** What becomes of a process when the process `pid` has ended: its zombies go, its live children pass to init. */
  function Orphan(p: Process, pid: nat, initPid: nat): Process {
    if !Used(p) || p.parent != pid then p
    else if p.life == Zombie then Cleared(p)
    else p.(parent := initPid, orphaned := true)
  }

  function Reparent(s: State, pid: nat): State {
    s.(slots := seq(|s.slots|, i requires 0 <= i < |s.slots| => Orphan(s.slots[i], pid, s.initPid)),
       reaped := s.reaped + set p | p in s.slots && p.life == Zombie && p.parent == pid :: p.pid)
  }

  /** The threads of a process stop waiting. */
  function StopWaits(waits: seq<Waiting>, pid: nat): seq<Waiting> {
    seq(|waits|, t requires 0 <= t < |waits| => if waits[t].For? && waits[t].process == pid then NotWaiting
        else waits[t])
  }

  /** A process becomes a zombie. */
  function End(s: State, i: nat): State
    requires i < |s.slots|
  {
    s.(slots := s.slots[i := s.slots[i].(life := Zombie)], waits := StopWaits(s.waits, s.slots[i].pid))
  }

  function Terminate(s: State, i: nat): State
    requires i < |s.slots|
  {
    if s.slots[i].idle || s.slots[i].life != Alive then s else Reparent(Notify(End(s, i), i), s.slots[i].pid)
  }

  /** A process is created in slot `i`. */
  function Create(s: State, i: nat, parent: nat): State
    requires i < |s.slots|
  {
    s.(slots := s.slots[i := Process(s.nextPid, parent, Alive, false, false)], nextPid := s.nextPid + 1)
  }

  // ----- the invariant

  predicate AliveAt(slots: seq<Process>, k: nat, pid: nat) {
    k < |slots| && slots[k].pid == pid && slots[k].life == Alive
  }

  predicate IsAlive(slots: seq<Process>, pid: nat) { exists k :: 0 <= k < |slots| && AliveAt(slots, k, pid) }

  /** A process in the table: its pid is fresh, its parent older and alive. While the process `ending`
      is on its way out, its children are allowed to name it. */
  predicate GoodProcess(s: State, p: Process, ending: nat) {
    && 0 < p.pid < s.nextPid && p.pid !in s.reaped
    && (p.parent != 0 ==> s.initPid < p.pid && p.parent < p.pid && (p.parent == ending || IsAlive(s.slots, p.parent)))
    && (p.orphaned ==> p.parent == s.initPid)
  }

  predicate GoodSlots(s: State, ending: nat) {
    forall i :: 0 <= i < |s.slots| && Used(s.slots[i]) ==> GoodProcess(s, s.slots[i], ending)
  }

  predicate Distinct(slots: seq<Process>) {
    forall i, j :: 0 <= i < j < |slots| && Used(slots[i]) && Used(slots[j]) ==> slots[i].pid != slots[j].pid
  }

  predicate Shape(s: State, ending: nat) {
    && |s.slots| <= MAX_PROCESSES && GoodSlots(s, ending) && Distinct(s.slots)
    && 0 < s.initPid < s.nextPid && s.initPid != ending && IsAlive(s.slots, s.initPid)
    && (forall r :: r in s.reaped ==> r < s.nextPid)
  }

  /** No zombie in the table, apart from slot `but`, is one that a thread waits for. */
  predicate NobodyMissed(s: State, but: int) {
    forall t, i :: 0 <= t < |s.waits| && 0 <= i < |s.slots| && i != but && s.slots[i].life == Zombie ==>
      !Matches(s.waits[t], s.slots[i])
  }

  predicate Good(s: State) { Shape(s, 0) && NobodyMissed(s, -1) }

  lemma StillAlive(slots: seq<Process>, slots': seq<Process>, pid: nat, i: nat)
    requires IsAlive(slots, pid) && |slots'| == |slots| && i < |slots| && slots[i].pid != pid
    requires forall k :: 0 <= k < |slots| && k != i ==> slots'[k] == slots[k]
    ensures IsAlive(slots', pid)
  {
    var k :| 0 <= k < |slots| && AliveAt(slots, k, pid);
    assert AliveAt(slots', k, pid);
  }

  // ----- each step keeps it

  lemma EndKeeps(s: State, i: nat)
    requires Good(s) && i < |s.slots| && s.slots[i].life == Alive && s.slots[i].pid != s.initPid
    ensures Shape(End(s, i), s.slots[i].pid) && NobodyMissed(End(s, i), i)
  {
    var s', pid := End(s, i), s.slots[i].pid;
    StillAlive(s.slots, s'.slots, s.initPid, i);
    forall j | 0 <= j < |s'.slots| && Used(s'.slots[j])
      ensures GoodProcess(s', s'.slots[j], pid)
    {
      var p := s.slots[j];
      assert GoodProcess(s, p, 0);
      if p.parent != 0 && p.parent != pid { StillAlive(s.slots, s'.slots, p.parent, i); }
    }
    assert forall t :: 0 <= t < |s.waits| ==> s'.waits[t] == s.waits[t] || s'.waits[t].NotWaiting?;
  }

  /** A zombie that nobody's ending depends on is taken out of the table. */
  lemma ReapKeeps(s: State, i: nat, ending: nat)
    requires Shape(s, ending) && NobodyMissed(s, i) && i < |s.slots| && s.slots[i].life == Zombie
    ensures Shape(Reap(s, i), ending) && NobodyMissed(Reap(s, i), -1)
  {
    var s', pid := Reap(s, i), s.slots[i].pid;
    assert GoodProcess(s, s.slots[i], ending);
    AliveElsewhere(s.slots, s.initPid, i);
    forall j | 0 <= j < |s'.slots| && Used(s'.slots[j])
      ensures GoodProcess(s', s'.slots[j], ending)
    {
      var p := s.slots[j];
      assert GoodProcess(s, p, ending);
      if p.parent != 0 && p.parent != ending { AliveElsewhere(s.slots, p.parent, i); }
    }
  }

  /** Clearing a slot that is not alive takes no live process away. */
  lemma AliveElsewhere(slots: seq<Process>, pid: nat, i: nat)
    requires IsAlive(slots, pid) && i < |slots| && slots[i].life != Alive
    ensures IsAlive(slots[i := Cleared(slots[i])], pid)
  {
    var k :| 0 <= k < |slots| && AliveAt(slots, k, pid);
    assert AliveAt(slots[i := Cleared(slots[i])], k, pid);
  }

  lemma NotifyKeeps(s: State, i: nat, ending: nat)
    requires Shape(s, ending) && NobodyMissed(s, i) && i < |s.slots| && s.slots[i].life == Zombie
    ensures Shape(Notify(s, i), ending) && NobodyMissed(Notify(s, i), -1)
  {
    var t := Waiter(s.waits, s.slots[i]);
    if t < |s.waits| {
      var s1 := s.(waits := s.waits[t := NotWaiting]);
      assert Shape(s1, ending) by {
        assert s1.slots == s.slots;
        forall j | 0 <= j < |s1.slots| && Used(s1.slots[j])
          ensures GoodProcess(s1, s1.slots[j], ending)
        {
          assert GoodProcess(s, s.slots[j], ending);
        }
      }
      ReapKeeps(s1, i, ending);
    } else if s.slots[i].orphaned {
      ReapKeeps(s, i, ending);
    }
  }

  /** Where each slot and each pid goes. */
  lemma ReparentedSlot(s: State, ending: nat, j: nat)
    requires Shape(s, ending) && ending > 0 && j < |s.slots| && Used(Reparent(s, ending).slots[j])
    ensures GoodProcess(Reparent(s, ending), Reparent(s, ending).slots[j], 0)
    ensures Reparent(s, ending).slots[j].parent != ending
  {
    var s', p := Reparent(s, ending), s.slots[j];
    assert GoodProcess(s, p, ending);
    NotReaped(s, ending, j);
    AliveAfter(s, ending, s.initPid);
    if p.parent != 0 && p.parent != ending { AliveAfter(s, ending, p.parent); }
    hide Shape, IsAlive;
  }

  lemma NotReaped(s: State, ending: nat, j: nat)
    requires Shape(s, ending) && ending > 0 && j < |s.slots| && Used(Reparent(s, ending).slots[j])
    ensures s.slots[j].pid !in Reparent(s, ending).reaped
  {
    assert GoodProcess(s, s.slots[j], ending);
    forall p | p in s.slots && p.life == Zombie && p.parent == ending
      ensures p.pid != s.slots[j].pid
    {
      var i :| 0 <= i < |s.slots| && s.slots[i] == p;
      if i < j { assert s.slots[i].pid != s.slots[j].pid; } else if j < i { assert s.slots[j].pid != s.slots[i].pid; }
    }
  }

  lemma ReapedKnown(s: State, ending: nat, r: nat)
    requires Shape(s, ending) && r in Reparent(s, ending).reaped
    ensures r < s.nextPid
  {
    if r !in s.reaped {
      var p :| p in s.slots && p.life == Zombie && p.parent == ending && p.pid == r;
      var i :| 0 <= i < |s.slots| && s.slots[i] == p;
      assert GoodProcess(s, s.slots[i], ending);
    }
  }

  lemma ReparentKeeps(s: State, ending: nat)
    requires Shape(s, ending) && NobodyMissed(s, -1) && ending > 0
    ensures Good(Reparent(s, ending))
    ensures forall i :: 0 <= i < |s.slots| && Used(Reparent(s, ending).slots[i]) ==>
              Reparent(s, ending).slots[i].parent != ending
  {
    var s' := Reparent(s, ending);
    AliveAfter(s, ending, s.initPid);
    forall j | 0 <= j < |s'.slots| && Used(s'.slots[j])
      ensures GoodProcess(s', s'.slots[j], 0) && s'.slots[j].parent != ending
    {
      ReparentedSlot(s, ending, j);
    }
    forall r | r in s'.reaped
      ensures r < s'.nextPid
    {
      ReapedKnown(s, ending, r);
    }
    assert forall i :: 0 <= i < |s.slots| && Used(s'.slots[i]) ==>
             s'.slots[i].pid == s.slots[i].pid && Used(s.slots[i]);
    assert forall i :: 0 <= i < |s.slots| && s'.slots[i].life == Zombie ==> s'.slots[i] == s.slots[i];
    hide GoodProcess, IsAlive, GoodSlots, Reparent;
    assert GoodSlots(s', 0) by { GatherSlots(s'); }
  }

  lemma GatherSlots(s: State)
    requires forall j :: 0 <= j < |s.slots| && Used(s.slots[j]) ==> GoodProcess(s, s.slots[j], 0)
    ensures GoodSlots(s, 0)
  {
  }

  lemma AliveAfter(s: State, ending: nat, pid: nat)
    requires IsAlive(s.slots, pid)
    ensures IsAlive(Reparent(s, ending).slots, pid)
  {
    var k :| 0 <= k < |s.slots| && AliveAt(s.slots, k, pid);
    assert AliveAt(Reparent(s, ending).slots, k, pid);
  }

  /** Ending a process, whoever waits for it and whatever children it leaves, keeps the tree. */
  lemma TerminateKeeps(s: State, i: nat)
    requires Good(s) && i < |s.slots| && s.slots[i].pid != s.initPid
    ensures Good(Terminate(s, i))
  {
    if !s.slots[i].idle && s.slots[i].life == Alive {
      EndKeeps(s, i);
      assert GoodProcess(s, s.slots[i], 0);
      NotifyKeeps(End(s, i), i, s.slots[i].pid);
      ReparentKeeps(Notify(End(s, i), i), s.slots[i].pid);
    }
  }

  lemma CreateKeeps(s: State, i: nat, parent: nat)
    requires Good(s) && i < |s.slots| && !Used(s.slots[i]) && (parent == 0 || IsAlive(s.slots, parent))
    ensures Good(Create(s, i, parent))
  {
    var s' := Create(s, i, parent);
    AliveBeside(s, i, parent, s.initPid);
    forall j | 0 <= j < |s'.slots| && Used(s'.slots[j])
      ensures GoodProcess(s', s'.slots[j], 0)
    {
      if j == i {
        if parent != 0 { AliveBeside(s, i, parent, parent); }
      } else {
        assert GoodProcess(s, s.slots[j], 0);
        if s.slots[j].parent != 0 { AliveBeside(s, i, parent, s.slots[j].parent); }
      }
    }
  }

  lemma AliveBeside(s: State, i: nat, parent: nat, pid: nat)
    requires Good(s) && i < |s.slots| && !Used(s.slots[i]) && IsAlive(s.slots, pid)
    ensures IsAlive(Create(s, i, parent).slots, pid) && pid < s.nextPid
  {
    var k :| 0 <= k < |s.slots| && AliveAt(s.slots, k, pid);
    assert GoodProcess(s, s.slots[k], 0);
    assert AliveAt(Create(s, i, parent).slots, k, pid);
  }

  // ----- waiting for a child

  predicate ChildOf(p: Process, parent: nat, target: nat) { p.parent == parent && (target == ANY || p.pid == target) }

  /** The first zombie child the wait is about. */
  function ZombieChild(slots: seq<Process>, parent: nat, target: nat): (i: nat)
    ensures i <= |slots| && (i < |slots| ==> slots[i].life == Zombie && ChildOf(slots[i], parent, target))
    ensures forall j :: 0 <= j < i ==> !(slots[j].life == Zombie && ChildOf(slots[j], parent, target))
  {
    if slots == [] then 0 else
    var i := ZombieChild(slots[..|slots| - 1], parent, target);
    if i < |slots| - 1 then i
    else if slots[|slots| - 1].life == Zombie && ChildOf(slots[|slots| - 1], parent, target) then |slots| - 1
      else |slots|
  }

  predicate HasChild(slots: seq<Process>, parent: nat, target: nat) {
    exists i :: 0 <= i < |slots| && Used(slots[i]) && ChildOf(slots[i], parent, target)
  }

  /** A zombie child is reaped; without one the thread waits, if there is a child to wait for. */
  function WaitPid(s: State, t: nat, pid: nat, target: nat): State
    requires t < |s.waits|
  {
    var i := ZombieChild(s.slots, pid, target);
    if i < |s.slots| then Reap(s, i)
    else if !HasChild(s.slots, pid, target) then s
    else s.(waits := s.waits[t := For(pid, target)])
  }

  lemma WaitPidKeeps(s: State, t: nat, pid: nat, target: nat)
    requires Good(s) && t < |s.waits|
    ensures Good(WaitPid(s, t, pid, target))
  {
    var i := ZombieChild(s.slots, pid, target);
    if i < |s.slots| {
      assert NobodyMissed(s, i);
      ReapKeeps(s, i, 0);
    } else if HasChild(s.slots, pid, target) {
      var s' := WaitPid(s, t, pid, target);
      forall j | 0 <= j < |s'.slots| && Used(s'.slots[j])
        ensures GoodProcess(s', s'.slots[j], 0)
      {
        assert GoodProcess(s, s.slots[j], 0);
      }
    }
  }

  // ----- whole runs

  datatype Action =
    | Spawn(slot: nat, parent: nat)
    | SpawnFails
    | StartThread
    | Exit(slot: nat)
    | Wait(thread: nat, pid: nat, target: nat)

  /** Init does not exit; a process is created in an unused slot, by the kernel or by a live process. */
  predicate Allowed(s: State, a: Action) {
    match a
    case Spawn(slot, parent) => slot < |s.slots| && !Used(s.slots[slot]) && (parent == 0 || IsAlive(s.slots, parent))
    case Exit(slot) => slot < |s.slots| && s.slots[slot].pid != s.initPid
    case Wait(thread, _, _) => thread < |s.waits|
    case _ => true
  }

  function Next(s: State, a: Action): State
    requires Allowed(s, a)
  {
    match a
    case Spawn(slot, parent) => Create(s, slot, parent)
    case SpawnFails => s.(nextPid := s.nextPid + 1)
    case StartThread => s.(nextPid := s.nextPid + 1)
    case Exit(slot) => Terminate(s, slot)
    case Wait(thread, pid, target) => WaitPid(s, thread, pid, target)
  }

  lemma NextKeeps(s: State, a: Action)
    requires Good(s) && Allowed(s, a)
    ensures Good(Next(s, a))
  {
    match a {
      case Spawn(slot, parent) => CreateKeeps(s, slot, parent);
      case Exit(slot) => TerminateKeeps(s, slot);
      case Wait(thread, pid, target) => WaitPidKeeps(s, thread, pid, target);
      case _ => SkipKeeps(s);
    }
  }

  lemma SkipKeeps(s: State)
    requires Good(s)
    ensures Good(s.(nextPid := s.nextPid + 1))
  {
    var s' := s.(nextPid := s.nextPid + 1);
    forall j | 0 <= j < |s'.slots| && Used(s'.slots[j])
      ensures GoodProcess(s', s'.slots[j], 0)
    {
      assert GoodProcess(s, s.slots[j], 0);
    }
  }

  predicate Run(states: seq<State>, actions: seq<Action>) {
    && |states| == |actions| + 1
    && forall n :: 0 <= n < |actions| ==> Allowed(states[n], actions[n]) && states[n + 1] == Next(states[n], actions[n])
  }

  /** In every run in which init does not exit, every process in the table has a live, older parent. */
  lemma {:induction false} TreeHolds(states: seq<State>, actions: seq<Action>, n: nat)
    requires Run(states, actions) && Good(states[0]) && n <= |actions|
    ensures Good(states[n])
  {
    if n > 0 {
      TreeHolds(states, actions, n - 1);
      NextKeeps(states[n - 1], actions[n - 1]);
    }
  }

  /** The pids in the table. */
  predicate InTable(s: State, pid: nat) { exists i :: 0 <= i < |s.slots| && Used(s.slots[i]) && s.slots[i].pid == pid }

  lemma KeptAt(s: State, s': State, pid: nat)
    requires InTable(s, pid) && |s'.slots| == |s.slots| && pid !in s'.reaped
    requires forall i :: 0 <= i < |s.slots| && Used(s.slots[i]) ==>
               s.slots[i].pid in s'.reaped || (Used(s'.slots[i]) && s'.slots[i].pid == s.slots[i].pid)
    ensures InTable(s', pid)
  {
    var i :| 0 <= i < |s.slots| && Used(s.slots[i]) && s.slots[i].pid == pid;
    assert Used(s'.slots[i]);
  }

  lemma TerminateAccounts(s: State, i: nat, pid: nat)
    requires i < |s.slots| && InTable(s, pid) && pid !in Terminate(s, i).reaped
    ensures InTable(Terminate(s, i), pid)
  {
    if !s.slots[i].idle && s.slots[i].life == Alive {
      var s1 := End(s, i);
      var s2 := Notify(s1, i);
      EndAccounts(s, i, pid);
      NotifyAccounts(s1, i, pid);
      ReparentAccounts(s2, s.slots[i].pid, pid);
      hide End, Notify, Reparent, InTable;
    }
  }

  lemma EndAccounts(s: State, i: nat, pid: nat)
    requires i < |s.slots| && s.slots[i].life == Alive && InTable(s, pid)
    ensures InTable(End(s, i), pid) && |End(s, i).slots| == |s.slots|
  {
    var k :| 0 <= k < |s.slots| && Used(s.slots[k]) && s.slots[k].pid == pid;
    assert Used(End(s, i).slots[k]) && End(s, i).slots[k].pid == pid;
  }

  lemma NotifyAccounts(s: State, i: nat, pid: nat)
    requires i < |s.slots| && InTable(s, pid)
    ensures |Notify(s, i).slots| == |s.slots| && (pid !in Notify(s, i).reaped ==> InTable(Notify(s, i), pid))
  {
    if pid !in Notify(s, i).reaped { KeptAt(s, Notify(s, i), pid); }
  }

  lemma ReparentAccounts(s: State, ending: nat, pid: nat)
    requires pid !in s.reaped ==> InTable(s, pid)
    ensures s.reaped <= Reparent(s, ending).reaped
    ensures pid !in Reparent(s, ending).reaped ==> InTable(Reparent(s, ending), pid)
  {
    if pid !in Reparent(s, ending).reaped { KeptAt(s, Reparent(s, ending), pid); }
  }

  lemma TerminateReaps(s: State, i: nat)
    requires i < |s.slots|
    ensures s.reaped <= Terminate(s, i).reaped
  {
  }

  lemma OthersAccount(s: State, a: Action, pid: nat)
    requires Allowed(s, a) && !a.Exit? && InTable(s, pid) && pid !in Next(s, a).reaped
    ensures InTable(Next(s, a), pid)
  {
    KeptAt(s, Next(s, a), pid);
  }

  /** A pid leaves the table exactly by being reaped, and never comes back. */
  lemma ReapedForGood(s: State, a: Action, pid: nat)
    requires Good(s) && Allowed(s, a)
    ensures pid in s.reaped ==> pid in Next(s, a).reaped && !InTable(Next(s, a), pid)
    ensures InTable(s, pid) ==> (InTable(Next(s, a), pid) <==> pid !in Next(s, a).reaped)
  {
    var s' := Next(s, a);
    NextKeeps(s, a);
    if InTable(s', pid) {
      var i :| 0 <= i < |s'.slots| && Used(s'.slots[i]) && s'.slots[i].pid == pid;
      assert GoodProcess(s', s'.slots[i], 0);
    }
    if InTable(s, pid) && pid !in s'.reaped {
      if a.Exit? { TerminateAccounts(s, a.slot, pid); } else { OthersAccount(s, a, pid); }
    }
    assert s.reaped <= s'.reaped by { if a.Exit? { TerminateReaps(s, a.slot); } }
    hide Next, GoodSlots, GoodProcess, Distinct, NobodyMissed;
  }

  /** Only a process that has ended is reaped. */
  lemma OnlyZombiesReaped(s: State, a: Action, pid: nat)
    requires Good(s) && Allowed(s, a) && pid in Next(s, a).reaped && pid !in s.reaped
    ensures exists i :: 0 <= i < |s.slots| && s.slots[i].pid == pid
              && (s.slots[i].life == Zombie || (s.slots[i].life == Alive && a == Exit(i)))
  {
    if a.Exit? && !s.slots[a.slot].idle && s.slots[a.slot].life == Alive && pid != s.slots[a.slot].pid {
      var s2 := Notify(End(s, a.slot), a.slot);
      var p :| p in s2.slots && p.life == Zombie && p.parent == s.slots[a.slot].pid && p.pid == pid;
      var i :| 0 <= i < |s2.slots| && s2.slots[i] == p;
      assert s.slots[i].pid == pid;
    }
  }

  // ----- ancestry

  /** Each pid on the path is a process of the table and the next one its parent. */
  predicate Path(slots: seq<Process>, path: seq<nat>) {
    |path| > 1 && forall n :: 0 <= n < |path| - 1 ==> ParentIs(slots, path[n], path[n + 1])
  }

  predicate ParentIs(slots: seq<Process>, pid: nat, parent: nat) {
    exists i :: 0 <= i < |slots| && Used(slots[i]) && slots[i].pid == pid && slots[i].parent == parent && parent != 0
  }

  /** `ancestor` is the parent of `pid`, or its parent's parent, and so on. */
  ghost predicate Descends(slots: seq<Process>, pid: nat, ancestor: nat) {
    exists path: seq<nat> :: Path(slots, path) && path[0] == pid && path[|path| - 1] == ancestor
  }

  /** Ancestry climbs one step at a time. */
  lemma Climb(s: State, i: nat, ancestor: nat)
    requires Good(s) && i < |s.slots| && Used(s.slots[i])
    ensures Descends(s.slots, s.slots[i].pid, ancestor) <==>
            s.slots[i].parent != 0 && (ancestor == s.slots[i].parent || Descends(s.slots, s.slots[i].parent, ancestor))
  {
    var pid, parent := s.slots[i].pid, s.slots[i].parent;
    if Descends(s.slots, pid, ancestor) {
      var path: seq<nat> :| Path(s.slots, path) && path[0] == pid && path[|path| - 1] == ancestor;
      assert ParentIs(s.slots, path[0], path[1]);
      OneParent(s, i, path[1]);
      if |path| > 2 {
        var rest := path[1..];
        forall n | 0 <= n < |rest| - 1
          ensures ParentIs(s.slots, rest[n], rest[n + 1])
        {
          assert ParentIs(s.slots, path[n + 1], path[n + 2]);
        }
        assert Path(s.slots, rest);
      }
    }
    if parent != 0 {
      assert ParentIs(s.slots, pid, parent);
      if ancestor == parent {
        assert Path(s.slots, [pid, parent]);
        assert [pid, parent][|[pid, parent]| - 1] == ancestor;
      } else if Descends(s.slots, parent, ancestor) {
        var path: seq<nat> :| Path(s.slots, path) && path[0] == parent && path[|path| - 1] == ancestor;
        assert Path(s.slots, [pid] + path);
        assert ([pid] + path)[|[pid] + path| - 1] == ancestor;
      }
    }
  }

  lemma OneParent(s: State, i: nat, parent: nat)
    requires Good(s) && i < |s.slots| && Used(s.slots[i]) && ParentIs(s.slots, s.slots[i].pid, parent)
    ensures parent == s.slots[i].parent
  {
    var j :| 0 <= j < |s.slots| && Used(s.slots[j]) && s.slots[j].pid == s.slots[i].pid && s.slots[j].parent == parent;
    SameSlot(s.slots, i, j);
  }

  lemma SameSlot(slots: seq<Process>, i: nat, j: nat)
    requires Distinct(slots) && i < |slots| && j < |slots| && Used(slots[i]) && Used(slots[j])
    ensures slots[i].pid == slots[j].pid <==> i == j
  {
  }

  /** How many processes of the table are older. */
  ghost function Rank(slots: seq<Process>, pid: nat): nat { |Older(slots, pid)| }

  ghost function Older(slots: seq<Process>, pid: nat): set<nat> {
    set i: nat | i < |slots| && Used(slots[i]) && slots[i].pid < pid
  }

  /** A parent has strictly fewer elders than its child. */
  lemma RankClimbs(s: State, k: nat, child: nat)
    requires k < |s.slots| && Used(s.slots[k]) && s.slots[k].pid < child
    ensures Rank(s.slots, s.slots[k].pid) < Rank(s.slots, child)
  {
    var few, more := Older(s.slots, s.slots[k].pid), Older(s.slots, child);
    assert few <= more - {k} && k in more;
    SubsetSize(few, more - {k});
  }

  lemma RankBound(slots: seq<Process>, i: nat)
    requires i < |slots|
    ensures Rank(slots, slots[i].pid) < |slots|
  {
    var others := Older(slots, slots[i].pid);
    Bounded(others, |slots|, i);
  }

  lemma {:induction false} Bounded(s: set<nat>, n: nat, i: nat)
    requires (forall x :: x in s ==> x < n && x != i) && i < n
    ensures |s| < n
    decreases n
  {
    var m := n - 1;
    if i == m {
      Below(s, m);
    } else {
      Bounded(s - {m}, m, i);
      assert |s| <= |s - {m}| + 1;
    }
  }

  lemma {:induction false} Below(s: set<nat>, n: nat)
    requires forall x :: x in s ==> x < n
    ensures |s| <= n
  {
    if n == 0 {
      assert s == {};
    } else {
      Below(s - {n - 1}, n - 1);
      assert |s| <= |s - {n - 1}| + 1;
    }
  }

  lemma SubsetSize(a: set<nat>, b: set<nat>)
    requires a <= b
    ensures |a| <= |b|
  {
    assert b == a + (b - a);
  }
}
