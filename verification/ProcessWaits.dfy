/** Threads waiting for a child: who can be left waiting for one that is gone. */
module ProcessWaits {
  import opened ProcessTree

  /** The thread, if it waits, waits for a child that is in the table. */
  predicate Served(s: State, t: nat)
    requires t < |s.waits|
  {
    s.waits[t].For? ==> HasChild(s.slots, s.waits[t].process, s.waits[t].target)
  }

  predicate AllServed(s: State) { forall t :: 0 <= t < |s.waits| ==> Served(s, t) }

  /** Some child the thread waits for was in the table before the step and is not reaped in it. */
  predicate MatchKept(s: State, s': State, w: Waiting)
    requires w.For?
  {
    exists i :: 0 <= i < |s.slots| && Kept(s, s', w, i)
  }

  predicate Kept(s: State, s': State, w: Waiting, i: nat)
    requires w.For? && i < |s.slots|
  {
    Used(s.slots[i]) && ChildOf(s.slots[i], w.process, w.target) && s.slots[i].pid !in s'.reaped
  }

  /** The exit hands init a child that the thread waits for. */
  predicate Adopts(s: State, a: Action, w: Waiting)
    requires w.For?
  {
    && a.Exit? && a.slot < |s.slots| && s.slots[a.slot].life == Alive && !s.slots[a.slot].idle && w.process == s.initPid
    && exists i :: 0 <= i < |s.slots| && i != a.slot && Adopted(s.slots[i], s.slots[a.slot].pid, w.target)
  }

  predicate Adopted(p: Process, parent: nat, target: nat) {
    p.life == Alive && p.parent == parent && (target == ANY || p.pid == target)
  }

  // ----- where slots and waits go

  /** The parent a process has after a step. */
  function ParentAfter(s: State, a: Action, p: Process): nat {
    if a.Exit? && a.slot < |s.slots| && s.slots[a.slot].life == Alive && !s.slots[a.slot].idle
      && p.parent == s.slots[a.slot].pid
    then s.initPid else p.parent
  }

  /** A process of the table stays in its slot, or its pid is reaped. */
  predicate SlotAfter(s: State, a: Action, s': State, j: nat)
    requires j < |s.slots| == |s'.slots|
  {
    Used(s.slots[j]) ==>
      if Used(s'.slots[j]) then s'.slots[j].pid == s.slots[j].pid && s'.slots[j].parent == ParentAfter(s, a, s.slots[j])
      else s.slots[j].pid in s'.reaped && (a.Exit? && j != a.slot ==> s.slots[j].life == Zombie)
  }

  lemma ExitSlot(s: State, i: nat, j: nat)
    requires Good(s) && i < |s.slots| && j < |s.slots|
    ensures |Terminate(s, i).slots| == |s.slots| && SlotAfter(s, Exit(i), Terminate(s, i), j)
  {
    if Used(s.slots[j]) && s.slots[i].life == Alive && !s.slots[i].idle {
      assert GoodProcess(s, s.slots[j], 0) && GoodProcess(s, s.slots[i], 0);
      var s2 := Notify(End(s, i), i);
      assert j != i ==> s2.slots[j] == s.slots[j];
      assert s2.slots[j] in s2.slots;
      OtherPid(s, i, j);
      hide Good, Waiter;
    }
  }

  lemma OtherPid(s: State, i: nat, j: nat)
    requires Good(s) && i < |s.slots| && j < |s.slots| && Used(s.slots[i]) && Used(s.slots[j])
    ensures s.slots[i].parent != s.slots[i].pid && (s.slots[i].pid == s.slots[j].pid <==> i == j)
  {
    assert GoodProcess(s, s.slots[i], 0);
    SameSlot(s.slots, i, j);
  }

  lemma StepSlot(s: State, a: Action, j: nat)
    requires Good(s) && Allowed(s, a) && j < |s.slots|
    ensures |Next(s, a).slots| == |s.slots| && SlotAfter(s, a, Next(s, a), j)
    ensures Used(s.slots[j]) ==> (Used(Next(s, a).slots[j]) <==> s.slots[j].pid !in Next(s, a).reaped)
    ensures !Used(s.slots[j]) && Used(Next(s, a).slots[j]) ==> a.Spawn?
  {
    if a.Exit? { ExitSlot(s, a.slot, j); }
    NextKeeps(s, a);
    if Used(Next(s, a).slots[j]) { assert GoodProcess(Next(s, a), Next(s, a).slots[j], 0); }
  }

  /** A thread that waits after a step waited before it for the same, or has just begun; and its process has
      not just ended. */
  lemma StepWait(s: State, a: Action, t: nat)
    requires Good(s) && Allowed(s, a) && t < |s.waits|
    ensures |Next(s, a).waits| == |s.waits|
    ensures var w := Next(s, a).waits[t];
            w.For? ==> (w == s.waits[t] || a == Wait(t, w.process, w.target))
                       && (a.Exit? && s.slots[a.slot].life == Alive && !s.slots[a.slot].idle ==>
                              w.process != s.slots[a.slot].pid)
  {
  }

  // ----- exactly who stays served

  /** A thread that waits on still has a child to wait for exactly when one of those it waited for was not
      reaped, or the exit handed it one. */
  lemma ServedExactly(s: State, a: Action, t: nat)
    requires Good(s) && Allowed(s, a) && t < |s.waits| && Served(s, t)
    requires Next(s, a).waits[t].For? && Next(s, a).waits[t] == s.waits[t]
    ensures Served(Next(s, a), t) <==> MatchKept(s, Next(s, a), s.waits[t]) || Adopts(s, a, s.waits[t])
  {
    var s', w := Next(s, a), s.waits[t];
    StepWait(s, a, t);
    if a.Spawn? {
      SpawnServes(s, a, w);
    } else {
      if MatchKept(s, s', w) || Adopts(s, a, w) { ServedOn(s, a, t); }
      if Served(s', t) { ServedFrom(s, a, t); }
    }
  }

  lemma SpawnServes(s: State, a: Action, w: Waiting)
    requires Good(s) && Allowed(s, a) && a.Spawn? && w.For? && HasChild(s.slots, w.process, w.target)
    ensures MatchKept(s, Next(s, a), w) && HasChild(Next(s, a).slots, w.process, w.target)
  {
    var i :| 0 <= i < |s.slots| && Used(s.slots[i]) && ChildOf(s.slots[i], w.process, w.target);
    assert GoodProcess(s, s.slots[i], 0);
    assert Kept(s, Next(s, a), w, i);
    assert Next(s, a).slots[i] == s.slots[i];
  }

  lemma ServedOn(s: State, a: Action, t: nat)
    requires Good(s) && Allowed(s, a) && t < |s.waits| && Next(s, a).waits[t].For? && Next(s, a).waits[t] == s.waits[t]
    requires MatchKept(s, Next(s, a), s.waits[t]) || Adopts(s, a, s.waits[t])
    ensures Served(Next(s, a), t)
  {
    var s', w := Next(s, a), s.waits[t];
    StepWait(s, a, t);
    var i: nat;
    if MatchKept(s, s', w) {
      i :| 0 <= i < |s.slots| && Kept(s, s', w, i);
    } else {
      i :| 0 <= i < |s.slots| && i != a.slot && Adopted(s.slots[i], s.slots[a.slot].pid, w.target);
    }
    StepSlot(s, a, i);
    hide Good, Next, Allowed;
    assert Used(s'.slots[i]) && ChildOf(s'.slots[i], w.process, w.target);
  }

  lemma ServedFrom(s: State, a: Action, t: nat)
    requires Good(s) && Allowed(s, a) && !a.Spawn? && t < |s.waits| && Next(s, a).waits[t].For?
    requires Next(s, a).waits[t] == s.waits[t]
    requires Served(Next(s, a), t)
    ensures MatchKept(s, Next(s, a), s.waits[t]) || Adopts(s, a, s.waits[t])
  {
    var s', w := Next(s, a), s.waits[t];
    var i :| 0 <= i < |s'.slots| && Used(s'.slots[i]) && ChildOf(s'.slots[i], w.process, w.target);
    SlotCount(s, a);
    StepSlot(s, a, i);
    if s.slots[i].parent == w.process {
      assert Kept(s, s', w, i);
    } else {
      AdoptedAlive(s, a, i);
    }
  }

  lemma SlotCount(s: State, a: Action)
    requires Good(s) && Allowed(s, a)
    ensures |Next(s, a).slots| == |s.slots|
  {
  }

  /** A process whose parent changed in a step was a live child of the one that ended. */
  lemma AdoptedAlive(s: State, a: Action, i: nat)
    requires Good(s) && Allowed(s, a) && !a.Spawn? && i < |s.slots| == |Next(s, a).slots|
    requires Used(Next(s, a).slots[i]) && Next(s, a).slots[i].parent != s.slots[i].parent
    ensures a.Exit? && s.slots[a.slot].life == Alive && !s.slots[a.slot].idle && i != a.slot
    ensures s.slots[i].life == Alive && s.slots[i].parent == s.slots[a.slot].pid
    ensures Next(s, a).slots[i].pid == s.slots[i].pid
    ensures Next(s, a).slots[i].parent == s.initPid
  {
  }

  /** A thread that has just begun to wait has a child to wait for. */
  lemma BegunServed(s: State, a: Action, t: nat)
    requires Good(s) && Allowed(s, a) && t < |s.waits| && a.Wait? && a.thread == t && Next(s, a).waits[t].For?
    requires Served(s, t)
    ensures Next(s, a).waits[t] != s.waits[t] ==> Served(Next(s, a), t)
  {
  }

  /** After a step every thread that waits has a child to wait for exactly when nobody's last one was reaped
      without another being handed to it. */
  lemma AllServedExactly(s: State, a: Action)
    requires Good(s) && Allowed(s, a) && AllServed(s)
    ensures |Next(s, a).waits| == |s.waits|
    ensures AllServed(Next(s, a)) <==>
            forall t :: 0 <= t < |s.waits| && Next(s, a).waits[t].For? && Next(s, a).waits[t] == s.waits[t] ==>
              MatchKept(s, Next(s, a), s.waits[t]) || Adopts(s, a, s.waits[t])
  {
    var s' := Next(s, a);
    WaitCount(s, a);
    hide Good, Allowed, Next, MatchKept, Adopts, Served;
    forall t | 0 <= t < |s.waits| && s'.waits[t].For? && s'.waits[t] == s.waits[t]
      ensures Served(s', t) <==> MatchKept(s, s', s.waits[t]) || Adopts(s, a, s.waits[t])
    {
      assert Served(s, t);
      ServedExactly(s, a, t);
    }
    forall t | 0 <= t < |s.waits| && !(s'.waits[t].For? && s'.waits[t] == s.waits[t])
      ensures Served(s', t)
    {
      assert Served(s, t);
      OtherServed(s, a, t);
    }
  }

  lemma WaitCount(s: State, a: Action)
    requires Good(s) && Allowed(s, a)
    ensures |Next(s, a).waits| == |s.waits|
  {
  }

  lemma OtherServed(s: State, a: Action, t: nat)
    requires Good(s) && Allowed(s, a) && t < |s.waits| == |Next(s, a).waits| && Served(s, t)
    requires !(Next(s, a).waits[t].For? && Next(s, a).waits[t] == s.waits[t])
    ensures Served(Next(s, a), t)
  {
    if Next(s, a).waits[t].For? {
      StepWait(s, a, t);
      BegunServed(s, a, t);
    }
  }

  // ----- which steps leave somebody waiting for a child that is gone

  /** Only an exit can do it: a wait takes a zombie, and nobody waits for one. */
  lemma OnlyExitsLeave(s: State, a: Action)
    requires Good(s) && Allowed(s, a) && AllServed(s) && !a.Exit?
    ensures AllServed(Next(s, a))
  {
    forall t | 0 <= t < |s.waits| && Next(s, a).waits[t].For? && Next(s, a).waits[t] == s.waits[t]
      ensures MatchKept(s, Next(s, a), s.waits[t])
    {
      assert Served(s, t);
      NotTaken(s, a, t);
    }
    WaitCount(s, a);
    AllServedExactly(s, a);
  }

  lemma NotTaken(s: State, a: Action, t: nat)
    requires Good(s) && Allowed(s, a) && !a.Exit? && t < |s.waits| && s.waits[t].For? && Served(s, t)
    ensures MatchKept(s, Next(s, a), s.waits[t])
  {
    var w := s.waits[t];
    var j :| 0 <= j < |s.slots| && Used(s.slots[j]) && ChildOf(s.slots[j], w.process, w.target);
    assert GoodProcess(s, s.slots[j], 0) && Matches(w, s.slots[j]);
    if a.Wait? {
      var i := ZombieChild(s.slots, a.pid, a.target);
      if i < |s.slots| {
        assert i != j;
        OtherPid(s, i, j);
      }
    }
    assert Kept(s, Next(s, a), w, j);
  }

  /** Before process `i` ends: two threads wait for it, and the second has no other child to wait for and
      will be handed none. */
  predicate LeftBehind(s: State, i: nat, u: nat, t: nat)
    requires i < |s.slots| && u < t < |s.waits|
  {
    && Matches(s.waits[u], s.slots[i]) && Matches(s.waits[t], s.slots[i])
    && !OtherChild(s, i, s.waits[t]) && !Adopts(s, Exit(i), s.waits[t])
  }

  predicate OtherChild(s: State, i: nat, w: Waiting)
    requires w.For?
  {
    exists j :: 0 <= j < |s.slots| && j != i && Used(s.slots[j]) && ChildOf(s.slots[j], w.process, w.target)
  }

  /** An exit leaves nobody waiting for a child that is gone exactly when no second waiter is left behind. */
  lemma ExitLeavesExactly(s: State, i: nat)
    requires Good(s) && Allowed(s, Exit(i)) && s.slots[i].life == Alive && !s.slots[i].idle && AllServed(s)
    ensures AllServed(Next(s, Exit(i))) <==> forall u, t :: 0 <= u < t < |s.waits| ==> !LeftBehind(s, i, u, t)
  {
    var s' := Next(s, Exit(i));
    AllServedExactly(s, Exit(i));
    hide Good, Allowed, Next, MatchKept, Adopts, OtherChild, AllServed;
    forall u, t | 0 <= u < t < |s.waits| && LeftBehind(s, i, u, t)
      ensures s'.waits[t].For? && s'.waits[t] == s.waits[t]
      ensures !MatchKept(s, s', s.waits[t]) && !Adopts(s, Exit(i), s.waits[t])
    {
      SecondStays(s, i, u, t);
      KeptExactly(s, i, t);
    }
    forall t | 0 <= t < |s.waits| && s'.waits[t].For? && s'.waits[t] == s.waits[t]
      ensures MatchKept(s, s', s.waits[t]) || Adopts(s, Exit(i), s.waits[t])
              || exists u :: 0 <= u < t && LeftBehind(s, i, u, t)
    {
      KeptExactly(s, i, t);
      if !MatchKept(s, s', s.waits[t]) && !Adopts(s, Exit(i), s.waits[t]) {
        StaysSecond(s, i, t);
      }
    }
  }

  /** The threads an exit releases: those of the process itself, and the first that waits for it. */
  lemma ExitWaits(s: State, i: nat)
    requires Good(s) && Allowed(s, Exit(i)) && s.slots[i].life == Alive && !s.slots[i].idle
    ensures var s', first := Next(s, Exit(i)), Waiter(s.waits, s.slots[i]);
            && |s'.waits| == |s.waits|
            && (forall t :: 0 <= t < |s.waits| ==>
                  s'.waits[t] == if s.waits[t].For? && (s.waits[t].process == s.slots[i].pid || t == first)
                    then NotWaiting else s.waits[t])
            && (first < |s.waits| ==> s.slots[i].pid in s'.reaped)
  {
    OtherPid(s, i, i);
    var ended := End(s, i);
    var first, woken := Waiter(s.waits, s.slots[i]), Waiter(ended.waits, ended.slots[i]);
    assert forall t :: 0 <= t < |s.waits| ==>
             (Matches(ended.waits[t], ended.slots[i]) <==> Matches(s.waits[t], s.slots[i]));
    assert first == woken;
  }

  lemma SecondStays(s: State, i: nat, u: nat, t: nat)
    requires Good(s) && Allowed(s, Exit(i)) && s.slots[i].life == Alive && !s.slots[i].idle
    requires u < t < |s.waits| && Matches(s.waits[u], s.slots[i]) && Matches(s.waits[t], s.slots[i])
    ensures |Next(s, Exit(i)).waits| == |s.waits| && Next(s, Exit(i)).waits[t] == s.waits[t]
  {
    ExitWaits(s, i);
    OtherPid(s, i, i);
  }

  /** Of the children a thread waits for, only the one that ends is taken from it. */
  lemma KeptExactly(s: State, i: nat, t: nat)
    requires Good(s) && Allowed(s, Exit(i)) && s.slots[i].life == Alive && !s.slots[i].idle
    requires t < |s.waits| == |Next(s, Exit(i)).waits| && s.waits[t].For? && Next(s, Exit(i)).waits[t] == s.waits[t]
    ensures MatchKept(s, Next(s, Exit(i)), s.waits[t]) <==>
              OtherChild(s, i, s.waits[t]) || Kept(s, Next(s, Exit(i)), s.waits[t], i)
    ensures Matches(s.waits[t], s.slots[i]) ==> !Kept(s, Next(s, Exit(i)), s.waits[t], i)
  {
    var s', w := Next(s, Exit(i)), s.waits[t];
    StepWait(s, Exit(i), t);
    ExitWaits(s, i);
    forall j | 0 <= j < |s.slots| && j != i && Used(s.slots[j]) && ChildOf(s.slots[j], w.process, w.target)
      ensures Kept(s, s', w, j)
    {
      StaysThere(s, i, j);
    }
  }

  lemma StaysThere(s: State, i: nat, j: nat)
    requires Good(s) && Allowed(s, Exit(i)) && s.slots[i].life == Alive && !s.slots[i].idle
    requires j < |s.slots| && j != i && Used(s.slots[j]) && s.slots[j].parent != s.slots[i].pid
    ensures s.slots[j].pid !in Next(s, Exit(i)).reaped
  {
    StepSlot(s, Exit(i), j);
    OtherPid(s, i, j);
    hide Good;
    assert Used(Next(s, Exit(i)).slots[j]);
  }

  lemma StaysSecond(s: State, i: nat, t: nat)
    requires Good(s) && Allowed(s, Exit(i)) && s.slots[i].life == Alive && !s.slots[i].idle
    requires t < |s.waits| == |Next(s, Exit(i)).waits| && s.waits[t].For? && Next(s, Exit(i)).waits[t] == s.waits[t]
    requires Served(s, t) && !OtherChild(s, i, s.waits[t]) && !Adopts(s, Exit(i), s.waits[t])
    requires !Kept(s, Next(s, Exit(i)), s.waits[t], i)
    ensures exists u :: 0 <= u < t && LeftBehind(s, i, u, t)
  {
    var w := s.waits[t];
    var j :| 0 <= j < |s.slots| && Used(s.slots[j]) && ChildOf(s.slots[j], w.process, w.target);
    assert j == i && Matches(w, s.slots[i]);
    ExitWaits(s, i);
    assert LeftBehind(s, i, Waiter(s.waits, s.slots[i]), t);
  }

  /** The step is the exit of a live process that leaves a second waiter behind. */
  predicate LeavesBehind(s: State, a: Action) {
    && a.Exit? && a.slot < |s.slots| && s.slots[a.slot].life == Alive && !s.slots[a.slot].idle
    && exists u, t :: 0 <= u < t < |s.waits| && LeftBehind(s, a.slot, u, t)
  }

  lemma StepServesExactly(s: State, a: Action)
    requires Good(s) && Allowed(s, a) && AllServed(s)
    ensures AllServed(Next(s, a)) <==> !LeavesBehind(s, a)
  {
    if !a.Exit? {
      OnlyExitsLeave(s, a);
    } else if s.slots[a.slot].life == Alive && !s.slots[a.slot].idle {
      ExitLeavesExactly(s, a.slot);
    }
  }

  lemma RunStepServes(states: seq<State>, actions: seq<Action>, n: nat)
    requires Run(states, actions) && Good(states[0]) && n < |actions|
    ensures AllServed(states[n]) ==> (AllServed(states[n + 1]) <==> !LeavesBehind(states[n], actions[n]))
  {
    TreeHolds(states, actions, n);
    hide AllServed, LeavesBehind, Good;
    if AllServed(states[n]) { StepServesExactly(states[n], actions[n]); }
  }

  /** Throughout a run nobody waits for a child that is gone exactly when no exit in it leaves a second
      waiter behind. */
  lemma {:induction false} RunServesExactly(states: seq<State>, actions: seq<Action>, n: nat)
    requires Run(states, actions) && Good(states[0]) && AllServed(states[0]) && n <= |actions|
    ensures (forall m :: 0 <= m <= n ==> AllServed(states[m])) <==>
              forall m :: 0 <= m < n ==> !LeavesBehind(states[m], actions[m])
  {
    if n > 0 {
      RunServesExactly(states, actions, n - 1);
      RunStepServes(states, actions, n - 1);
      hide AllServed, LeavesBehind, Good, Next, Allowed;
    }
  }

  // ----- one that is left waiting for ever

  /** The thread waits for one particular child, and that child has been reaped. */
  predicate Stuck(s: State, t: nat) {
    t < |s.waits| && s.waits[t].For? && s.waits[t].target != ANY && s.waits[t].target in s.reaped
  }

  /** No step ends such a wait but the end of its own process, or the thread itself calling again. */
  lemma StuckForGood(s: State, a: Action, t: nat)
    requires Good(s) && Allowed(s, a) && Stuck(s, t)
    requires !(a.Wait? && a.thread == t) && !(a.Exit? && s.slots[a.slot].pid == s.waits[t].process)
    ensures Stuck(Next(s, a), t) && Next(s, a).waits[t] == s.waits[t]
  {
    ReapedForGood(s, a, s.waits[t].target);
    if a.Exit? && s.slots[a.slot].life == Alive {
      assert GoodProcess(s, s.slots[a.slot], 0);
    }
  }

  /** Init, process 2 and its child 3; two threads of process 2 wait, for any child and for child 3. */
  const FAMILY := State([Process(1, 0, Alive, false, false), Process(2, 1, Alive, false, false),
                         Process(3, 2, Alive, false, false)],
                        [For(2, ANY), For(2, 3)], 4, 1, {})

  lemma FamilyGood()
    ensures Good(FAMILY) && AllServed(FAMILY) && Allowed(FAMILY, Exit(2))
  {
    var s := FAMILY;
    assert AliveAt(s.slots, 0, 1) && AliveAt(s.slots, 1, 2);
    assert Used(s.slots[2]) && ChildOf(s.slots[2], 2, ANY) && ChildOf(s.slots[2], 2, 3);
  }

  /** When 3 ends, the first thread is woken with it and the second waits on for a child that is gone. */
  lemma SecondWaiterStuck()
    ensures Good(FAMILY) && AllServed(FAMILY) && Allowed(FAMILY, Exit(2))
    ensures var s' := Next(FAMILY, Exit(2)); s'.waits == [NotWaiting, For(2, 3)] && Stuck(s', 1) && !AllServed(s')
  {
    FamilyGood();
    hide Good;
    var s1 := End(FAMILY, 2);
    assert s1.waits == FAMILY.waits;
    FirstMatches(s1.waits, s1.slots[2]);
    var s2 := Notify(s1, 2);
    assert s2.waits == [NotWaiting, For(2, 3)] && !Used(s2.slots[2]) && 3 in s2.reaped;
    var s3 := Reparent(s2, 3);
    assert s3.slots[0].parent == 0 && s3.slots[1].parent == 1 && !Used(s3.slots[2]);
    assert !Served(s3, 1);
  }

  lemma FirstMatches(waits: seq<Waiting>, child: Process)
    requires waits != [] && Matches(waits[0], child)
    ensures Waiter(waits, child) == 0
  {
  }
}
