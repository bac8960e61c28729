/** Waiting on an address: threads park on a word of their process until someone
    changes it and says so. The calls run under the kernel lock, the stores of
    user code take none. */
module AddressWait {

  datatype State = Ready | Running | Sleeping | BlockedWait | Zombie

  datatype Reason = NoReason | Object | Address

  datatype Thread = Thread(process: nat, state: State, reason: Reason, address: nat, ticket: nat, deadline: nat,
                           result: int)

  datatype Outcome = Invalid | Changed | TimedOut | Blocked

  const TIMED_OUT: int := -110

  type Memory = map<(nat, nat), nat>

  /** Byte of a process's memory. */
  function ByteAt(m: Memory, process: nat, address: nat): nat {
    if (process, address) in m then m[(process, address)] % 256 else 0
  }

  /** The word of `size` bytes, least significant first. */
  function Word(m: Memory, process: nat, address: nat, size: nat): nat
    decreases size
  {
    if size == 0 then 0 else ByteAt(m, process, address) + 256 * Word(m, process, address + 1, size - 1)
  }

  predicate WordSize(size: nat) { size == 1 || size == 2 || size == 4 || size == 8 }

  /** The expected value, cut to the word's size. */
  function Masked(expected: nat, size: nat): nat
    requires WordSize(size)
  {
    expected % (match size case 1 => 0x100 case 2 => 0x1_0000 case 4 => 0x1_0000_0000 case 8 => 0x1_0000_0000_0000_0000)
  }

  /** The thread is parked on the address. */
  predicate ParkedOn(t: Thread, process: nat, address: nat) {
    Parked(t) && t.process == process && t.address == address
  }

  predicate Parked(t: Thread) { t.state == BlockedWait && t.reason == Address }

  function Woken(t: Thread, result: int): Thread {
    t.(state := Ready, reason := NoReason, address := 0, ticket := 0, deadline := 0, result := result)
  }

  datatype Kernel = Kernel(threads: seq<Thread>, tickets: nat)

  /** Parked threads hold different tickets, all of them given out. */
  predicate Good(k: Kernel) {
    && (forall i :: 0 <= i < |k.threads| && Parked(k.threads[i]) ==> k.threads[i].ticket <= k.tickets)
    && forall i, j :: 0 <= i < j < |k.threads| && Parked(k.threads[i]) && Parked(k.threads[j]) ==>
         k.threads[i].ticket != k.threads[j].ticket
  }

  function WaitOutcome(accessible: bool, value: nat, address: nat, expected: nat, size: nat, timeout: int): Outcome {
    if !WordSize(size) || address % size != 0 || !accessible then Invalid
    else if value != Masked(expected, size) then Changed
    else if timeout == 0 then TimedOut
    else Blocked
  }

  /** Thread `i` parks; its ticket is newer than every other. */
  function Park(k: Kernel, i: nat, address: nat, deadline: nat): Kernel
    requires i < |k.threads|
  {
    Kernel(k.threads[i := k.threads[i].(state := BlockedWait, reason := Address, address := address,
                                        ticket := k.tickets + 1, deadline := deadline)],
           k.tickets + 1)
  }

  lemma ParkGood(k: Kernel, i: nat, address: nat, deadline: nat)
    requires Good(k) && i < |k.threads|
    ensures Good(Park(k, i, address, deadline))
    ensures forall j :: 0 <= j < |k.threads| && j != i && Parked(k.threads[j]) ==>
              k.threads[j].ticket < Park(k, i, address, deadline).threads[i].ticket
  {
  }

  // ----- waking

  ghost function ParkedSet(ts: seq<Thread>, process: nat, address: nat): set<nat> {
    set i: nat | i < |ts| && ParkedOn(ts[i], process, address)
  }

  function Min(a: nat, b: nat): nat { if a < b then a else b }

  /** Exactly the threads `w` were woken. */
  predicate WokeThese(ts: seq<Thread>, ts': seq<Thread>, w: set<nat>, result: int) {
    && |ts'| == |ts|
    && forall i :: 0 <= i < |ts| ==> ts'[i] == if i in w then Woken(ts[i], result) else ts[i]
  }

  /** Everyone woken had parked before everyone still waiting. */
  predicate OldestFirst(ts: seq<Thread>, w: set<nat>, process: nat, address: nat) {
    forall i, j :: 0 <= i < |ts| && 0 <= j < |ts| && i in w && j !in w && ParkedOn(ts[j], process, address) ==>
      ts[i].ticket < ts[j].ticket
  }

  /** The `count` threads that have waited longest on the address, or all there are, are woken. */
  ghost predicate WokeOldest(k: Kernel, k': Kernel, w: set<nat>, process: nat, address: nat, count: nat) {
    && k'.tickets == k.tickets && w <= ParkedSet(k.threads, process, address)
    && |w| == Min(count, |ParkedSet(k.threads, process, address)|)
    && WokeThese(k.threads, k'.threads, w, 0) && OldestFirst(k.threads, w, process, address)
  }

  /** There is only one such set. */
  lemma OldestUnique(ts: seq<Thread>, v: set<nat>, w: set<nat>, process: nat, address: nat)
    requires v <= ParkedSet(ts, process, address) && w <= ParkedSet(ts, process, address) && |v| == |w|
    requires OldestFirst(ts, v, process, address) && OldestFirst(ts, w, process, address)
    ensures v == w
  {
    hide OldestFirst;
    if !(v <= w) && !(w <= v) {
      var i :| i in v && i !in w;
      var j :| j in w && j !in v;
      Older(ts, v, process, address, i, j);
      Older(ts, w, process, address, j, i);
    }
    if v < w { Smaller(v, w); }
    if w < v { Smaller(w, v); }
  }

  lemma Older(ts: seq<Thread>, w: set<nat>, process: nat, address: nat, i: nat, j: nat)
    requires OldestFirst(ts, w, process, address) && i < |ts| && j < |ts| && i in w && j !in w
    requires ParkedOn(ts[j], process, address)
    ensures ts[i].ticket < ts[j].ticket
  {
  }

  lemma Smaller(a: set<nat>, b: set<nat>)
    requires a < b
    ensures |a| < |b|
  {
    assert b == a + (b - a);
  }

  predicate Expired(t: Thread, tick: nat) {
    t.state == BlockedWait && (t.reason == Object || t.reason == Address) && t.deadline != 0 && t.deadline <= tick
  }

  /** All waits whose deadline has come end. */
  function TimeOut(k: Kernel, tick: nat): Kernel {
    k.(threads := seq(|k.threads|, i requires 0 <= i < |k.threads| =>
      if Expired(k.threads[i], tick) then Woken(k.threads[i], TIMED_OUT) else k.threads[i]))
  }

  /** Waking threads, for whatever reason, keeps tickets in order. */
  lemma WakeGood(k: Kernel, k': Kernel, w: set<nat>, result: int)
    requires Good(k) && k'.tickets == k.tickets && WokeThese(k.threads, k'.threads, w, result)
    ensures Good(k')
  {
    assert forall i :: 0 <= i < |k.threads| && Parked(k'.threads[i]) ==> i !in w && k'.threads[i] == k.threads[i];
  }

  // ----- every interleaving of stores, waits and wakes

  /** What a parked thread waits for: its word had this value when it parked. */
  datatype Ask = Ask(size: nat, expected: nat)

  /** A store that has not been announced yet: who stored, and where. */
  datatype Debt = Debt(storer: nat, process: nat, address: nat)

  /** The kernel lock: free, or held by a thread that has loaded its word and not yet decided. */
  datatype Lock = Free | Checking(thread: nat, process: nat, call: Call, value: nat)

  /** The arguments of a wait. */
  datatype Call = Call(address: nat, expected: nat, size: nat, timeout: int, deadline: nat, accessible: bool)

  datatype World = World(kernel: Kernel, memory: Memory, asks: map<nat, Ask>, debts: set<Debt>, lock: Lock)

  datatype Action =
    | Store(storer: nat, process: nat, address: nat, size: nat, memory: Memory)
    | Load(thread: nat, call: Call)
    | Decide
    | WakeSome(process: nat, address: nat, count: nat)
    | WakeAll(storer: nat, process: nat, address: nat)
    | Tick(tick: nat)
    | Leave(thread: nat, after: Thread)

  /** Only the bytes of the stored word differ. */
  ghost predicate Stored(m: Memory, m': Memory, process: nat, address: nat, size: nat) {
    forall p: nat, a: nat {:trigger ByteAt(m', p, a)} :: !(p == process && address <= a < address + size) ==>
      ByteAt(m', p, a) == ByteAt(m, p, a)
  }

  /** The bytes stored meet the word a parked thread waits on. */
  predicate Touches(t: Thread, wordSize: nat, process: nat, address: nat, size: nat) {
    Parked(t) && t.process == process && address < t.address + wordSize && t.address < address + size
  }

  /** A store that meets the thread's word is a store to it. */
  predicate OwnWord(t: Thread, wordSize: nat, process: nat, address: nat, size: nat) {
    Touches(t, wordSize, process, address, size) ==> t.address == address
  }

  /** The bytes stored meet the word of the wait that is being decided. */
  predicate TouchesChecked(lock: Lock, process: nat, address: nat, size: nat) {
    && lock.Checking? && lock.process == process
    && address < lock.call.address + lock.call.size && lock.call.address < address + size
  }

  /** Stores take no lock and may come at any moment, also between the load of a wait and its decision. The
      rule for them: one that touches a word someone waits on, or is about to, is a store to that word.
      Everything else runs with the kernel lock, so not while a wait is being decided. */
  ghost predicate Allowed(w: World, a: Action) {
    match a
    case Store(storer, process, address, size, memory) =>
      && (forall i :: 0 <= i < |w.kernel.threads| && i in w.asks ==>
            OwnWord(w.kernel.threads[i], w.asks[i].size, process, address, size))
      && (TouchesChecked(w.lock, process, address, size) ==> w.lock.call.address == address)
    case Load(thread, _) => w.lock.Free? && thread < |w.kernel.threads| && !Parked(w.kernel.threads[thread])
    case Decide => w.lock.Checking?
    case Leave(thread, after) => w.lock.Free? && thread < |w.kernel.threads| && !Parked(after)
    case _ => w.lock.Free?
  }

  const WAKE_ALL := 0xffff_ffff

  ghost predicate Step(w: World, a: Action, w': World) {
    match a
    case Store(storer, process, address, size, memory) =>
      && Stored(w.memory, memory, process, address, size)
      && w' == w.(memory := memory, debts := w.debts + {Debt(storer, process, address)})
    case Load(i, call) =>
      i < |w.kernel.threads| && var process := w.kernel.threads[i].process;
      w' == w.(lock := Checking(i, process, call, Word(w.memory, process, call.address, call.size)))
    case Decide =>
      && w.lock.Checking? && w.lock.thread < |w.kernel.threads|
      && var c := w.lock.call;
         if WaitOutcome(c.accessible, w.lock.value, c.address, c.expected, c.size, c.timeout) == Blocked
         then w' == w.(kernel := Park(w.kernel, w.lock.thread, c.address, c.deadline),
                       asks := w.asks[w.lock.thread := Ask(c.size, Masked(c.expected, c.size))], lock := Free)
         else w' == w.(lock := Free)
    case WakeSome(process, address, count) =>
      w' == w.(kernel := w'.kernel) && exists z :: WokeOldest(w.kernel, w'.kernel, z, process, address, count)
    case WakeAll(storer, process, address) =>
      w' == w.(kernel := w'.kernel, debts := w.debts - {Debt(storer, process, address)})
      && exists z :: WokeOldest(w.kernel, w'.kernel, z, process, address, WAKE_ALL)
    case Tick(tick) => w' == w.(kernel := TimeOut(w.kernel, tick))
    case Leave(i, after) =>
      i < |w.kernel.threads| && w' == w.(kernel := w.kernel.(threads := w.kernel.threads[i := after]))
  }

  /** Thread `i`, if parked, sleeps on a word that has not changed, or a wake for it is still owed. */
  ghost predicate Safe(w: World, i: nat)
    requires i < |w.kernel.threads|
  {
    var t := w.kernel.threads[i];
    && (Parked(t) ==> i in w.asks)
    && (Parked(t) && Word(w.memory, t.process, t.address, w.asks[i].size) != w.asks[i].expected ==>
          exists s :: Debt(s, t.process, t.address) in w.debts)
  }

  /** A wait being decided has the word as it is, or a wake for it is still owed. */
  ghost predicate CheckedSafe(w: World) {
    w.lock.Checking? ==>
      && w.lock.thread < |w.kernel.threads| && !Parked(w.kernel.threads[w.lock.thread])
      && w.kernel.threads[w.lock.thread].process == w.lock.process
      && (Word(w.memory, w.lock.process, w.lock.call.address, w.lock.call.size) != w.lock.value ==>
            exists s :: Debt(s, w.lock.process, w.lock.call.address) in w.debts)
  }

  ghost predicate Inv(w: World) {
    && Good(w.kernel) && |w.kernel.threads| <= MAX_THREADS && CheckedSafe(w)
    && forall i :: 0 <= i < |w.kernel.threads| ==> Safe(w, i)
  }

  const MAX_THREADS := 256

  lemma {:induction false} WordSame(m: Memory, m': Memory, process: nat, address: nat, size: nat)
    requires forall a: nat :: address <= a < address + size ==> ByteAt(m', process, a) == ByteAt(m, process, a)
    ensures Word(m', process, address, size) == Word(m, process, address, size)
    decreases size
  {
    if size > 0 { WordSame(m, m', process, address + 1, size - 1); }
  }

  lemma StoreSafe(w: World, storer: nat, process: nat, address: nat, size: nat, memory: Memory, w': World, i: nat)
    requires Inv(w) && i < |w.kernel.threads|
    requires Allowed(w, Store(storer, process, address, size, memory))
    requires Step(w, Store(storer, process, address, size, memory), w')
    ensures Safe(w', i)
  {
    var t := w.kernel.threads[i];
    assert Safe(w, i);
    if Parked(t) {
      if t.process == process && t.address == address {
        assert Debt(storer, t.process, t.address) in w'.debts;
      } else {
        WordSame(w.memory, memory, t.process, t.address, w.asks[i].size);
        if s :| Debt(s, t.process, t.address) in w.debts { assert Debt(s, t.process, t.address) in w'.debts; }
      }
    }
  }

  lemma StoreChecked(w: World, storer: nat, process: nat, address: nat, size: nat, memory: Memory, w': World)
    requires Inv(w)
    requires Allowed(w, Store(storer, process, address, size, memory))
    requires Step(w, Store(storer, process, address, size, memory), w')
    ensures CheckedSafe(w')
  {
    if w.lock.Checking? {
      var c := w.lock.call;
      if w.lock.process == process && c.address == address {
        assert Debt(storer, process, address) in w'.debts;
      } else {
        WordSame(w.memory, memory, w.lock.process, c.address, c.size);
        if s :| Debt(s, w.lock.process, c.address) in w.debts { assert Debt(s, w.lock.process, c.address) in w'.debts; }
      }
    }
  }

  /** A wake for all leaves nobody parked on the address. */
  lemma AllWoken(k: Kernel, k': Kernel, z: set<nat>, process: nat, address: nat, i: nat)
    requires |k.threads| <= MAX_THREADS && WokeOldest(k, k', z, process, address, WAKE_ALL) && i < |k.threads|
    requires ParkedOn(k.threads[i], process, address)
    ensures i in z
  {
    var all := ParkedSet(k.threads, process, address);
    AtMost(all, |k.threads|);
    if z != all { Smaller(z, all); }
  }

  lemma {:induction false} AtMost(s: set<nat>, n: nat)
    requires forall x :: x in s ==> x < n
    ensures |s| <= n
  {
    if n == 0 {
      assert s == {};
    } else {
      AtMost(s - {n - 1}, n - 1);
      assert |s| <= |s - {n - 1}| + 1;
    }
  }

  lemma WakeSafe(w: World, w': World, z: set<nat>, result: int)
    requires Inv(w) && w'.kernel.tickets == w.kernel.tickets
    requires WokeThese(w.kernel.threads, w'.kernel.threads, z, result)
    requires w' == w.(kernel := w'.kernel) && w.lock.Free?
    ensures Inv(w')
  {
    WakeGood(w.kernel, w'.kernel, z, result);
    forall i | 0 <= i < |w'.kernel.threads|
      ensures Safe(w', i)
    {
      assert Safe(w, i);
    }
  }

  lemma WakeAllSafe(w: World, w': World, z: set<nat>, storer: nat, process: nat, address: nat)
    requires Inv(w) && w.lock.Free?
    requires w' == w.(kernel := w'.kernel, debts := w.debts - {Debt(storer, process, address)})
    requires WokeOldest(w.kernel, w'.kernel, z, process, address, WAKE_ALL)
    ensures Inv(w')
  {
    WakeGood(w.kernel, w'.kernel, z, 0);
    forall i | 0 <= i < |w'.kernel.threads|
      ensures Safe(w', i)
    {
      assert Safe(w, i);
      var t := w.kernel.threads[i];
      if ParkedOn(t, process, address) { AllWoken(w.kernel, w'.kernel, z, process, address, i); }
      if s :| Debt(s, t.process, t.address) in w.debts && i !in z && Parked(t) {
        assert Debt(s, t.process, t.address) in w'.debts;
      }
    }
  }

  lemma LoadSafe(w: World, a: Action, w': World)
    requires Inv(w) && a.Load? && Allowed(w, a) && Step(w, a, w')
    ensures Inv(w')
  {
    forall i | 0 <= i < |w'.kernel.threads|
      ensures Safe(w', i)
    {
      assert Safe(w, i);
    }
  }

  /** Parking on the value loaded is safe: whoever changed the word since still owes the wake, which has to
      wait for the lock. */
  lemma DecideSafe(w: World, w': World)
    requires Inv(w) && Allowed(w, Decide) && Step(w, Decide, w')
    ensures Inv(w')
  {
    var c := w.lock.call;
    if w'.kernel != w.kernel { ParkGood(w.kernel, w.lock.thread, c.address, c.deadline); }
    forall i | 0 <= i < |w'.kernel.threads|
      ensures Safe(w', i)
    {
      assert Safe(w, i);
    }
  }

  lemma StepSafe(w: World, a: Action, w': World)
    requires Inv(w) && Allowed(w, a) && Step(w, a, w')
    ensures Inv(w')
  {
    match a {
      case Store(storer, process, address, size, memory) =>
        forall i | 0 <= i < |w'.kernel.threads|
          ensures Safe(w', i)
        {
          StoreSafe(w, storer, process, address, size, memory, w', i);
        }
        StoreChecked(w, storer, process, address, size, memory, w');
      case Load(_, _) => LoadSafe(w, a, w');
      case Decide => DecideSafe(w, w');
      case WakeSome(process, address, count) =>
        var z :| WokeOldest(w.kernel, w'.kernel, z, process, address, count);
        WakeSafe(w, w', z, 0);
      case WakeAll(storer, process, address) =>
        var z :| WokeOldest(w.kernel, w'.kernel, z, process, address, WAKE_ALL);
        WakeAllSafe(w, w', z, storer, process, address);
      case Tick(tick) =>
        var z := set i: nat | i < |w.kernel.threads| && Expired(w.kernel.threads[i], tick);
        WakeSafe(w, w', z, TIMED_OUT);
      case Leave(i, after) =>
        forall j | 0 <= j < |w'.kernel.threads| ensures Safe(w', j) { assert Safe(w, j); }
    }
  }

  ghost predicate Run(worlds: seq<World>, actions: seq<Action>) {
    && |worlds| == |actions| + 1
    && forall i :: 0 <= i < |actions| ==> Allowed(worlds[i], actions[i]) && Step(worlds[i], actions[i], worlds[i + 1])
  }

  /** A world in which nobody waits yet. */
  predicate Initial(w: World) {
    w.lock.Free? && |w.kernel.threads| <= MAX_THREADS && forall i :: 0 <= i < |w.kernel.threads| ==>
      !Parked(w.kernel.threads[i])
  }

  lemma {:induction false} RunSafe(worlds: seq<World>, actions: seq<Action>, n: nat)
    requires Run(worlds, actions) && Initial(worlds[0]) && n <= |actions|
    ensures Inv(worlds[n])
  {
    if n > 0 {
      RunSafe(worlds, actions, n - 1);
      StepSafe(worlds[n - 1], actions[n - 1], worlds[n]);
    }
  }

  /** No wake is lost, in any interleaving: once every store has been announced by its storer, each
      thread still parked sleeps on a word that holds the value it went to sleep on. */
  lemma NoLostWake(worlds: seq<World>, actions: seq<Action>, n: nat, i: nat)
    requires Run(worlds, actions) && Initial(worlds[0]) && n <= |actions| && i < |worlds[n].kernel.threads|
    requires Parked(worlds[n].kernel.threads[i])
    requires forall s :: Debt(s, worlds[n].kernel.threads[i].process,
                              worlds[n].kernel.threads[i].address) !in worlds[n].debts
    ensures i in worlds[n].asks
    ensures var t := worlds[n].kernel.threads[i];
            Word(worlds[n].memory, t.process, t.address, worlds[n].asks[i].size) == worlds[n].asks[i].expected
  {
    RunSafe(worlds, actions, n);
    assert Safe(worlds[n], i);
  }
}
