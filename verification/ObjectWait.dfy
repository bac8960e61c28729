/** Waiting on kernel objects: a wait for one of several targets or for all of
    them, and the signals it takes from them. */
module ObjectWait {

  const MAX_HANDLES := 16

  datatype Kind = Semaphore(max: nat) | Event | Timer | ThreadEnd | Stream

  /** `readable` stands for the poll of a target that carries no signal of its own. */
  datatype Obj = Obj(kind: Kind, manual: bool, signals: int, readable: bool)

  predicate Waitable(o: Obj) { !o.kind.Stream? }

  predicate Ready(o: Obj) { if Waitable(o) then o.signals > 0 else o.readable }

  /** A wait takes a signal from this object. */
  predicate Takes(o: Obj) { Waitable(o) && !o.manual }

  /** The object after `n` waits. */
  function After(o: Obj, n: nat): Obj { if Takes(o) then o.(signals := o.signals - n) else o }

  predicate Handles(objects: seq<Obj>, handles: seq<nat>) { forall i :: 0 <= i < |handles| ==> handles[i] < |objects| }

  predicate AllReady(objects: seq<Obj>, handles: seq<nat>)
    requires Handles(objects, handles)
  {
    forall i :: 0 <= i < |handles| ==> Ready(objects[handles[i]])
  }

  /** How often an object is named. */
  function Times(handles: seq<nat>, x: nat): nat { multiset(handles)[x] }

  /** Every object has as many signals as the handles ask of it. */
  predicate Enough(objects: seq<Obj>, handles: seq<nat>)
    requires Handles(objects, handles)
  {
    forall i :: 0 <= i < |handles| && Takes(objects[handles[i]]) ==>
      Times(handles, handles[i]) <= objects[handles[i]].signals
  }

  /** One signal is taken for every handle. */
  function TakenBy(objects: seq<Obj>, handles: seq<nat>): seq<Obj> {
    seq(|objects|, x requires 0 <= x < |objects| => After(objects[x], Times(handles, x)))
  }

  datatype Outcome = Refused | NotReady | Done(index: nat) | Broken

  /** The targets are pairwise different. */
  predicate Different(handles: seq<nat>) { forall i, j :: 0 <= i < j < |handles| ==> handles[i] != handles[j] }

  lemma TimesNext(handles: seq<nat>, i: nat)
    requires i < |handles|
    ensures forall x: nat :: Times(handles[..i + 1], x) == Times(handles[..i], x) + if x == handles[i] then 1 else 0
  {
    assert handles[..i + 1] == handles[..i] + [handles[i]];
  }

  lemma {:induction false} TimesGrow(handles: seq<nat>, i: nat, j: nat, x: nat)
    requires i <= j <= |handles|
    ensures Times(handles[..i], x) <= Times(handles[..j], x)
    decreases j - i
  {
    if i < j {
      TimesGrow(handles, i, j - 1, x);
      TimesNext(handles, j - 1);
    }
  }

  /** Different targets are named once each, so being ready is enough. */
  lemma DifferentIsEnough(objects: seq<Obj>, handles: seq<nat>)
    requires Handles(objects, handles) && Different(handles) && AllReady(objects, handles)
    ensures Enough(objects, handles)
  {
    forall i | 0 <= i < |handles|
      ensures Times(handles, handles[i]) <= 1
    {
      NamedOnce(handles, |handles|, i);
      assert handles[..|handles|] == handles;
    }
  }

  lemma {:induction false} NamedOnce(handles: seq<nat>, n: nat, i: nat)
    requires Different(handles) && n <= |handles| && i < |handles|
    ensures Times(handles[..n], handles[i]) == if i < n then 1 else 0
  {
    if n > 0 {
      NamedOnce(handles, n - 1, i);
      TimesNext(handles, n - 1);
    }
  }

  /** The first target that is ready, if any. */
  function FirstReady(objects: seq<Obj>, handles: seq<nat>): (i: nat)
    requires Handles(objects, handles)
    ensures i <= |handles| && (i < |handles| ==> Ready(objects[handles[i]]))
    ensures forall j :: 0 <= j < i ==> !Ready(objects[handles[j]])
  {
    if handles == [] then 0 else
    var i := FirstReady(objects, handles[..|handles| - 1]);
    if i < |handles| - 1 then i else if Ready(objects[handles[|handles| - 1]]) then |handles| - 1 else |handles|
  }

  /** What a wait should answer. */
  function Expected(objects: seq<Obj>, handles: seq<nat>, waitAll: bool): Outcome
    requires Handles(objects, handles)
  {
    if |handles| == 0 || |handles| > MAX_HANDLES then Refused
    else if waitAll
      then (if !AllReady(objects, handles) then NotReady else if Enough(objects, handles) then Done(0) else Broken)
    else if FirstReady(objects, handles) < |handles| then Done(FirstReady(objects, handles)) else NotReady
  }

  /** Signals were taken from the targets `taken`, from each no more than it had; nothing else changed. */
  ghost predicate Served(before: seq<Obj>, after: seq<Obj>, taken: seq<nat>) {
    && after == TakenBy(before, taken)
    && forall x: nat :: x < |before| && Takes(before[x]) && Times(taken, x) > 0 ==> Times(taken, x) <= before[x].signals
  }

  /** The targets a wait takes from: none, the first ready one, all of them, or the first few of a wait for
      all that runs out of signals. */
  predicate TakenFor(objects: seq<Obj>, handles: seq<nat>, waitAll: bool, taken: seq<nat>)
    requires Handles(objects, handles)
  {
    match Expected(objects, handles, waitAll)
    case Refused => taken == []
    case NotReady => taken == []
    case Done(index) => taken == if waitAll then handles else [handles[index]]
    case Broken => 0 < |taken| < |handles| && taken == handles[..|taken|]
  }

  class Objects {
    const objects: array<Obj>

    constructor (objects: array<Obj>)
      ensures this.objects == objects
    {
      this.objects := objects;
    }

    ghost function Value(): seq<Obj>
      reads this, objects
    {
      objects[..]
    }

    method TargetReady(x: nat) returns (ready: bool)
      requires x < objects.Length
      ensures ready == Ready(objects[x])
    {
      ready := if Waitable(objects[x]) then objects[x].signals > 0 else objects[x].readable;
    }

    method AcquireTarget(x: nat) returns (ok: bool)
      requires x < objects.Length
      modifies objects
      ensures ok == Ready(old(objects[x]))
      ensures Value() == if ok then old(Value())[x := After(old(objects[x]), 1)] else old(Value())
    {
      ok := TargetReady(x);
      if ok && Waitable(objects[x]) && !objects[x].manual {
        objects[x] := objects[x].(signals := objects[x].signals - 1);
      }
    }

    method CanComplete(handles: seq<nat>, waitAll: bool) returns (can: bool)
      requires Handles(Value(), handles) && |handles| > 0
      ensures can == if waitAll then AllReady(Value(), handles) else FirstReady(Value(), handles) < |handles|
    {
      if waitAll {
        for i := 0 to |handles|
          invariant forall j :: 0 <= j < i ==> Ready(objects[handles[j]])
        {
          var ready := TargetReady(handles[i]);
          if !ready {
            return false;
          }
        }
        return true;
      }
      for i := 0 to |handles|
        invariant forall j :: 0 <= j < i ==> !Ready(objects[handles[j]])
      {
        var ready := TargetReady(handles[i]);
        if ready {
          return true;
        }
      }
      return false;
    }

    /** Takes from one target after the other. */
    method ConsumeAll(handles: seq<nat>) returns (taken: nat)
      requires Handles(Value(), handles) && AllReady(Value(), handles)
      modifies objects
      ensures taken <= |handles| && (handles != [] ==> taken > 0) && Served(old(Value()), Value(), handles[..taken])
      ensures taken == |handles| <==> Enough(old(Value()), handles)
    {
      ghost var before := Value();
      hide Served, EnoughFor, Enough, Times;
      taken := 0;
      NothingAsked(before, handles);
      NothingTaken(before);
      while taken < |handles|
        invariant 0 <= taken <= |handles| && Value() == TakenBy(before, handles[..taken])
        invariant EnoughFor(before, handles, taken)
        decreases |handles| - taken
      {
        var ok := AcquireTarget(handles[taken]);
        if !ok {
          PrefixServed(before, handles, taken);
          NotEnough(before, handles, taken);
          return;
        }
        TakenNext(before, handles, taken);
        taken := taken + 1;
      }
      assert handles[..taken] == handles;
      PrefixServed(before, handles, taken);
      AllAsked(before, handles);
    }

    method ConsumeAny(handles: seq<nat>) returns (index: nat)
      requires Handles(Value(), handles)
      modifies objects
      ensures index == FirstReady(old(Value()), handles)
      ensures Value() == if index < |handles|
                then old(Value())[handles[index] := After(old(Value())[handles[index]], 1)] else old(Value())
    {
      ghost var before := Value();
      index := 0;
      while index < |handles|
        invariant 0 <= index <= |handles| && Value() == before
        invariant forall j :: 0 <= j < index ==> !Ready(before[handles[j]])
        decreases |handles| - index
      {
        var ok := AcquireTarget(handles[index]);
        if ok {
          IsFirst(before, handles, index);
          return;
        }
        index := index + 1;
      }
      IsFirst(before, handles, index);
    }

    /** Takes the signals of a wait that can be completed now; `taken` names the targets it took from. A
        wait for all of them is all or nothing exactly when some target is not ready or there are enough
        signals for every handle. */
    method TryConsume(handles: seq<nat>, waitAll: bool) returns (outcome: Outcome, ghost taken: seq<nat>)
      requires Handles(Value(), handles)
      modifies objects
      ensures outcome == Expected(old(Value()), handles, waitAll) && Served(old(Value()), Value(), taken)
      ensures TakenFor(old(Value()), handles, waitAll, taken)
    {
      taken := [];
      NothingTaken(Value());
      if |handles| == 0 || |handles| > MAX_HANDLES {
        return Refused, taken;
      }
      var can := CanComplete(handles, waitAll);
      if !can {
        return NotReady, taken;
      }
      ghost var before := Value();
      if waitAll {
        var count := ConsumeAll(handles);
        assert handles[..|handles|] == handles;
        return if count < |handles| then Broken else Done(0), handles[..count];
      }
      var index := ConsumeAny(handles);
      TakenOne(before, handles[index]);
      return Done(index), [handles[index]];
    }

    /** Adds to a semaphore's count, never beyond its maximum. */
    method ReleaseSemaphore(x: nat, count: int) returns (ok: bool)
      requires x < objects.Length && objects[x].kind.Semaphore?
      modifies objects
      ensures ok == (0 < count && old(objects[x]).signals + count <= old(objects[x]).kind.max)
      ensures Value() == if ok then old(Value())[x := old(objects[x]).(signals := old(objects[x]).signals + count)]
                else old(Value())
    {
      if count <= 0 || count > objects[x].kind.max - objects[x].signals {
        return false;
      }
      objects[x] := objects[x].(signals := objects[x].signals + count);
      return true;
    }
  }

  lemma NothingTaken(objects: seq<Obj>)
    ensures TakenBy(objects, []) == objects
  {
  }

  lemma TakenOne(objects: seq<Obj>, x: nat)
    requires x < |objects|
    ensures objects[x := After(objects[x], 1)] == TakenBy(objects, [x])
  {
  }

  /** The first `n` handles could all be served. */
  predicate EnoughFor(objects: seq<Obj>, handles: seq<nat>, n: nat)
    requires Handles(objects, handles) && n <= |handles|
  {
    forall i :: 0 <= i < |handles| && Takes(objects[handles[i]]) && Times(handles[..n], handles[i]) > 0 ==>
      Times(handles[..n], handles[i]) <= objects[handles[i]].signals
  }

  lemma NothingAsked(objects: seq<Obj>, handles: seq<nat>)
    requires Handles(objects, handles)
    ensures EnoughFor(objects, handles, 0)
  {
    assert handles[..0] == [];
  }

  lemma AllAsked(objects: seq<Obj>, handles: seq<nat>)
    requires Handles(objects, handles) && EnoughFor(objects, handles, |handles|)
    ensures Enough(objects, handles)
  {
    assert handles[..|handles|] == handles;
  }

  /** One more target is served. */
  lemma TakenNext(objects: seq<Obj>, handles: seq<nat>, n: nat)
    requires Handles(objects, handles) && n < |handles| && EnoughFor(objects, handles, n)
    requires Ready(TakenBy(objects, handles[..n])[handles[n]])
    ensures EnoughFor(objects, handles, n + 1)
    ensures TakenBy(objects,
                    handles[..n])[handles[n] := After(TakenBy(objects, handles[..n])[handles[n]],
                                                      1)] == TakenBy(objects, handles[..n + 1])
  {
    TimesNext(handles, n);
    hide Times;
  }

  lemma {:induction false} Named(handles: seq<nat>, n: nat, x: nat) returns (i: nat)
    requires n <= |handles| && Times(handles[..n], x) > 0
    ensures i < n && handles[i] == x
  {
    TimesNext(handles, n - 1);
    if handles[n - 1] == x { i := n - 1; } else { i := Named(handles, n - 1, x); }
  }

  lemma PrefixServed(objects: seq<Obj>, handles: seq<nat>, n: nat)
    requires Handles(objects, handles) && n <= |handles| && EnoughFor(objects, handles, n)
    ensures Served(objects, TakenBy(objects, handles[..n]), handles[..n])
  {
    forall x: nat | x < |objects| && Takes(objects[x]) && Times(handles[..n], x) > 0
      ensures Times(handles[..n], x) <= objects[x].signals
    {
      var i := Named(handles, n, x);
      assert Takes(objects[handles[i]]);
    }
  }

  lemma NotEnough(objects: seq<Obj>, handles: seq<nat>, n: nat)
    requires Handles(objects, handles) && n < |handles| && AllReady(objects, handles)
    requires !Ready(After(objects[handles[n]], Times(handles[..n], handles[n])))
    ensures !Enough(objects, handles)
  {
    TimesNext(handles, n);
    TimesGrow(handles, n + 1, |handles|, handles[n]);
    assert handles[..|handles|] == handles;
  }

  lemma IsFirst(objects: seq<Obj>, handles: seq<nat>, i: nat)
    requires Handles(objects, handles) && i <= |handles| && (i < |handles| ==> Ready(objects[handles[i]]))
    requires forall j :: 0 <= j < i ==> !Ready(objects[handles[j]])
    ensures i == FirstReady(objects, handles)
  {
  }

  /** A wait for the same event twice takes its one signal and fails. */
  lemma TwiceTheSame()
    ensures var objects := [Obj(Event, false, 1, false)];
            AllReady(objects, [0, 0]) && !Enough(objects, [0, 0]) && TakenBy(objects, [0])[0].signals == 0
  {
    var objects := [Obj(Event, false, 1, false)];
    assert Takes(objects[[0, 0][0]]) && Times([0, 0], 0) == 2;
    assert [0, 0][0] == 0;
  }

  // ----- signals over whole runs

  datatype Action =
    | Consume(handles: seq<nat>, waitAll: bool)
    | Release(semaphore: nat, count: int)
    | Signal(target: nat)
    | Reset(target: nat)

  /** The objects, and for each how many signals were released to it and taken from it by waits. */
  datatype World = World(objects: seq<Obj>, released: seq<nat>, acquired: seq<nat>)

  predicate Allowed(w: World, a: Action) {
    match a
    case Consume(handles, _) => Handles(w.objects, handles)
    case Release(x, _) => x < |w.objects| && w.objects[x].kind.Semaphore?
    case Signal(x) => x < |w.objects| && !w.objects[x].kind.Semaphore? && Waitable(w.objects[x])
    case Reset(x) => x < |w.objects| && !w.objects[x].kind.Semaphore? && Waitable(w.objects[x])
  }

  predicate Sized(w: World) { |w.released| == |w.objects| == |w.acquired| }

  ghost predicate Step(w: World, a: Action, w': World)
    requires Sized(w) && Allowed(w, a)
  {
    match a
    case Consume(handles, waitAll) =>
      exists taken :: TakenFor(w.objects, handles, waitAll, taken) && Served(w.objects, w'.objects, taken)
        && w' == World(w'.objects, w.released,
                       seq(|w.acquired|, x requires 0 <= x < |w.acquired| => w.acquired[x] + Times(taken, x)))
    case Release(x, n) =>
      var o := w.objects[x];
      if 0 < n && o.signals + n <= o.kind.max
      then w' == w.(objects := w.objects[x := o.(signals := o.signals + n)],
                    released := w.released[x := w.released[x] + n])
      else w' == w
    case Signal(x) => w' == w.(objects := w.objects[x := w.objects[x].(signals := 1)])
    case Reset(x) => w' == w.(objects := w.objects[x := w.objects[x].(signals := 0)])
  }

  /** Every count is what was there at first, plus what was released, minus what waits took, within bounds. */
  predicate Conserved(first: seq<Obj>, w: World, x: nat)
    requires Sized(w) && |first| == |w.objects| && x < |first|
  {
    var o := w.objects[x];
    && o.kind == first[x].kind && o.manual == first[x].manual
    && (o.kind.Semaphore? && !o.manual ==>
           0 <= o.signals <= o.kind.max && o.signals == first[x].signals + w.released[x] - w.acquired[x])
    && (!o.kind.Semaphore? && Waitable(o) ==> 0 <= o.signals <= 1)
  }

  ghost predicate Inv(first: seq<Obj>, w: World) {
    Sized(w) && |first| == |w.objects| && forall x :: 0 <= x < |first| ==> Conserved(first, w, x)
  }

  lemma StepConserves(first: seq<Obj>, w: World, a: Action, w': World)
    requires Inv(first, w) && Allowed(w, a) && Step(w, a, w')
    ensures Inv(first, w')
  {
    match a {
      case Consume(handles, waitAll) =>
        var taken :| TakenFor(w.objects, handles, waitAll, taken) && Served(w.objects, w'.objects, taken)
          && w' == World(w'.objects, w.released,
                         seq(|w.acquired|, x requires 0 <= x < |w.acquired| => w.acquired[x] + Times(taken, x)));
        forall x | 0 <= x < |first| ensures Conserved(first, w', x) { assert Conserved(first, w, x); }
      case _ => forall x | 0 <= x < |first| ensures Conserved(first, w', x) { assert Conserved(first, w, x); }
    }
  }

  ghost predicate Run(worlds: seq<World>, actions: seq<Action>) {
    && |worlds| == |actions| + 1
    && forall n :: 0 <= n < |actions| ==>
         Sized(worlds[n]) && Allowed(worlds[n], actions[n]) && Step(worlds[n], actions[n], worlds[n + 1])
  }

  /** In every run of waits and releases a semaphore's count stays between 0 and its maximum and equals
      its first count plus what was released minus what was acquired. */
  lemma {:induction false} SignalsConserved(worlds: seq<World>, actions: seq<Action>, n: nat)
    requires Run(worlds, actions) && Inv(worlds[0].objects, worlds[0]) && n <= |actions|
    ensures Inv(worlds[0].objects, worlds[n])
  {
    if n > 0 {
      SignalsConserved(worlds, actions, n - 1);
      StepConserves(worlds[0].objects, worlds[n - 1], actions[n - 1], worlds[n]);
    }
  }
}
