/**
 The event-slot pool and the deferred-callback queue of the epoll scheduler.

 A fixed pool of slots is handed out as (index, 16-bit generation) handles. Freeing a slot
 is delayed until the next deferred pass. The first half of the module is the step
 semantics on values and what holds over every run; the second half is the class that
 updates the pool in place and is proved to take exactly those steps.
 */
module Scheduler {

  const MAX_EVENT_SLOTS := 256
  const UINT16 := 0x1_0000
  const UINT32 := 0x1_0000_0000
  /** Generations cycle through 1 .. 65535. */
  const CYCLE := 65535

  /** A std::function: possibly empty. */
  datatype Callback = Empty | Callable(id: nat)

  /** A handle is two 16-bit fields; index 0xFFFF marks an invalid one. */
  datatype Handle = Handle(index: nat, generation: nat) {
    predicate Valid() { index != 0xFFFF }
  }

  const INVALID := Handle(0xFFFF, 0)

  datatype Slot = Slot(callback: Callback, fd: int, generation: nat, inUse: bool, pendingFree: bool) {
    predicate Free() { !inUse && !pendingFree }
  }

  const FRESH_SLOT := Slot(Empty, -1, 0, false, false)

  datatype Pool = Pool(slots: seq<Slot>, epollCount: int)

  const INITIAL := Pool(seq(MAX_EVENT_SLOTS, _ => FRESH_SLOT), 0)

  // ---------------------------------------------------------------- handles

  /** (generation << 16) | index; for a 16-bit index the OR is a sum. */
  function EncodeHandle(h: Handle): nat {
    h.generation * UINT16 + h.index
  }

  function DecodeHandle(v: nat): Handle {
    Handle(v % UINT16, v / UINT16 % UINT16)
  }

  /** `event.data.fd`: the low 32 bits of the event word read as a signed int. */
  function EventFd(v: nat): int {
    var low := v % UINT32;
    if low < UINT32 / 2 then low else low - UINT32
  }

  lemma {:induction false} HandleRoundTrip(h: Handle)
    requires h.index < UINT16 && h.generation < UINT16
    ensures DecodeHandle(EncodeHandle(h)) == h
    ensures EncodeHandle(h) < UINT32
  {
    assert EncodeHandle(h) / UINT16 == h.generation;
  }

  /** A handle the pool can issue has an index below 256 and a non-zero generation. */
  predicate Issuable(h: Handle) {
    h.index < MAX_EVENT_SLOTS && 1 <= h.generation < UINT16
  }

  /** An interrupt descriptor that some handle's word can be taken for. */
  predicate Clashes(interruptFd: nat) { interruptFd >= UINT16 && interruptFd % UINT16 < MAX_EVENT_SLOTS }

  /**
   The word of some issuable handle is taken for the interrupt event exactly when the
   interrupt descriptor is at least 65536 and its low 16 bits are a slot index; so a
   descriptor below 65536 never clashes.
   */
  lemma InterruptClash(interruptFd: nat)
    requires interruptFd < UINT32 / 2
    ensures (exists h :: Issuable(h) && EventFd(EncodeHandle(h)) == interruptFd)
       <==> Clashes(interruptFd)
  {
    if Clashes(interruptFd) {
      var h := Handle(interruptFd % UINT16, interruptFd / UINT16);
      assert Issuable(h) && EncodeHandle(h) == interruptFd;
    }
    forall h | Issuable(h) && EventFd(EncodeHandle(h)) == interruptFd
      ensures Clashes(interruptFd)
    {
      HandleRoundTrip(h);
      assert EncodeHandle(h) % UINT16 == h.index;
    }
  }

  // ------------------------------------------------------------- operations

  /** `get_slot`: the slot a handle resolves to, if any. */
  predicate Resolves(slots: seq<Slot>, h: Handle) {
    h.Valid() && h.index < |slots| && slots[h.index].inUse && slots[h.index].generation == h.generation
  }

  /** First-fit search of `register_fd`; |slots| when the pool is exhausted. */
  function FirstFree(slots: seq<Slot>, from: nat): (r: nat)
    requires from <= |slots|
    ensures from <= r <= |slots|
    ensures r < |slots| ==> slots[r].Free()
    ensures forall j :: from <= j < r ==> !slots[j].Free()
    decreases |slots| - from
  {
    if from == |slots| || slots[from].Free() then from else FirstFree(slots, from + 1)
  }

  function NextGeneration(g: nat): nat {
    var n := (g + 1) % UINT16;
    if n == 0 then 1 else n
  }

  /** `register_fd`; `added` is the verdict of epoll_ctl(ADD). */
  function Register(p: Pool, fd: int, callback: Callback, added: bool): (r: (Pool, Handle)) {
    var i := FirstFree(p.slots, 0);
    if i == |p.slots| then (p, INVALID)
    else
      var g := NextGeneration(p.slots[i].generation);
      if added then
        (Pool(p.slots[i := Slot(callback, fd, g, true, false)], p.epollCount + 1), Handle(i, g))
      else
        (p.(slots := p.slots[i := Slot(Empty, -1, g, false, false)]), INVALID)
  }

  /** `unregister`; the verdict of epoll_ctl(DEL) is only logged. */
  function Unregister(p: Pool, h: Handle): Pool {
    if Resolves(p.slots, h) then
      p.(slots := p.slots[h.index := p.slots[h.index].(inUse := false, pendingFree := true)],
         epollCount := p.epollCount - 1)
    else p
  }

  function UpdateCallback(p: Pool, h: Handle, callback: Callback): Pool {
    if Resolves(p.slots, h) then
      p.(slots := p.slots[h.index := p.slots[h.index].(callback := callback)])
    else p
  }

  /** The callback that `process_event` invokes for an event word; Empty when none is. */
  function Dispatch(p: Pool, interruptFd: int, v: nat): Callback {
    if EventFd(v) == interruptFd then Empty
    else
      var h := DecodeHandle(v);
      if Resolves(p.slots, h) then p.slots[h.index].callback else Empty
  }

  function Release(s: Slot): Slot {
    if s.pendingFree then Slot(Empty, -1, s.generation, s.inUse, false) else s
  }

  /** What the start of `process_deferred` does to the pool. */
  function ReleasePending(p: Pool): Pool {
    p.(slots := seq(|p.slots|, i requires 0 <= i < |p.slots| => Release(p.slots[i])))
  }

  // ------------------------------------------------------------------- runs

  /**
   One call of the public interface. Callbacks run user code between the calls, so a run is a
   flat sequence of these: whatever a callback does appears as the steps after it.
   */
  datatype Step =
    | DoRegister(fd: int, callback: Callback, added: bool)
    | DoUnregister(handle: Handle)
    | DoUpdateCallback(handle: Handle, callback: Callback)
    | DoDefer(callback: Callback)
    | DoBeginDeferred
    | DoRunNext

  /** A successful registration: the handle issued and how often its slot had been taken by then. */
  datatype Registration = Registration(handle: Handle, take: nat)

  /** What a live registration is entitled to. */
  datatype Binding = Binding(fd: int, callback: Callback)

  /**
   The pool with the bookkeeping of a perfect scheduler beside it: how often each slot was
   taken, every registration ever made, and which of them are still live.
   */
  datatype World = World(pool: Pool, takes: seq<nat>, issued: seq<Registration>, live: map<nat, Binding>)

  const START := World(INITIAL, seq(MAX_EVENT_SLOTS, _ => 0), [], map[])

  /** The live registration a handle names, by the perfect scheduler's books. */
  predicate Names(w: World, k: nat, h: Handle) {
    k in w.live && k < |w.issued| && w.issued[k].handle == h
  }

  predicate Sized(w: World) { |w.pool.slots| == |w.takes| == MAX_EVENT_SLOTS }

  function Apply(w: World, s: Step): (w': World)
    requires Sized(w)
    ensures Sized(w')
  {
    match s
    case DoRegister(fd, callback, added) =>
      var (p, h) := Register(w.pool, fd, callback, added);
      var i := FirstFree(w.pool.slots, 0);
      if i == MAX_EVENT_SLOTS then w
      else
        var taken := w.(pool := p, takes := w.takes[i := w.takes[i] + 1]);
        if h == INVALID then taken
        else
          taken.(issued := w.issued + [Registration(h, w.takes[i] + 1)],
                 live := w.live[|w.issued| := Binding(fd, callback)])
    case DoUnregister(h) =>
      w.(pool := Unregister(w.pool, h),
         live := map k | k in w.live && !Names(w, k, h) :: w.live[k])
    case DoUpdateCallback(h, callback) =>
      w.(pool := UpdateCallback(w.pool, h, callback),
         live := map k | k in w.live :: if Names(w, k, h) then w.live[k].(callback := callback) else w.live[k])
    case DoDefer(_) => w
    case DoBeginDeferred => w.(pool := ReleasePending(w.pool))
    case DoRunNext => w
  }

  function Run(w: World, steps: seq<Step>): (w': World)
    requires Sized(w)
    ensures Sized(w')
    decreases |steps|
  {
    if steps == [] then w else Run(Apply(w, steps[0]), steps[1..])
  }

  // -------------------------------------------------------- handle safety

  function GenerationAfter(take: nat): nat {
    if take == 0 then 0 else (take - 1) % CYCLE + 1
  }

  function CountInUse(slots: seq<Slot>): nat {
    if slots == [] then 0 else CountInUse(slots[1..]) + (if slots[0].inUse then 1 else 0)
  }

  lemma {:induction false} CountUpdate(slots: seq<Slot>, i: nat, s: Slot)
    requires i < |slots|
    ensures CountInUse(slots[i := s])
         == CountInUse(slots) + (if s.inUse then 1 else 0) - (if slots[i].inUse then 1 else 0)
  {
    if i == 0 {
      assert slots[i := s][1..] == slots[1..];
    } else {
      assert slots[i := s][1..] == slots[1..][i - 1 := s];
      CountUpdate(slots[1..], i - 1, s);
    }
  }

  lemma {:induction false} CountRelease(slots: seq<Slot>, after: seq<Slot>)
    requires |after| == |slots| && forall i :: 0 <= i < |slots| ==> after[i].inUse == slots[i].inUse
    ensures CountInUse(after) == CountInUse(slots)
  {
    if slots != [] {
      CountRelease(slots[1..], after[1..]);
    }
  }

  /** What every step keeps of the pool itself. */
  ghost predicate PoolInvariant(w: World) {
    && |w.pool.slots| == |w.takes| == MAX_EVENT_SLOTS
    && w.pool.epollCount == CountInUse(w.pool.slots)
    && forall i :: 0 <= i < MAX_EVENT_SLOTS ==>
         && w.pool.slots[i].generation == GenerationAfter(w.takes[i])
         && (w.pool.slots[i].inUse ==> w.takes[i] > 0 && !w.pool.slots[i].pendingFree)
  }

  /** A registration was given by a take of its slot, with that take's generation. */
  ghost predicate Recorded(r: Registration, takes: seq<nat>) {
    && r.handle.index < MAX_EVENT_SLOTS == |takes|
    && 0 < r.take <= takes[r.handle.index]
    && r.handle.generation == GenerationAfter(r.take)
  }

  /** A live registration owns its slot: in use under its own take, holding its own binding. */
  ghost predicate Owns(r: Registration, binding: Binding, slots: seq<Slot>, takes: seq<nat>) {
    && r.handle.index < |slots| == |takes|
    && slots[r.handle.index].inUse
    && r.take == takes[r.handle.index]
    && Binding(slots[r.handle.index].fd, slots[r.handle.index].callback) == binding
  }

  ghost predicate AllRecorded(issued: seq<Registration>, takes: seq<nat>) {
    forall k :: 0 <= k < |issued| ==> Recorded(issued[k], takes)
  }

  /** Later registrations of one slot belong to later takes. */
  ghost predicate TakesOrdered(issued: seq<Registration>) {
    forall j, k :: 0 <= j < k < |issued| && issued[j].handle.index == issued[k].handle.index
      ==> issued[j].take < issued[k].take
  }

  ghost predicate AllOwn(issued: seq<Registration>, live: map<nat, Binding>, slots: seq<Slot>, takes: seq<nat>) {
    forall k | k in live :: k < |issued| && Owns(issued[k], live[k], slots, takes)
  }

  ghost predicate Occupied(issued: seq<Registration>, live: map<nat, Binding>, i: int) {
    exists k :: k in live && k < |issued| && issued[k].handle.index == i
  }

  /** Every slot in use belongs to a live registration. */
  ghost predicate NoOrphans(issued: seq<Registration>, live: map<nat, Binding>, slots: seq<Slot>) {
    forall i :: 0 <= i < |slots| && slots[i].inUse ==> Occupied(issued, live, i)
  }

  ghost predicate Invariant(w: World) {
    && PoolInvariant(w)
    && AllRecorded(w.issued, w.takes)
    && TakesOrdered(w.issued)
    && AllOwn(w.issued, w.live, w.pool.slots, w.takes)
    && NoOrphans(w.issued, w.live, w.pool.slots)
  }

  lemma StartInvariant()
    ensures Invariant(START)
  {
    NoneInUse(START.pool.slots);
  }

  lemma {:induction false} NoneInUse(slots: seq<Slot>)
    requires forall i :: 0 <= i < |slots| ==> !slots[i].inUse
    ensures CountInUse(slots) == 0
  {
    if slots != [] {
      NoneInUse(slots[1..]);
    }
  }

  lemma NextGenerationIsNextTake(take: nat)
    ensures NextGeneration(GenerationAfter(take)) == GenerationAfter(take + 1)
  {
    if take > 0 && (take - 1) % CYCLE == CYCLE - 1 {
      assert take % CYCLE == 0;
    } else if take > 0 {
      assert take % CYCLE == (take - 1) % CYCLE + 1;
    }
  }

  lemma RegisterKeepsPool(w: World, fd: int, callback: Callback, added: bool)
    requires PoolInvariant(w)
    ensures PoolInvariant(Apply(w, DoRegister(fd, callback, added)))
  {
    var i := FirstFree(w.pool.slots, 0);
    if i < MAX_EVENT_SLOTS {
      CountUpdate(w.pool.slots, i, Apply(w, DoRegister(fd, callback, added)).pool.slots[i]);
      NextGenerationIsNextTake(w.takes[i]);
    }
  }

  lemma RegisterKeepsOwners(w: World, fd: int, callback: Callback, added: bool)
    requires Invariant(w)
    ensures var w' := Apply(w, DoRegister(fd, callback, added));
            AllOwn(w'.issued, w'.live, w'.pool.slots, w'.takes)
  {
    var w' := Apply(w, DoRegister(fd, callback, added));
    var i := FirstFree(w.pool.slots, 0);
    forall k | k in w'.live
      ensures k < |w'.issued| && Owns(w'.issued[k], w'.live[k], w'.pool.slots, w'.takes)
    {
      if k < |w.issued| {
        assert Owns(w.issued[k], w.live[k], w.pool.slots, w.takes);
        assert w.issued[k].handle.index != i;
      }
    }
  }

  lemma RegisterKeepsOccupants(w: World, fd: int, callback: Callback, added: bool)
    requires Invariant(w)
    ensures var w' := Apply(w, DoRegister(fd, callback, added));
            NoOrphans(w'.issued, w'.live, w'.pool.slots)
  {
    var w' := Apply(w, DoRegister(fd, callback, added));
    var i := FirstFree(w.pool.slots, 0);
    forall j | 0 <= j < |w'.pool.slots| && w'.pool.slots[j].inUse
      ensures Occupied(w'.issued, w'.live, j)
    {
      if j == i {
        var n := |w.issued|;
        assert n in w'.live && w'.issued[n].handle.index == i;
      } else {
        assert Occupied(w.issued, w.live, j);
        var k :| k in w.live && k < |w.issued| && w.issued[k].handle.index == j;
        assert k in w'.live && w'.issued[k].handle.index == j;
      }
    }
  }

  lemma RegisterKeeps(w: World, fd: int, callback: Callback, added: bool)
    requires Invariant(w)
    ensures Invariant(Apply(w, DoRegister(fd, callback, added)))
  {
    RegisterKeepsPool(w, fd, callback, added);
    RegisterKeepsOwners(w, fd, callback, added);
    RegisterKeepsOccupants(w, fd, callback, added);
    var i := FirstFree(w.pool.slots, 0);
    if i < MAX_EVENT_SLOTS {
      NextGenerationIsNextTake(w.takes[i]);
    }
  }

  /** A handle resolves exactly when the perfect scheduler's books name a live registration by it. */
  lemma ResolvedIsNamed(w: World, h: Handle)
    requires Invariant(w)
    ensures Resolves(w.pool.slots, h) <==> exists k :: Names(w, k, h)
  {
    if Resolves(w.pool.slots, h) {
      assert Occupied(w.issued, w.live, h.index);
      var k :| k in w.live && k < |w.issued| && w.issued[k].handle.index == h.index;
      assert Owns(w.issued[k], w.live[k], w.pool.slots, w.takes);
      assert Names(w, k, h);
    }
    if k: nat :| Names(w, k, h) {
      assert Recorded(w.issued[k], w.takes);
    }
  }

  /** Two live registrations never share a slot. */
  lemma OneOwnerPerSlot(w: World, j: nat, k: nat)
    requires Invariant(w) && j in w.live && k in w.live
    requires w.issued[j].handle.index == w.issued[k].handle.index
    ensures j == k
  {
    assert Owns(w.issued[j], w.live[j], w.pool.slots, w.takes);
    assert Owns(w.issued[k], w.live[k], w.pool.slots, w.takes);
  }

  /** A registration the books do not name by h keeps its slot when the slot of h changes. */
  lemma OtherOwnersKeep(w: World, h: Handle, slot: Slot, k: nat)
    requires Invariant(w) && Resolves(w.pool.slots, h)
    requires k in w.live && !Names(w, k, h)
    ensures Owns(w.issued[k], w.live[k], w.pool.slots[h.index := slot], w.takes)
  {
    ResolvedIsNamed(w, h);
    var n: nat :| Names(w, n, h);
    assert Owns(w.issued[k], w.live[k], w.pool.slots, w.takes);
    if w.issued[k].handle.index == h.index {
      OneOwnerPerSlot(w, k, n);
    }
  }

  lemma NothingNamed(w: World, h: Handle)
    requires Invariant(w) && !Resolves(w.pool.slots, h)
    ensures Apply(w, DoUnregister(h)) == w
    ensures forall callback :: Apply(w, DoUpdateCallback(h, callback)) == w
  {
    ResolvedIsNamed(w, h);
    NoneToDrop(w, h);
    forall callback ensures Apply(w, DoUpdateCallback(h, callback)) == w {
      NoneToUpdate(w, h, callback);
    }
  }

  lemma NoneToDrop(w: World, h: Handle)
    requires Sized(w) && !Resolves(w.pool.slots, h) && forall k :: !Names(w, k, h)
    ensures Apply(w, DoUnregister(h)) == w
  {
    assert Apply(w, DoUnregister(h)).live == w.live;
  }

  lemma NoneToUpdate(w: World, h: Handle, callback: Callback)
    requires Sized(w) && !Resolves(w.pool.slots, h) && forall k :: !Names(w, k, h)
    ensures Apply(w, DoUpdateCallback(h, callback)) == w
  {
    assert Apply(w, DoUpdateCallback(h, callback)).live == w.live;
  }

  lemma UnregisterKeepsOccupants(w: World, h: Handle)
    requires Invariant(w) && Resolves(w.pool.slots, h)
    ensures var w' := Apply(w, DoUnregister(h)); NoOrphans(w'.issued, w'.live, w'.pool.slots)
  {
    var w' := Apply(w, DoUnregister(h));
    forall j | 0 <= j < |w'.pool.slots| && w'.pool.slots[j].inUse
      ensures Occupied(w'.issued, w'.live, j)
    {
      assert Occupied(w.issued, w.live, j);
      var k :| k in w.live && k < |w.issued| && w.issued[k].handle.index == j;
      assert !Names(w, k, h);
      assert k in w'.live;
    }
  }

  lemma UnregisterKeeps(w: World, h: Handle)
    requires Invariant(w)
    ensures Invariant(Apply(w, DoUnregister(h)))
  {
    if Resolves(w.pool.slots, h) {
      var w' := Apply(w, DoUnregister(h));
      assert PoolInvariant(w') by { CountUpdate(w.pool.slots, h.index, w'.pool.slots[h.index]); }
      UnregisterKeepsOccupants(w, h);
      forall k | k in w'.live
        ensures Owns(w'.issued[k], w'.live[k], w'.pool.slots, w'.takes)
      {
        OtherOwnersKeep(w, h, w'.pool.slots[h.index], k);
      }
    } else {
      NothingNamed(w, h);
    }
  }

  lemma UpdateCallbackKeepsOwners(w: World, h: Handle, callback: Callback)
    requires Invariant(w) && Resolves(w.pool.slots, h)
    ensures var w' := Apply(w, DoUpdateCallback(h, callback));
            AllOwn(w'.issued, w'.live, w'.pool.slots, w'.takes)
  {
    var w' := Apply(w, DoUpdateCallback(h, callback));
    forall k | k in w'.live
      ensures Owns(w'.issued[k], w'.live[k], w'.pool.slots, w'.takes)
    {
      if Names(w, k, h) {
        assert Owns(w.issued[k], w.live[k], w.pool.slots, w.takes);
      } else {
        OtherOwnersKeep(w, h, w'.pool.slots[h.index], k);
      }
    }
  }

  lemma UpdateCallbackKeepsPool(w: World, h: Handle, callback: Callback)
    requires Invariant(w) && Resolves(w.pool.slots, h)
    ensures PoolInvariant(Apply(w, DoUpdateCallback(h, callback)))
  {
    CountUpdate(w.pool.slots, h.index, w.pool.slots[h.index].(callback := callback));
  }

  lemma UpdateCallbackKeeps(w: World, h: Handle, callback: Callback)
    requires Invariant(w)
    ensures Invariant(Apply(w, DoUpdateCallback(h, callback)))
  {
    if Resolves(w.pool.slots, h) {
      var w' := Apply(w, DoUpdateCallback(h, callback));
      UpdateCallbackKeepsPool(w, h, callback);
      UpdateCallbackKeepsOwners(w, h, callback);
      assert w'.live.Keys == w.live.Keys;
      SameOccupants(w, w');
    } else {
      NothingNamed(w, h);
    }
  }

  lemma SameOccupants(w: World, w': World)
    requires NoOrphans(w.issued, w.live, w.pool.slots)
    requires w'.issued == w.issued && w'.live.Keys == w.live.Keys
    requires |w'.pool.slots| == |w.pool.slots|
    requires forall i :: 0 <= i < |w.pool.slots| ==> w'.pool.slots[i].inUse == w.pool.slots[i].inUse
    ensures NoOrphans(w'.issued, w'.live, w'.pool.slots)
  {
    forall j | 0 <= j < |w'.pool.slots| && w'.pool.slots[j].inUse
      ensures Occupied(w'.issued, w'.live, j)
    {
      assert Occupied(w.issued, w.live, j);
      var k :| k in w.live && k < |w.issued| && w.issued[k].handle.index == j;
      assert k in w'.live;
    }
  }

  lemma BeginDeferredKeeps(w: World)
    requires Invariant(w)
    ensures Invariant(Apply(w, DoBeginDeferred))
  {
    var w' := Apply(w, DoBeginDeferred);
    CountRelease(w.pool.slots, w'.pool.slots);
    SameOccupants(w, w');
    forall k | k in w'.live
      ensures Owns(w'.issued[k], w'.live[k], w'.pool.slots, w'.takes)
    {
      assert Owns(w.issued[k], w.live[k], w.pool.slots, w.takes);
    }
  }

  lemma ApplyKeeps(w: World, s: Step)
    requires Invariant(w)
    ensures Invariant(Apply(w, s))
  {
    match s
    case DoRegister(fd, callback, added) => RegisterKeeps(w, fd, callback, added);
    case DoUnregister(h) => UnregisterKeeps(w, h);
    case DoUpdateCallback(h, callback) => UpdateCallbackKeeps(w, h, callback);
    case DoDefer(_) =>
    case DoBeginDeferred => BeginDeferredKeeps(w);
    case DoRunNext =>
  }

  lemma ApplyRecords(w: World, s: Step)
    requires Sized(w)
    ensures w.issued <= Apply(w, s).issued
  {
  }

  /** The invariant holds in every reachable world, and no registration is forgotten. */
  lemma {:induction false} RunKeeps(w: World, steps: seq<Step>)
    requires Invariant(w)
    ensures Invariant(Run(w, steps))
    ensures w.issued <= Run(w, steps).issued
    decreases |steps|
  {
    if steps != [] {
      var w1 := Apply(w, steps[0]);
      assert Invariant(w1) && w.issued <= w1.issued by {
        ApplyKeeps(w, steps[0]);
        ApplyRecords(w, steps[0]);
      }
      RunKeeps(w1, steps[1..]);
    }
  }

  /** Takes a, b of one slot get the same generation exactly when a full cycle lies between. */
  lemma SameGeneration(a: nat, b: nat)
    requires 0 < a <= b
    ensures GenerationAfter(a) == GenerationAfter(b) <==> (b - a) % CYCLE == 0
  {
    var x, y := a - 1, b - 1;
    assert x == x / CYCLE * CYCLE + x % CYCLE;
    assert y == y / CYCLE * CYCLE + y % CYCLE;
    assert b - a == (y / CYCLE - x / CYCLE) * CYCLE + (y % CYCLE - x % CYCLE);
    if x % CYCLE == y % CYCLE {
      assert (b - a) % CYCLE == 0;
    }
  }

  /** What registration k's handle may still reach in world w. */
  ghost predicate HandleSafe(w: World, k: nat)
    requires k < |w.issued| && Sized(w)
  {
    var r := w.issued[k];
    var i := r.handle.index;
    && i < MAX_EVENT_SLOTS
    && r.take <= w.takes[i]
    && (k in w.live ==>
          && Resolves(w.pool.slots, r.handle)
          && Binding(w.pool.slots[i].fd, w.pool.slots[i].callback) == w.live[k])
    && (k !in w.live ==>
          (Resolves(w.pool.slots, r.handle)
           <==> w.pool.slots[i].inUse && (w.takes[i] - r.take) % CYCLE == 0))
    && (k !in w.live && w.takes[i] - r.take < CYCLE ==> !Resolves(w.pool.slots, r.handle))
  }

  lemma InvariantIsSafe(w: World, k: nat)
    requires Invariant(w) && k < |w.issued|
    ensures HandleSafe(w, k)
  {
    var r := w.issued[k];
    var i := r.handle.index;
    assert Recorded(r, w.takes);
    SameGeneration(r.take, w.takes[i]);
    if k in w.live {
      assert Owns(r, w.live[k], w.pool.slots, w.takes);
    } else if w.pool.slots[i].inUse {
      assert Occupied(w.issued, w.live, i);
      var n :| n in w.live && n < |w.issued| && w.issued[n].handle.index == i;
      assert Owns(w.issued[n], w.live[n], w.pool.slots, w.takes);
    }
  }

  /**
   Handle safety, over every run from the empty pool, for every registration k ever made.
   While k is live its handle resolves to its own slot, holding its own descriptor and callback.
   Once k is gone its handle resolves exactly when the slot is in use again after a whole number
   of generation cycles; so never while the slot was taken again fewer than 65535 times.
   */
  lemma HandleSafety(steps: seq<Step>, k: nat)
    requires k < |Run(START, steps).issued|
    ensures HandleSafe(Run(START, steps), k)
  {
    StartInvariant();
    RunKeeps(START, steps);
    InvariantIsSafe(Run(START, steps), k);
  }

  /** Unless the interrupt descriptor clashes, the kernel's word for registration k invokes k's callback while k is
      live, and nothing after. */
  lemma EventSafety(steps: seq<Step>, k: nat, interruptFd: int)
    requires k < |Run(START, steps).issued|
    requires 0 <= interruptFd < UINT32 / 2 && !Clashes(interruptFd)
    ensures var w := Run(START, steps);
            var r := w.issued[k];
            var invoked := Dispatch(w.pool, interruptFd, EncodeHandle(r.handle));
            && r.handle.index < MAX_EVENT_SLOTS
            && (k in w.live ==> invoked == w.live[k].callback)
            && (k !in w.live && w.takes[r.handle.index] - r.take < CYCLE ==> invoked == Empty)
  {
    HandleSafety(steps, k);
    StartInvariant();
    RunKeeps(START, steps);
    var w := Run(START, steps);
    var h := w.issued[k].handle;
    assert Recorded(w.issued[k], w.takes);
    HandleRoundTrip(h);
    InterruptClash(interruptFd);
    assert Issuable(h);
  }

  // ------------------------------------------------- the bound is tight

  lemma {:induction false} RunConcat(w: World, a: seq<Step>, b: seq<Step>)
    requires Sized(w)
    ensures Run(w, a + b) == Run(Run(w, a), b)
    decreases |a|
  {
    if a == [] {
      assert a + b == b;
    } else {
      assert (a + b)[0] == a[0] && (a + b)[1..] == a[1..] + b;
      RunConcat(Apply(w, a[0]), a[1..], b);
    }
  }

  /** Register and drop slot 0 n times, with a deferred pass after each. */
  function Cycles(n: nat): seq<Step> {
    if n == 0 then []
    else Cycles(n - 1) + [DoRegister(0, Empty, true), DoUnregister(Handle(0, GenerationAfter(n))), DoBeginDeferred]
  }

  lemma StepFirst(w: World, s: Step, rest: seq<Step>)
    requires Sized(w)
    ensures Run(w, [s] + rest) == Run(Apply(w, s), rest)
  {
    assert ([s] + rest)[1..] == rest;
  }

  lemma ThreeSteps(w: World, a: Step, b: Step, c: Step)
    requires Sized(w)
    ensures Run(w, [a] + ([b] + ([c] + []))) == Apply(Apply(Apply(w, a), b), c)
  {
    StepFirst(w, a, [b] + ([c] + []));
    StepFirst(Apply(w, a), b, [c] + []);
    StepFirst(Apply(Apply(w, a), b), c, []);
  }

  /** One cycle on a free slot 0: the handle is issued, used up, and the slot is free again. */
  lemma OneCycle(w: World, n: nat)
    requires Invariant(w) && w.pool.slots[0].Free() && w.live == map[] && w.takes[0] + 1 == n == |w.issued| + 1
    ensures var h := Handle(0, GenerationAfter(n));
            var w' := Apply(Apply(Apply(w, DoRegister(0, Empty, true)), DoUnregister(h)), DoBeginDeferred);
            && w'.takes[0] == n && w'.issued == w.issued + [Registration(h, n)] && w'.live == map[]
            && w'.pool.slots[0].Free()
  {
    var h := Handle(0, GenerationAfter(n));
    NextGenerationIsNextTake(n - 1);
    var w1 := Apply(w, DoRegister(0, Empty, true));
    assert w1.pool.slots[0] == Slot(Empty, 0, GenerationAfter(n), true, false);
    assert Names(w1, n - 1, h);
    assert Apply(w1, DoUnregister(h)).live == map[];
  }

  lemma {:induction false} CyclesReach(n: nat)
    ensures var w := Run(START, Cycles(n));
            && w.takes[0] == n == |w.issued|
            && w.live == map[]
            && w.pool.slots[0].Free()
            && (n > 0 ==> w.issued[0] == Registration(Handle(0, 1), 1))
  {
    if n > 0 {
      CyclesReach(n - 1);
      var w, h := Run(START, Cycles(n - 1)), Handle(0, GenerationAfter(n));
      StartInvariant();
      RunKeeps(START, Cycles(n - 1));
      OneCycle(w, n);
      var steps := [DoRegister(0, Empty, true), DoUnregister(h), DoBeginDeferred];
      ThreeSteps(w, steps[0], steps[1], steps[2]);
      assert steps == [steps[0]] + ([steps[1]] + ([steps[2]] + []));
      RunConcat(START, Cycles(n - 1), steps);
    }
  }

  /** With exactly 65535 retakes a dead handle reaches the next registration: the bound is tight. */
  lemma BoundIsTight() returns (steps: seq<Step>)
    ensures var w := Run(START, steps);
            && |w.issued| > 1 && 0 !in w.live
            && w.issued[0].handle.index == 0
            && w.takes[0] - w.issued[0].take == CYCLE
            && Resolves(w.pool.slots, w.issued[0].handle)
  {
    CyclesReach(CYCLE);
    var last := [DoRegister(0, Empty, true)];
    steps := Cycles(CYCLE) + last;
    RunConcat(START, Cycles(CYCLE), last);
    var w := Run(START, Cycles(CYCLE));
    assert Run(w, last) == Apply(w, last[0]);
    HandleSafety(steps, 0);
  }

  // ------------------------------------------------------ delayed freeing

  predicate NoDeferredPass(steps: seq<Step>) {
    forall i :: 0 <= i < |steps| ==> !steps[i].DoBeginDeferred?
  }

  /**
   A slot freed during an event batch is not handed out again before the next deferred pass:
   through any steps without one it stays pending, and no registration made there is given it.
   */
  lemma {:induction false} FreedSlotNotReissued(w: World, steps: seq<Step>, i: nat)
    requires Sized(w) && i < MAX_EVENT_SLOTS && w.pool.slots[i].pendingFree
    requires forall j :: 0 <= j < MAX_EVENT_SLOTS ==> !(w.pool.slots[j].inUse && w.pool.slots[j].pendingFree)
    requires NoDeferredPass(steps)
    ensures var w' := Run(w, steps);
            && w'.pool.slots[i].pendingFree
            && w'.takes[i] == w.takes[i]
            && |w.issued| <= |w'.issued| && w'.issued[..|w.issued|] == w.issued
            && forall k :: |w.issued| <= k < |w'.issued| ==> w'.issued[k].handle.index != i
    decreases |steps|
  {
    if steps != [] {
      var w1 := Apply(w, steps[0]);
      assert !steps[0].DoBeginDeferred?;
      assert NoDeferredPass(steps[1..]);
      FreedSlotNotReissued(w1, steps[1..], i);
      var w' := Run(w, steps);
      assert w'.issued[..|w.issued|] == w'.issued[..|w1.issued|][..|w.issued|];
      forall k | |w.issued| <= k < |w'.issued| ensures w'.issued[k].handle.index != i {
        if k < |w1.issued| {
          assert w'.issued[k] == w'.issued[..|w1.issued|][k];
        }
      }
    }
  }

  /** A deferred pass leaves no slot pending: a pending one is emptied, every other one is left as it is. */
  lemma PassFrees(p: Pool)
    ensures var after := ReleasePending(p);
            && |after.slots| == |p.slots| && after.epollCount == p.epollCount
            && forall i :: 0 <= i < |p.slots| ==>
                 && !after.slots[i].pendingFree
                 && after.slots[i].inUse == p.slots[i].inUse && after.slots[i].generation == p.slots[i].generation
                 && (if p.slots[i].pendingFree then after.slots[i].callback == Empty && after.slots[i].fd == -1
                     else after.slots[i] == p.slots[i])
  {
  }

  // ------------------------------------------------------------ room in the pool

  function InUseSet(slots: seq<Slot>): set<nat> { set i: nat | i < |slots| && slots[i].inUse }

  lemma {:induction false} CountIsSize(slots: seq<Slot>)
    ensures CountInUse(slots) == |InUseSet(slots)|
    decreases |InUseSet(slots)|
  {
    if i :| i in InUseSet(slots) {
      var fewer := slots[i := slots[i].(inUse := false)];
      CountUpdate(slots, i, fewer[i]);
      assert InUseSet(fewer) == InUseSet(slots) - {i};
      CountIsSize(fewer);
    } else {
      assert forall j :: 0 <= j < |slots| ==> (slots[j].inUse <==> j in InUseSet(slots));
      NoneInUse(slots);
    }
  }

  function Range(n: nat): set<nat> {
    if n == 0 then {} else Range(n - 1) + {n - 1}
  }

  lemma {:induction false} InRange(n: nat, i: nat)
    ensures i in Range(n) <==> i < n
  {
    if n > 0 {
      InRange(n - 1, i);
    }
  }

  lemma {:induction false} RangeSize(n: nat)
    ensures |Range(n)| == n
  {
    if n > 0 {
      RangeSize(n - 1);
      InRange(n - 1, n - 1);
    }
  }

  function IndexOf(issued: seq<Registration>, k: nat): nat { if k < |issued| then issued[k].handle.index else 0 }

  function Indices(issued: seq<Registration>, ks: set<nat>): set<nat> { set k | k in ks :: IndexOf(issued, k) }

  /** Registrations in different slots. */
  ghost predicate Apart(issued: seq<Registration>, ks: set<nat>) {
    forall j, k :: j in ks && k in ks && IndexOf(issued, j) == IndexOf(issued, k) ==> j == k
  }

  lemma {:induction false} IndicesSize(issued: seq<Registration>, ks: set<nat>)
    requires Apart(issued, ks)
    ensures |Indices(issued, ks)| == |ks|
    decreases |ks|
  {
    if k :| k in ks {
      IndicesSize(issued, ks - {k});
      assert Indices(issued, ks) == Indices(issued, ks - {k}) + {IndexOf(issued, k)};
    } else {
      assert Indices(issued, ks) == {};
    }
  }

  /** A slot is in use exactly when a live registration holds it. */
  lemma InUseIsOccupied(w: World, i: nat)
    requires Invariant(w) && i < MAX_EVENT_SLOTS
    ensures w.pool.slots[i].inUse <==> Occupied(w.issued, w.live, i)
  {
    if k :| k in w.live && k < |w.issued| && w.issued[k].handle.index == i {
      assert Owns(w.issued[k], w.live[k], w.pool.slots, w.takes);
    }
  }

  /** In every reachable world the epoll count is the number of live registrations. */
  lemma EpollCountsLive(w: World)
    requires Invariant(w)
    ensures w.pool.epollCount == |w.live| == |InUseSet(w.pool.slots)|
  {
    var ks := w.live.Keys;
    forall j, k | j in ks && k in ks && IndexOf(w.issued, j) == IndexOf(w.issued, k) ensures j == k {
      OneOwnerPerSlot(w, j, k);
    }
    IndicesSize(w.issued, ks);
    IndicesInUse(w);
    CountIsSize(w.pool.slots);
  }

  lemma IndicesInUse(w: World)
    requires Invariant(w)
    ensures Indices(w.issued, w.live.Keys) == InUseSet(w.pool.slots)
  {
    forall i: nat ensures i in Indices(w.issued, w.live.Keys) <==> i in InUseSet(w.pool.slots) {
      if i in Indices(w.issued, w.live.Keys) {
        var k :| k in w.live.Keys && IndexOf(w.issued, k) == i;
        assert Owns(w.issued[k], w.live[k], w.pool.slots, w.takes);
      }
      if i in InUseSet(w.pool.slots) {
        assert Occupied(w.issued, w.live, i);
        var k :| k in w.live && k < |w.issued| && w.issued[k].handle.index == i;
        assert IndexOf(w.issued, k) == i;
      }
    }
  }

  /** The world right after a deferred pass at the end of a run. */
  lemma AfterPassKeeps(steps: seq<Step>)
    ensures Invariant(Apply(Run(START, steps), DoBeginDeferred))
    ensures forall i :: 0 <= i < MAX_EVENT_SLOTS ==> !Apply(Run(START, steps), DoBeginDeferred).pool.slots[i].pendingFree
  {
    StartInvariant();
    RunKeeps(START, steps);
    ApplyKeeps(Run(START, steps), DoBeginDeferred);
    PassFrees(Run(START, steps).pool);
  }

  /** Over every run, right after a pass a slot is free exactly when no live registration holds it. */
  lemma FreeAfterPass(steps: seq<Step>, i: nat)
    requires i < MAX_EVENT_SLOTS
    ensures var w := Apply(Run(START, steps), DoBeginDeferred); w.pool.slots[i].Free() <==> !Occupied(w.issued, w.live, i)
  {
    AfterPassKeeps(steps);
    InUseIsOccupied(Apply(Run(START, steps), DoBeginDeferred), i);
  }

  lemma RoomIffFewer(slots: seq<Slot>)
    ensures (exists i: nat :: i < |slots| && !slots[i].inUse) <==> |InUseSet(slots)| < |slots|
  {
    RangeSize(|slots|);
    forall i: nat ensures i in Range(|slots|) <==> i < |slots| {
      InRange(|slots|, i);
    }
    if i: nat :| i < |slots| && !slots[i].inUse {
      assert InUseSet(slots) <= Range(|slots|) - {i};
      SubsetSize(InUseSet(slots), Range(|slots|) - {i});
    } else {
      assert InUseSet(slots) == Range(|slots|);
    }
  }

  lemma {:induction false} SubsetSize(a: set<nat>, b: set<nat>)
    requires a <= b
    ensures |a| <= |b|
    decreases |a|
  {
    if x :| x in a {
      SubsetSize(a - {x}, b - {x});
    }
  }

  /** Over every run, a registration right after a pass yields a valid handle exactly when epoll accepts it and fewer
      than 256 registrations are live; the handle then resolves to the new descriptor and callback. */
  lemma RegisterAfterPass(steps: seq<Step>, fd: int, callback: Callback, added: bool)
    ensures var w := Apply(Run(START, steps), DoBeginDeferred);
            var (p, h) := Register(w.pool, fd, callback, added);
            && (h.Valid() <==> added && |w.live| < 256)
            && (h.Valid() ==> Resolves(p.slots, h) && p.slots[h.index].fd == fd && p.slots[h.index].callback == callback)
  {
    AfterPassKeeps(steps);
    var w := Apply(Run(START, steps), DoBeginDeferred);
    EpollCountsLive(w);
    RoomIffFewer(w.pool.slots);
    RegisterIff(w.pool, fd, callback, added);
  }

  /** At any time a registration yields a valid handle exactly when epoll accepts it and some slot is free. */
  lemma RegisterIff(p: Pool, fd: int, callback: Callback, added: bool)
    requires |p.slots| == MAX_EVENT_SLOTS
    ensures var (after, h) := Register(p, fd, callback, added);
            && (h.Valid() <==> added && exists i: nat :: i < |p.slots| && !p.slots[i].inUse && !p.slots[i].pendingFree)
            && (h.Valid() ==> Resolves(after.slots, h) && after.slots[h.index].fd == fd && after.slots[h.index].callback == callback)
  {
    var i := FirstFree(p.slots, 0);
    assert i < |p.slots| ==> p.slots[i].Free();
    assert forall j: nat :: j < i ==> !p.slots[j].Free();
  }

  /**
   A registration that is live and then unregistered is over at once: until the next deferred pass, whatever runs, its
   handle resolves to nothing, not even to a later registration, and its slot is given to none.
   */
  lemma UnregisteredIsOver(steps: seq<Step>, k: nat, more: seq<Step>)
    requires k in Run(START, steps).live && k < |Run(START, steps).issued| && NoDeferredPass(more)
    ensures var w := Run(START, steps); var h := w.issued[k].handle;
            var w1 := Apply(w, DoUnregister(h)); var w2 := Run(w1, more);
            && w1.live == w.live - {k} && w1.issued == w.issued && w1.pool.epollCount == w.pool.epollCount - 1
            && !Resolves(w2.pool.slots, h)
            && |w.issued| <= |w2.issued|
            && forall j :: |w.issued| <= j < |w2.issued| ==> w2.issued[j].handle.index != h.index
  {
    StartInvariant();
    RunKeeps(START, steps);
    var w := Run(START, steps);
    var h := w.issued[k].handle;
    UnregisterEnds(w, k);
    ApplyKeeps(w, DoUnregister(h));
    StaysOver(Apply(w, DoUnregister(h)), more, h);
  }

  lemma UnregisterEnds(w: World, k: nat)
    requires Invariant(w) && k in w.live && k < |w.issued|
    ensures var h := w.issued[k].handle; var w1 := Apply(w, DoUnregister(h));
            && w1.live == w.live - {k} && w1.issued == w.issued && w1.pool.epollCount == w.pool.epollCount - 1
            && h.index < MAX_EVENT_SLOTS && w1.pool.slots[h.index].pendingFree
  {
    var h := w.issued[k].handle;
    assert Owns(w.issued[k], w.live[k], w.pool.slots, w.takes) && Recorded(w.issued[k], w.takes);
    assert Names(w, k, h);
    ResolvedIsNamed(w, h);
    DropsOnly(w, k);
  }

  lemma DropsOnly(w: World, k: nat)
    requires Invariant(w) && k in w.live && k < |w.issued|
    ensures Apply(w, DoUnregister(w.issued[k].handle)).live == w.live - {k}
  {
    OnlyOneNamed(w, k);
  }

  lemma OnlyOneNamed(w: World, k: nat)
    requires Invariant(w) && k in w.live && k < |w.issued|
    ensures forall j :: j in w.live && Names(w, j, w.issued[k].handle) ==> j == k
  {
    forall j | j in w.live && Names(w, j, w.issued[k].handle) ensures j == k {
      if j != k {
        OneOwnerPerSlot(w, j, k);
      }
    }
  }

  lemma StaysOver(w1: World, more: seq<Step>, h: Handle)
    requires Invariant(w1) && NoDeferredPass(more) && h.index < MAX_EVENT_SLOTS && w1.pool.slots[h.index].pendingFree
    ensures var w2 := Run(w1, more);
            && !Resolves(w2.pool.slots, h) && |w1.issued| <= |w2.issued|
            && forall j :: |w1.issued| <= j < |w2.issued| ==> w2.issued[j].handle.index != h.index
  {
    FreedSlotNotReissued(w1, more, h.index);
    RunKeeps(w1, more);
  }

  // ---------------------------------------------------- deferred callbacks

  /**
   The deferred queue over a run: what is queued, the passes under way (more than one only under
   nested execution), all callbacks ever deferred, and the ones visited by a pass, in order. A
   visit invokes the callback unless it is empty.
   */
  datatype Deferral = Deferral(
    queue: seq<Callback>, passes: seq<seq<Callback>>, logged: seq<Callback>, visited: seq<Callback>)

  const IDLE := Deferral([], [], [], [])

  /** The next callback of the innermost pass is visited, or the pass ends. */
  function RunNext(d: Deferral): Deferral {
    if d.passes == [] then d
    else
      var top := d.passes[|d.passes| - 1];
      var rest := d.passes[..|d.passes| - 1];
      if top == [] then d.(passes := rest)
      else d.(passes := rest + [top[1..]], visited := d.visited + [top[0]])
  }

  /** `process_deferred` moves the queue out first, so what its callbacks defer is queued anew. */
  function ApplyQueue(d: Deferral, s: Step): Deferral {
    match s
    case DoDefer(callback) => d.(queue := d.queue + [callback], logged := d.logged + [callback])
    case DoBeginDeferred => d.(queue := [], passes := d.passes + [d.queue])
    case DoRunNext => RunNext(d)
    case _ => d
  }

  function RunQueue(d: Deferral, steps: seq<Step>): Deferral
    decreases |steps|
  {
    if steps == [] then d else RunQueue(ApplyQueue(d, steps[0]), steps[1..])
  }

  function Waiting(passes: seq<seq<Callback>>): multiset<Callback> {
    if passes == [] then multiset{}
    else Waiting(passes[..|passes| - 1]) + multiset(passes[|passes| - 1])
  }

  lemma WaitingPush(rest: seq<seq<Callback>>, top: seq<Callback>)
    ensures Waiting(rest + [top]) == Waiting(rest) + multiset(top)
  {
    assert (rest + [top])[..|rest|] == rest;
  }

  /** Every callback ever deferred has been visited once, is in a pass under way, or is queued. */
  ghost predicate Conserved(d: Deferral) {
    multiset(d.logged) == multiset(d.visited) + Waiting(d.passes) + multiset(d.queue)
  }

  lemma RunNextConserves(d: Deferral)
    requires Conserved(d)
    ensures Conserved(RunNext(d))
  {
    if d.passes != [] {
      var rest, top := d.passes[..|d.passes| - 1], d.passes[|d.passes| - 1];
      if top != [] {
        assert top == [top[0]] + top[1..];
        WaitingPush(rest, top[1..]);
      }
    }
  }

  lemma ApplyConserves(d: Deferral, s: Step)
    requires Conserved(d)
    ensures Conserved(ApplyQueue(d, s))
  {
    if s.DoBeginDeferred? {
      WaitingPush(d.passes, d.queue);
    } else if s.DoRunNext? {
      RunNextConserves(d);
    }
  }

  /** Nothing deferred is lost or visited twice, however passes nest. */
  lemma {:induction false} DeferredExactlyOnce(d: Deferral, steps: seq<Step>)
    requires Conserved(d)
    ensures Conserved(RunQueue(d, steps))
    decreases |steps|
  {
    if steps != [] {
      ApplyConserves(d, steps[0]);
      DeferredExactlyOnce(ApplyQueue(d, steps[0]), steps[1..]);
    }
  }

  /** No pass starts while another is under way. */
  predicate Unnested(d: Deferral, steps: seq<Step>)
    decreases |steps|
  {
    steps != [] ==>
      && (steps[0].DoBeginDeferred? ==> d.passes == [])
      && Unnested(ApplyQueue(d, steps[0]), steps[1..])
  }

  /** Visited, then the pass under way, then the queue: together the deferral order. */
  ghost predicate InOrder(d: Deferral) {
    && |d.passes| <= 1
    && d.logged == d.visited + (if d.passes == [] then [] else d.passes[0]) + d.queue
  }

  lemma RunNextInOrder(d: Deferral)
    requires InOrder(d)
    ensures InOrder(RunNext(d))
  {
    if d.passes != [] && d.passes[0] != [] {
      var top := d.passes[0];
      assert RunNext(d).passes == [top[1..]];
      assert top == [top[0]] + top[1..];
    }
  }

  lemma ApplyInOrder(d: Deferral, s: Step)
    requires InOrder(d) && (s.DoBeginDeferred? ==> d.passes == [])
    ensures InOrder(ApplyQueue(d, s))
  {
    if s.DoRunNext? {
      RunNextInOrder(d);
    }
  }

  /** Without nested execution, deferred callbacks are visited in the order they were deferred. */
  lemma {:induction false} DeferredFifo(d: Deferral, steps: seq<Step>)
    requires InOrder(d) && Unnested(d, steps)
    ensures InOrder(RunQueue(d, steps))
    ensures RunQueue(d, steps).visited <= RunQueue(d, steps).logged
    decreases |steps|
  {
    if steps != [] {
      ApplyInOrder(d, steps[0]);
      DeferredFifo(ApplyQueue(d, steps[0]), steps[1..]);
    }
  }

  /** So for a scheduler started idle: nothing is lost or visited twice, and without nested execution what has been
      visited is the beginning of what was deferred. */
  lemma DeferredFromStart(steps: seq<Step>)
    ensures Conserved(RunQueue(IDLE, steps))
    ensures Unnested(IDLE, steps) ==> InOrder(RunQueue(IDLE, steps)) && RunQueue(IDLE, steps).visited <= RunQueue(IDLE, steps).logged
  {
    DeferredExactlyOnce(IDLE, steps);
    if Unnested(IDLE, steps) {
      DeferredFifo(IDLE, steps);
    }
  }

  function CountNexts(steps: seq<Step>): nat {
    if steps == [] then 0 else (if steps[0].DoRunNext? then 1 else 0) + CountNexts(steps[1..])
  }

  /** What the steps defer. */
  function Defers(steps: seq<Step>): seq<Callback> {
    if steps == [] then [] else (if steps[0].DoDefer? then [steps[0].callback] else []) + Defers(steps[1..])
  }

  lemma QueueStep(d: Deferral, steps: seq<Step>)
    requires steps != [] && !steps[0].DoBeginDeferred?
    ensures ApplyQueue(d, steps[0]).queue + Defers(steps[1..]) == d.queue + Defers(steps)
  {
    if steps[0].DoDefer? {
      Grouped(d.queue, [steps[0].callback], Defers(steps[1..]));
    } else {
      Grouped(d.queue, [], Defers(steps[1..]));
      assert d.queue + [] == d.queue;
    }
  }

  lemma Grouped(a: seq<Callback>, b: seq<Callback>, c: seq<Callback>)
    ensures (a + b) + c == a + (b + c)
  {
  }

  lemma {:induction false} NothingVisited(d: Deferral, steps: seq<Step>)
    requires NoDeferredPass(steps) && (d.passes == [] || CountNexts(steps) == 0)
    ensures var d' := RunQueue(d, steps);
            d'.passes == d.passes && d'.visited == d.visited && d'.queue == d.queue + Defers(steps)
    decreases |steps|
  {
    if steps != [] {
      assert !steps[0].DoBeginDeferred? && NoDeferredPass(steps[1..]);
      QueueStep(d, steps);
      NothingVisited(ApplyQueue(d, steps[0]), steps[1..]);
    }
  }

  /**
   The innermost pass under way visits exactly what was queued when it began, one callback at a time and in order, and
   one step after the last it is over; what is deferred meanwhile waits in the queue. The passes around it stand still
   until then.
   */
  lemma {:induction false} PassRunsItsBatch(d: Deferral, outer: seq<seq<Callback>>, batch: seq<Callback>, steps: seq<Step>)
    requires d.passes == outer + [batch] && NoDeferredPass(steps)
    requires outer == [] || CountNexts(steps) <= |batch| + 1
    ensures Visits(d, RunQueue(d, steps), outer, batch, CountNexts(steps), Defers(steps))
    decreases |steps|
  {
    if steps != [] {
      var s, rest := steps[0], steps[1..];
      StepsSplit(steps);
      if !s.DoRunNext? {
        QueueStep(d, steps);
        PassRunsItsBatch(ApplyQueue(d, s), outer, batch, rest);
      } else if batch == [] {
        RunNextAsked(d, outer, batch);
        NothingVisited(RunNext(d), rest);
      } else {
        RunNextAsked(d, outer, batch);
        PassRunsItsBatch(RunNext(d), outer, batch[1..], rest);
        OneMoreVisit(d, RunQueue(RunNext(d), rest), outer, batch, CountNexts(rest), Defers(rest));
      }
    }
  }

  lemma StepsSplit(steps: seq<Step>)
    requires steps != [] && NoDeferredPass(steps)
    ensures !steps[0].DoBeginDeferred? && NoDeferredPass(steps[1..])
    ensures CountNexts(steps) == (if steps[0].DoRunNext? then 1 else 0) + CountNexts(steps[1..])
    ensures steps[0].DoRunNext? ==> Defers(steps) == Defers(steps[1..])
  {
    assert !steps[0].DoBeginDeferred?;
    assert [] + Defers(steps[1..]) == Defers(steps[1..]);
  }

  /** After k steps of a pass. */
  ghost predicate Visits(d: Deferral, d': Deferral, outer: seq<seq<Callback>>, batch: seq<Callback>, k: nat, deferred: seq<Callback>) {
    && d'.visited == d.visited + Upto(batch, k)
    && d'.passes == (if k <= |batch| then outer + [batch[k..]] else outer)
    && d'.queue == d.queue + deferred
  }

  lemma OneMoreVisit(d: Deferral, d': Deferral, outer: seq<seq<Callback>>, batch: seq<Callback>, k: nat, deferred: seq<Callback>)
    requires d.passes == outer + [batch] && batch != [] && Visits(RunNext(d), d', outer, batch[1..], k, deferred)
    ensures Visits(d, d', outer, batch, k + 1, deferred)
  {
    RunNextAsked(d, outer, batch);
    VisitedNext(d.visited, batch, k);
  }

  lemma RunNextAsked(d: Deferral, outer: seq<seq<Callback>>, batch: seq<Callback>)
    requires d.passes == outer + [batch]
    ensures RunNext(d) == if batch == [] then d.(passes := outer)
                          else d.(passes := outer + [batch[1..]], visited := d.visited + [batch[0]])
  {
  }

  function Upto(s: seq<Callback>, k: nat): seq<Callback> { if k < |s| then s[..k] else s }

  lemma VisitedNext(visited: seq<Callback>, batch: seq<Callback>, k: nat)
    requires batch != []
    ensures (visited + [batch[0]]) + Upto(batch[1..], k) == visited + Upto(batch, k + 1)
    ensures k + 1 <= |batch| ==> batch[1..][k..] == batch[k + 1..]
  {
    assert batch == [batch[0]] + batch[1..];
    assert k + 1 < |batch| ==> batch[..k + 1] == [batch[0]] + batch[1..][..k];
  }

  /** A pass begun on a queue takes all of it, visits all of it, and leaves the queue as deferred meanwhile. */
  lemma PassEmptiesTheQueue(d: Deferral, steps: seq<Step>)
    requires NoDeferredPass(steps) && CountNexts(steps) == |d.queue| + 1
    ensures var d' := RunQueue(ApplyQueue(d, DoBeginDeferred), steps);
            d'.visited == d.visited + d.queue && d'.queue == Defers(steps) && d'.passes == d.passes
  {
    PassRunsItsBatch(ApplyQueue(d, DoBeginDeferred), d.passes, d.queue, steps);
  }

  // ------------------------------------------------------------ the class

  /** The scheduler as it works in place; every method takes exactly the step of the same name. */
  class EventScheduler {
    const ready: bool
    const interruptFd: int
    const slots: array<Slot>
    var epollCount: int
    var deferred: seq<Callback>

    ghost predicate Valid() { slots.Length == MAX_EVENT_SLOTS }

    ghost function State(): Pool
      reads this, slots
    {
      Pool(slots[..], epollCount)
    }

    /** `ready` says that both the epoll and the interrupt descriptor could be created. */
    constructor (ready: bool, interruptFd: int)
      ensures Valid() && State() == INITIAL && deferred == [] && fresh(slots)
      ensures this.ready == ready && this.interruptFd == interruptFd
    {
      this.ready := ready;
      this.interruptFd := interruptFd;
      slots := new Slot[MAX_EVENT_SLOTS](_ => FRESH_SLOT);
      epollCount := 0;
      deferred := [];
      new;
      assert slots[..] == INITIAL.slots;
    }

    method RegisterFd(fd: int, callback: Callback, added: bool) returns (h: Handle)
      requires Valid()
      modifies `epollCount, slots
      ensures !ready ==> h == INVALID && State() == old(State())
      ensures ready ==> (State(), h) == Register(old(State()), fd, callback, added)
    {
      if !ready {
        return INVALID;
      }
      var index := -1;
      var i := 0;
      while i < MAX_EVENT_SLOTS
        invariant 0 <= i <= MAX_EVENT_SLOTS && index == -1
        invariant FirstFree(slots[..], 0) == FirstFree(slots[..], i)
      {
        if slots[i].Free() {
          index := i;
          break;
        }
        i := i + 1;
      }
      if index == -1 {
        return INVALID;
      }
      var generation := (slots[index].generation + 1) % UINT16;
      if generation == 0 {
        generation := 1;
      }
      slots[index] := Slot(callback, fd, generation, true, false);
      if !added {
        slots[index] := Slot(Empty, -1, generation, false, false);
        assert slots[..] == old(slots[..])[index := slots[index]];
        return INVALID;
      }
      epollCount := epollCount + 1;
      h := Handle(index, generation);
    }

    /** `get_slot` */
    method GetSlot(h: Handle) returns (found: bool)
      requires Valid()
      ensures found == Resolves(slots[..], h)
    {
      if !h.Valid() || h.index >= MAX_EVENT_SLOTS {
        return false;
      }
      return slots[h.index].inUse && slots[h.index].generation == h.generation;
    }

    method UnregisterHandle(h: Handle)
      requires Valid()
      modifies `epollCount, slots
      ensures State() == if ready then Unregister(old(State()), h) else old(State())
    {
      if !ready {
        return;
      }
      var found := GetSlot(h);
      if !found {
        return;
      }
      slots[h.index] := slots[h.index].(inUse := false, pendingFree := true);
      epollCount := epollCount - 1;
    }

    method SetCallback(h: Handle, callback: Callback)
      requires Valid()
      modifies slots
      ensures State() == UpdateCallback(old(State()), h, callback)
    {
      var found := GetSlot(h);
      if found {
        slots[h.index] := slots[h.index].(callback := callback);
      }
    }

    method ProcessEvent(v: nat) returns (invoked: Callback)
      requires Valid()
      ensures invoked == Dispatch(State(), interruptFd, v)
    {
      if EventFd(v) == interruptFd {
        return Empty;
      }
      var h := DecodeHandle(v);
      var found := GetSlot(h);
      invoked := if found then slots[h.index].callback else Empty;
    }

    method Defer(callback: Callback)
      requires Valid()
      modifies `deferred
      ensures deferred == old(deferred) + [callback]
    {
      deferred := deferred + [callback];
    }

    /** `process_deferred` up to the loop that invokes the returned batch in order. */
    method ProcessDeferred() returns (batch: seq<Callback>)
      requires Valid()
      modifies `deferred, slots
      ensures State() == ReleasePending(old(State()))
      ensures batch == old(deferred) && deferred == []
    {
      var i := 0;
      while i < slots.Length
        invariant 0 <= i <= slots.Length
        invariant deferred == old(deferred)
        invariant forall j :: 0 <= j < i ==> slots[j] == Release(old(slots[j]))
        invariant forall j :: i <= j < slots.Length ==> slots[j] == old(slots[j])
      {
        if slots[i].pendingFree {
          slots[i] := slots[i].(pendingFree := false, callback := Empty, fd := -1);
        }
        i := i + 1;
      }
      assert slots[..] == ReleasePending(old(State())).slots;
      batch := deferred;
      deferred := [];
    }
  }
}
