/**
 The bounded write queue: a vector with a read position that refines "the last max bytes".
 */
module WriteBuffer {
  import opened Basics

  // ----------------------------------------------------------- the fast form

  datatype Store = Store(buffer: seq<Byte>, readPos: nat)

  predicate InRange(s: Store) { s.readPos <= |s.buffer| }

  /** What peek shows. */
  function Contents(s: Store): (r: seq<Byte>)
    requires InRange(s)
  {
    s.buffer[s.readPos..]
  }

  predicate Bounded(s: Store, max: nat) { InRange(s) && |s.buffer| - s.readPos <= max }

  function Compact(s: Store): Store {
    if s.readPos > 0 && s.readPos == |s.buffer| then Store([], 0) else s
  }

  /** Above the maximum the room wraps to a number that no length exceeds (see RoomWraps): nothing is discarded. */
  function MakeRoom(s: Store, max: nat, length: nat): Store
    requires InRange(s) && length <= max
  {
    var size := |s.buffer| - s.readPos;
    var available := max - size;
    if size <= max && length > available then
      var pos := s.readPos + (length - available);
      if pos >= |s.buffer| then Store([], 0) else s.(readPos := pos)
    else s
  }

  function EnqueueStore(s: Store, max: nat, data: seq<Byte>): Store
    requires InRange(s)
  {
    var s1 := Compact(s);
    var tail := if |data| > max then data[|data| - max..] else data;
    var s2 := if |data| > max then Store([], 0) else s1;
    var s3 := MakeRoom(s2, max, |tail|);
    s3.(buffer := s3.buffer + tail)
  }

  /** The sum of two values of size_t, which wraps. */
  function SizeSum(a: nat, b: nat, word: Width): (r: nat)
    ensures a + b < word ==> r == a + b
    ensures word <= a + b < 2 * word ==> r == a + b - word
  {
    (a + b) % word
  }

  function ConsumeStore(s: Store, n: nat, word: Width): Store {
    var pos := SizeSum(s.readPos, n, word);
    if pos >= |s.buffer| then Store([], 0) else s.(readPos := pos)
  }

  // --------------------------------------------------------- the simple form

  function Last(max: nat, s: seq<Byte>): seq<Byte> {
    if |s| > max then s[|s| - max..] else s
  }

  function Drop(n: nat, s: seq<Byte>): seq<Byte> {
    if n >= |s| then [] else s[n..]
  }

  /** The addition in consume does not wrap. */
  predicate Fits(s: Store, n: nat, word: Width) { s.readPos + n < word }

  // ------------------------------------------------------------- refinement

  lemma LastOfLong(max: nat, q: seq<Byte>, data: seq<Byte>)
    requires |data| > max
    ensures Last(max, q + data) == data[|data| - max..]
  {
  }

  lemma LastOfShort(max: nat, q: seq<Byte>, data: seq<Byte>)
    requires |q| <= max && |data| <= max
    ensures Last(max, q + data) == Drop(if |q| + |data| > max then |q| + |data| - max else 0, q) + data
  {
  }

  lemma MakeRoomDrops(s: Store, max: nat, length: nat)
    requires Bounded(s, max) && length <= max
    ensures var over := |s.buffer| - s.readPos + length - max;
            InRange(MakeRoom(s, max, length)) &&
            Contents(MakeRoom(s, max, length)) == Drop(if over > 0 then over else 0, Contents(s))
  {
  }

  lemma AppendContents(s: Store, tail: seq<Byte>)
    requires InRange(s)
    ensures InRange(s.(buffer := s.buffer + tail)) && Contents(s.(buffer := s.buffer + tail)) == Contents(s) + tail
  {
  }

  lemma CompactKeeps(s: Store)
    requires InRange(s)
    ensures InRange(Compact(s)) && Contents(Compact(s)) == Contents(s)
  {
  }

  lemma Oversized(s: Store, max: nat, data: seq<Byte>)
    requires InRange(s) && |data| > max
    ensures EnqueueStore(s, max, data) == Store(data[|data| - max..], 0)
  {
  }

  lemma Fitting(s: Store, max: nat, data: seq<Byte>)
    requires Bounded(s, max) && |data| <= max
    ensures var over := |Contents(s)| + |data| - max; var t := EnqueueStore(s, max, data);
            InRange(t) && Contents(t) == Drop(if over > 0 then over else 0, Contents(s)) + data
  {
    var s1 := Compact(s);
    CompactKeeps(s);
    MakeRoomDrops(s1, max, |data|);
    AppendContents(MakeRoom(s1, max, |data|), data);
  }

  lemma OversizedRefines(s: Store, max: nat, data: seq<Byte>)
    requires InRange(s) && |data| > max
    ensures var t := EnqueueStore(s, max, data); InRange(t) && Contents(t) == Last(max, Contents(s) + data)
  {
    Oversized(s, max, data);
    LastOfLong(max, Contents(s), data);
  }

  lemma FittingRefines(s: Store, max: nat, data: seq<Byte>)
    requires Bounded(s, max) && |data| <= max
    ensures var t := EnqueueStore(s, max, data); InRange(t) && Contents(t) == Last(max, Contents(s) + data)
  {
    var q := Contents(s);
    assert |q| <= max;
    Fitting(s, max, data);
    LastOfShort(max, q, data);
  }

  /** In every branch, enqueue leaves the last max bytes of the old content followed by the data. */
  lemma EnqueueRefines(s: Store, max: nat, data: seq<Byte>)
    requires Bounded(s, max)
    ensures Bounded(EnqueueStore(s, max, data), max)
    ensures Contents(EnqueueStore(s, max, data)) == Last(max, Contents(s) + data)
  {
    LastSize(max, Contents(s) + data);
    if |data| > max {
      OversizedRefines(s, max, data);
    } else {
      FittingRefines(s, max, data);
    }
  }

  /** `mMaxSize - size()` of a queue above its maximum. */
  lemma RoomWraps(size: nat, max: nat, length: nat, word: Width)
    requires size < word && max < word && length <= max
    ensures size <= max ==> (max - size) % word == max - size
    ensures size > max ==> (max - size) % word == max - size + word >= length
  {
    if size > max {
      assert (max - size + word) % word == max - size + word;
      ModuloShift(max - size, word);
    }
  }

  lemma ModuloShift(x: int, word: Width)
    requires 0 < x + word < word
    ensures x % word == x + word
  {
  }

  lemma Overfull(s: Store, max: nat, data: seq<Byte>)
    requires InRange(s) && !Bounded(s, max) && |data| <= max
    ensures EnqueueStore(s, max, data) == s.(buffer := s.buffer + data)
    ensures Contents(EnqueueStore(s, max, data)) == Contents(s) + data
  {
    AppendContents(s, data);
  }

  /** A queue that a wrapped count has brought above its maximum discards nothing until it is drained or longer data
      arrive; so enqueue leaves the last max bytes exactly for a queue within its maximum or for longer data. */
  lemma EnqueueExactly(s: Store, max: nat, data: seq<Byte>)
    requires InRange(s)
    ensures InRange(EnqueueStore(s, max, data))
    ensures Contents(EnqueueStore(s, max, data)) == Last(max, Contents(s) + data) <==> Bounded(s, max) || |data| > max
    ensures Bounded(s, max) ==> Bounded(EnqueueStore(s, max, data), max)
  {
    if Bounded(s, max) {
      EnqueueRefines(s, max, data);
    } else if |data| > max {
      OversizedRefines(s, max, data);
    } else {
      Overfull(s, max, data);
      LastSize(max, Contents(s) + data);
    }
  }

  /** consume(n) drops exactly the oldest min(n, size) bytes if and only if the read position does not wrap. */
  lemma ConsumeRefines(s: Store, n: nat, word: Width)
    requires InRange(s) && |s.buffer| < word && n < word
    ensures InRange(ConsumeStore(s, n, word))
    ensures Contents(ConsumeStore(s, n, word)) == Drop(n, Contents(s)) <==> Fits(s, n, word)
  {
    if Fits(s, n, word) {
      ConsumeFits(s, n, word);
    } else {
      assert |Contents(ConsumeStore(s, n, word))| > |Contents(s)|;
    }
  }

  lemma ConsumeFits(s: Store, n: nat, word: Width)
    requires InRange(s) && Fits(s, n, word)
    ensures InRange(ConsumeStore(s, n, word)) && Contents(ConsumeStore(s, n, word)) == Drop(n, Contents(s))
  {
    DropsOldest(s.buffer, s.readPos, n);
  }

  lemma DropsOldest(buffer: seq<Byte>, pos: nat, n: nat)
    requires pos <= |buffer|
    ensures pos + n < |buffer| ==> buffer[pos + n..] == Drop(n, buffer[pos..])
    ensures pos + n >= |buffer| ==> Drop(n, buffer[pos..]) == []
  {
  }

  /** A count no larger than the size always fits, whatever the read position. */
  lemma WithinSizeFits(s: Store, n: nat, word: Width)
    requires InRange(s) && |s.buffer| < word && n <= |Contents(s)|
    ensures Fits(s, n, word)
  {
  }

  /** A wrapping count brings a consumed byte back and can exceed the maximum. */
  lemma WrapResurrects(word: Width)
    ensures var s := ConsumeStore(EnqueueStore(Store([], 0), 2, [7, 8]), 1, word);
            var t := EnqueueStore(s, 2, [9]);
            Contents(s) == [8] && Contents(t) == [8, 9] && Contents(ConsumeStore(t, word - 1, word)) == [7, 8, 9]
  {
    var first := EnqueueStore(Store([], 0), 2, [7, 8]);
    assert first == Store([7, 8], 0);
    var s := ConsumeStore(first, 1, word);
    assert s == Store([7, 8], 1);
    var t := EnqueueStore(s, 2, [9]);
    assert t == Store([7, 8, 9], 1);
    assert ConsumeStore(t, word - 1, word) == Store([7, 8, 9], 0);
  }

  // ------------------------------------------------------------- whole runs

  datatype Op = Enqueue(data: seq<Byte>) | Consume(n: nat) | Clear

  /** The bytes queued, plus what the run did with every byte it was given. */
  datatype Ledger = Ledger(
    queue: seq<Byte>,
    input: seq<Byte>,
    taken: seq<Byte>,
    takenAt: seq<nat>,
    lost: nat)

  function Start(): Ledger { Ledger([], [], [], [], 0) }

  /** Positions in the input, from `first` on. */
  function Positions(first: nat, n: nat): seq<nat> { seq(n, i requires 0 <= i => first + i) }

  /** Taking k bytes from the front of the queue. */
  function Take(l: Ledger, k: nat, first: nat): Ledger
    requires k <= |l.queue|
  {
    l.(queue := l.queue[k..], taken := l.taken + l.queue[..k], takenAt := l.takenAt + Positions(first, k))
  }

  function Apply(l: Ledger, max: nat, op: Op): Ledger {
    match op
    case Enqueue(data) =>
      var all := l.queue + data;
      l.(queue := Last(max, all), input := l.input + data, lost := l.lost + |all| - |Last(max, all)|)
    case Consume(n) =>
      var k := if n >= |l.queue| then |l.queue| else n;
      var first := if |l.input| >= |l.queue| then |l.input| - |l.queue| else 0;
      Take(l, k, first)
    case Clear => l.(queue := [], lost := l.lost + |l.queue|)
  }

  function Run(l: Ledger, max: nat, ops: seq<Op>): Ledger
    decreases |ops|
  {
    if ops == [] then l else Run(Apply(l, max, ops[0]), max, ops[1..])
  }

  /** One step of the fast form. */
  ghost predicate StoreStep(s: Store, max: nat, op: Op, t: Store, word: Width) {
    match op
    case Enqueue(data) => InRange(s) && t == EnqueueStore(s, max, data)
    case Consume(n) => n < word && t == ConsumeStore(s, n, word)
    case Clear => t == Store([], 0)
  }

  /** A run of the fast form, one store before and after every step. */
  ghost predicate StoreRun(stores: seq<Store>, max: nat, ops: seq<Op>, word: Width)
    decreases |ops|
  {
    && |stores| == |ops| + 1
    && (ops != [] ==> StoreStep(stores[0], max, ops[0], stores[1], word) && StoreRun(stores[1..], max, ops[1..], word))
  }

  predicate StepFits(s: Store, op: Op, word: Width) { op.Consume? ==> Fits(s, op.n, word) }

  /** No count of the run wraps. */
  ghost predicate NoWrap(stores: seq<Store>, ops: seq<Op>, word: Width)
    requires |stores| == |ops| + 1
    decreases |ops|
  {
    ops != [] ==> StepFits(stores[0], ops[0], word) && NoWrap(stores[1..], ops[1..], word)
  }

  /** The fast form holds, within its maximum, the bytes of the bounded sequence before and after every step. */
  ghost predicate Matches(stores: seq<Store>, l: Ledger, max: nat, ops: seq<Op>)
    requires |stores| == |ops| + 1
    decreases |ops|
  {
    && Bounded(stores[0], max) && Contents(stores[0]) == l.queue
    && (ops != [] ==> Matches(stores[1..], Apply(l, max, ops[0]), max, ops[1..]))
  }

  /** A vector is shorter than the address space. */
  ghost predicate Physical(stores: seq<Store>, word: Width) { forall i :: 0 <= i < |stores| ==> |stores[i].buffer| < word }

  lemma EnqueueStep(s: Store, l: Ledger, max: nat, data: seq<Byte>)
    requires Bounded(s, max) && Contents(s) == l.queue
    ensures Bounded(EnqueueStore(s, max, data), max)
    ensures Contents(EnqueueStore(s, max, data)) == Apply(l, max, Enqueue(data)).queue
  {
    EnqueueRefines(s, max, data);
  }

  lemma ConsumeStep(s: Store, l: Ledger, max: nat, n: nat, word: Width)
    requires InRange(s) && Contents(s) == l.queue && |s.buffer| < word && n < word
    ensures InRange(ConsumeStore(s, n, word))
    ensures Contents(ConsumeStore(s, n, word)) == Apply(l, max, Consume(n)).queue <==> Fits(s, n, word)
  {
    ConsumeRefines(s, n, word);
    assert Drop(n, l.queue) == Apply(l, max, Consume(n)).queue;
  }

  /** One step of the fast form matches one step of the bounded sequence exactly when its count does not wrap. */
  lemma StepRefines(s: Store, l: Ledger, max: nat, op: Op, t: Store, word: Width)
    requires Bounded(s, max) && Contents(s) == l.queue && |s.buffer| < word && StoreStep(s, max, op, t, word)
    ensures Bounded(t, max) && Contents(t) == Apply(l, max, op).queue <==> StepFits(s, op, word)
  {
    match op
    case Enqueue(data) => EnqueueStep(s, l, max, data);
    case Consume(n) => ConsumeStep(s, l, max, n, word);
    case Clear =>
  }

  /** Over every run the fast form holds the bytes of the bounded sequence at every step exactly when no count
      wraps. */
  lemma {:induction false} RunRefines(stores: seq<Store>, l: Ledger, max: nat, ops: seq<Op>, word: Width)
    requires StoreRun(stores, max, ops, word) && Physical(stores, word) && Bounded(stores[0], max) && Contents(stores[0]) == l.queue
    ensures Matches(stores, l, max, ops) <==> NoWrap(stores, ops, word)
    decreases |ops|
  {
    if ops != [] {
      StepRefines(stores[0], l, max, ops[0], stores[1], word);
      if StepFits(stores[0], ops[0], word) {
        assert Physical(stores[1..], word);
        RunRefines(stores[1..], Apply(l, max, ops[0]), max, ops[1..], word);
      }
    }
  }

  lemma {:induction false} MatchesToTheEnd(stores: seq<Store>, l: Ledger, max: nat, ops: seq<Op>)
    requires |stores| == |ops| + 1 && Matches(stores, l, max, ops)
    ensures Bounded(stores[|ops|], max) && Contents(stores[|ops|]) == Run(l, max, ops).queue
    decreases |ops|
  {
    if ops != [] {
      MatchesToTheEnd(stores[1..], Apply(l, max, ops[0]), max, ops[1..]);
    }
  }

  /** q is the end of the input. */
  ghost predicate EndsWith(input: seq<Byte>, q: seq<Byte>) {
    |q| <= |input| && input[|input| - |q|..] == q
  }

  /** The bytes taken stand at rising positions of the input, all before `limit`. */
  ghost predicate InOrder(taken: seq<Byte>, at: seq<nat>, input: seq<Byte>, limit: int) {
    && |at| == |taken| && limit <= |input|
    && (forall i :: 0 <= i < |at| ==> at[i] < limit)
    && (forall i, j :: 0 <= i < j < |at| ==> at[i] < at[j])
    && (forall i :: 0 <= i < |at| ==> taken[i] == input[at[i]])
  }

  ghost predicate Balanced(l: Ledger, max: nat) {
    && |l.queue| <= max
    && EndsWith(l.input, l.queue)
    && InOrder(l.taken, l.takenAt, l.input, |l.input| - |l.queue|)
    && |l.taken| + |l.queue| + l.lost == |l.input|
    && (l.lost == 0 ==> l.taken + l.queue == l.input)
  }

  lemma InOrderGrows(taken: seq<Byte>, at: seq<nat>, input: seq<Byte>, limit: int, data: seq<Byte>, limit': int)
    requires InOrder(taken, at, input, limit) && limit <= limit' <= |input + data|
    ensures InOrder(taken, at, input + data, limit')
  {
    forall i | 0 <= i < |at| ensures taken[i] == (input + data)[at[i]] {
      assert at[i] < limit;
    }
  }

  lemma InOrderTakes(taken: seq<Byte>, at: seq<nat>, input: seq<Byte>, q: seq<Byte>, k: nat)
    requires EndsWith(input, q) && InOrder(taken, at, input, |input| - |q|) && k <= |q|
    ensures InOrder(taken + q[..k], at + Positions(|input| - |q|, k), input, |input| - |q| + k)
  {
    var first := |input| - |q|;
    var more := at + Positions(first, k);
    forall i | 0 <= i < |more| ensures (taken + q[..k])[i] == input[more[i]] {
      if i >= |at| {
        assert q[i - |at|] == input[first..][i - |at|];
      }
    }
  }

  lemma EndsWithLast(max: nat, input: seq<Byte>, q: seq<Byte>, data: seq<Byte>)
    requires EndsWith(input, q)
    ensures EndsWith(input + data, q + data) && EndsWith(input + data, Last(max, q + data))
  {
    var n := |input| - |q|;
    assert (input + data)[n..] == input[n..] + data;
    var over := |q + data| - max;
    if over > 0 {
      assert (input + data)[n + over..] == (input + data)[n..][over..];
    }
  }

  lemma EnqueueBalanced(l: Ledger, max: nat, data: seq<Byte>)
    requires Balanced(l, max)
    ensures Balanced(Apply(l, max, Enqueue(data)), max)
  {
    var kept := Last(max, l.queue + data);
    LastSize(max, l.queue + data);
    EndsWithLast(max, l.input, l.queue, data);
    InOrderGrows(l.taken, l.takenAt, l.input, |l.input| - |l.queue|, data, |l.input + data| - |kept|);
    Appended(l.taken, l.queue, data);
  }

  lemma LastSize(max: nat, s: seq<Byte>)
    ensures |Last(max, s)| == if |s| > max then max else |s|
    ensures |Last(max, s)| == |s| ==> Last(max, s) == s
  {
  }

  lemma Appended(taken: seq<Byte>, q: seq<Byte>, data: seq<Byte>)
    ensures taken + (q + data) == (taken + q) + data
  {
  }

  lemma TakeBalanced(l: Ledger, max: nat, k: nat)
    requires Balanced(l, max) && k <= |l.queue|
    ensures Balanced(Take(l, k, |l.input| - |l.queue|), max)
  {
    InOrderTakes(l.taken, l.takenAt, l.input, l.queue, k);
    EndsWithRest(l.input, l.queue, k);
    TakenThenRest(l.taken, l.queue, k);
  }

  lemma ConsumeBalanced(l: Ledger, max: nat, n: nat)
    requires Balanced(l, max)
    ensures Balanced(Apply(l, max, Consume(n)), max)
  {
    TakeBalanced(l, max, if n >= |l.queue| then |l.queue| else n);
  }

  lemma EndsWithRest(input: seq<Byte>, q: seq<Byte>, k: nat)
    requires EndsWith(input, q) && k <= |q|
    ensures EndsWith(input, q[k..])
  {
    assert input[|input| - |q| + k..] == input[|input| - |q|..][k..];
  }

  lemma TakenThenRest(taken: seq<Byte>, q: seq<Byte>, k: nat)
    requires k <= |q|
    ensures (taken + q[..k]) + q[k..] == taken + q
  {
  }

  /**
   Over every run: never more than max bytes are held, they are the end of all the input, the bytes taken out
   come from rising input positions (none twice, none out of order), every byte is taken, held or lost, and
   taken followed by held is the whole input exactly when nothing was lost.
   */
  lemma {:induction false} RunBalanced(l: Ledger, max: nat, ops: seq<Op>)
    requires Balanced(l, max)
    ensures Balanced(Run(l, max, ops), max)
    ensures var r := Run(l, max, ops); r.taken + r.queue == r.input <==> r.lost == 0
    decreases |ops|
  {
    if ops != [] {
      match ops[0] {
        case Enqueue(data) => EnqueueBalanced(l, max, data);
        case Consume(n) => ConsumeBalanced(l, max, n);
        case Clear => InOrderGrows(l.taken, l.takenAt, l.input, |l.input| - |l.queue|, [], |l.input|);
                      assert l.input + [] == l.input;
      }
      RunBalanced(Apply(l, max, ops[0]), max, ops[1..]);
    } else if l.taken + l.queue == l.input {
      assert |l.taken + l.queue| == |l.taken| + |l.queue|;
    }
  }

  /** From an empty queue, after any run in which no count wraps: the vector shows the last of all the input, at
      most max bytes of it, and the accounts balance. */
  lemma FreshRun(stores: seq<Store>, max: nat, ops: seq<Op>, word: Width)
    requires StoreRun(stores, max, ops, word) && Physical(stores, word) && stores[0] == Store([], 0) && NoWrap(stores, ops, word)
    ensures var r := Run(Start(), max, ops);
            && Bounded(stores[|ops|], max) && Contents(stores[|ops|]) == r.queue && EndsWith(r.input, r.queue)
            && Balanced(r, max)
            && (r.taken + r.queue == r.input <==> r.lost == 0)
  {
    RunRefines(stores, Start(), max, ops, word);
    MatchesToTheEnd(stores, Start(), max, ops);
    RunBalanced(Start(), max, ops);
  }

  // ------------------------------------------------- what each call answers

  /** Within its maximum the queue shows, after an enqueue, the data behind what it showed, less the oldest bytes above
      the maximum; after a consume that fits, what it showed less the oldest; after a clear, nothing. */
  lemma CallAnswer(s: Store, max: nat, data: seq<Byte>, n: nat, word: Width)
    requires Bounded(s, max)
    ensures var all, shown := s.buffer[s.readPos..] + data, Contents(EnqueueStore(s, max, data));
            |all| <= max ==> shown == all
    ensures var all, shown := s.buffer[s.readPos..] + data, Contents(EnqueueStore(s, max, data));
            |all| > max ==> |shown| == max && shown == all[|all| - max..]
    ensures s.readPos + n < word ==>
      var after := ConsumeStore(s, n, word);
      InRange(after) && Contents(after) == if s.readPos + n >= |s.buffer| then [] else s.buffer[s.readPos + n..]
  {
    EnqueueRefines(s, max, data);
    if Fits(s, n, word) {
      ConsumeFits(s, n, word);
    }
  }

  /** The accounts: what a consume takes from the front is taken; what an enqueue pushes out, or a clear drops, is lost. */
  lemma LedgerAnswer(l: Ledger, max: nat, data: seq<Byte>, n: nat)
    requires Balanced(l, max)
    ensures var after := Apply(l, max, Consume(n));
            && after.taken == l.taken + (if n >= |l.queue| then l.queue else l.queue[..n])
            && after.input == l.input && after.lost == l.lost
    ensures var after := Apply(l, max, Enqueue(data));
            && after.input == l.input + data && after.taken == l.taken
            && after.lost == l.lost + (if |l.queue| + |data| > max then |l.queue| + |data| - max else 0)
    ensures var after := Apply(l, max, Clear); after.lost == l.lost + |l.queue| && after.queue == [] && after.input == l.input
  {
  }

  // ---------------------------------------------------------------- storage

  /** Storage is reset at the latest when the queue is drained. */
  predicate Tidy(s: Store) { s.readPos <= |s.buffer| && (s.readPos == |s.buffer| ==> s.buffer == []) }

  /** The bytes enqueued that stay in the vector beside what it holds. */
  predicate Appends(s: Store, max: nat, n: nat) {
    (s.buffer == [] && n <= max) || (s.readPos < |s.buffer| && n < max)
  }

  /** An enqueue of some data grows the vector by exactly that data if it is empty and the data fits, or unread bytes
      remain and the data is shorter than the maximum; otherwise the vector holds the kept data alone. */
  lemma EnqueueGrows(s: Store, max: nat, data: seq<Byte>)
    requires Bounded(s, max) && data != []
    ensures |EnqueueStore(s, max, data).buffer| == |s.buffer| + |data| <==> Appends(s, max, |data|)
    ensures !Appends(s, max, |data|) ==> |EnqueueStore(s, max, data).buffer| == if |data| > max then max else |data|
  {
  }

  /** The length of the vector after a step, from its length and that of the queue: what was enqueued since the queue
      was last empty or overrun by data as long as the maximum. */
  function Vector(length: nat, queued: nat, max: nat, op: Op): nat {
    match op
    case Enqueue(data) =>
      if queued == 0 || (|data| >= max && data != []) then if |data| > max then max else |data|
      else length + |data|
    case Consume(n) => if n >= queued then 0 else length
    case Clear => 0
  }

  function VectorRun(length: nat, l: Ledger, max: nat, ops: seq<Op>): nat
    decreases |ops|
  {
    if ops == [] then length
    else VectorRun(Vector(length, |l.queue|, max, ops[0]), Apply(l, max, ops[0]), max, ops[1..])
  }

  lemma EnqueueVector(s: Store, max: nat, data: seq<Byte>)
    requires Bounded(s, max) && Tidy(s)
    ensures var t := EnqueueStore(s, max, data);
            Tidy(t) && |t.buffer| == Vector(|s.buffer|, |Contents(s)|, max, Enqueue(data))
  {
    if data == [] {
      assert EnqueueStore(s, max, data) == s;
    } else {
      EnqueueGrows(s, max, data);
      EnqueueRefines(s, max, data);
    }
  }

  lemma StepVector(s: Store, max: nat, op: Op, t: Store, word: Width)
    requires Bounded(s, max) && Tidy(s) && StoreStep(s, max, op, t, word) && StepFits(s, op, word)
    ensures Tidy(t) && |t.buffer| == Vector(|s.buffer|, |Contents(s)|, max, op)
  {
    match op
    case Enqueue(data) => EnqueueVector(s, max, data);
    case Consume(n) =>
    case Clear =>
  }

  lemma FittingConsume(s: Store, l: Ledger, max: nat, n: nat, word: Width)
    requires Bounded(s, max) && Contents(s) == l.queue && Fits(s, n, word)
    ensures Bounded(ConsumeStore(s, n, word), max) && Contents(ConsumeStore(s, n, word)) == Apply(l, max, Consume(n)).queue
  {
    ConsumeFits(s, n, word);
    assert Drop(n, l.queue) == Apply(l, max, Consume(n)).queue;
  }

  /** A step whose count does not wrap, on a vector of any length. */
  lemma FittingStep(s: Store, l: Ledger, max: nat, op: Op, t: Store, word: Width)
    requires Bounded(s, max) && Contents(s) == l.queue && StoreStep(s, max, op, t, word) && StepFits(s, op, word)
    ensures Bounded(t, max) && Contents(t) == Apply(l, max, op).queue
  {
    match op
    case Enqueue(data) => EnqueueStep(s, l, max, data);
    case Consume(n) => FittingConsume(s, l, max, n, word);
    case Clear =>
  }

  /** Over every run the vector is exactly as long as the bytes enqueued since the queue was last reset. */
  lemma {:induction false} RunVector(stores: seq<Store>, l: Ledger, max: nat, ops: seq<Op>, word: Width)
    requires StoreRun(stores, max, ops, word) && NoWrap(stores, ops, word)
    requires Bounded(stores[0], max) && Tidy(stores[0]) && Contents(stores[0]) == l.queue
    ensures |stores[|ops|].buffer| == VectorRun(|stores[0].buffer|, l, max, ops)
    decreases |ops|
  {
    if ops != [] {
      FittingStep(stores[0], l, max, ops[0], stores[1], word);
      StepVector(stores[0], max, ops[0], stores[1], word);
      RunVector(stores[1..], Apply(l, max, ops[0]), max, ops[1..], word);
    }
  }

  /** A run from an empty queue in which no count wraps. */
  ghost predicate Reached(stores: seq<Store>, max: nat, ops: seq<Op>, word: Width) {
    StoreRun(stores, max, ops, word) && Physical(stores, word) && NoWrap(stores, ops, word) && stores[0] == Store([], 0)
  }

  lemma {:induction false} SmallVector(length: nat, l: Ledger, max: nat, ops: seq<Op>)
    requires max <= 1 && length <= max
    ensures VectorRun(length, l, max, ops) <= max
    decreases |ops|
  {
    if ops != [] {
      SmallVector(Vector(length, |l.queue|, max, ops[0]), Apply(l, max, ops[0]), max, ops[1..]);
    }
  }

  function Singles(n: nat): seq<Op> { seq(n, _ => Enqueue([0])) }

  /** n single bytes enqueued and none consumed: the vector keeps them all. */
  lemma {:induction false} SinglesRun(s: Store, max: nat, n: nat, word: Width) returns (stores: seq<Store>)
    requires Bounded(s, max) && Tidy(s) && max > 1 && |s.buffer| + n < word
    ensures StoreRun(stores, max, Singles(n), word) && NoWrap(stores, Singles(n), word) && stores[0] == s
    ensures |stores[n].buffer| == |s.buffer| + n && Physical(stores, word)
    decreases n
  {
    if n == 0 {
      stores := [s];
    } else {
      var t := EnqueueStore(s, max, [0]);
      EnqueueRefines(s, max, [0]);
      EnqueueGrows(s, max, [0]);
      EnqueueVector(s, max, [0]);
      var rest := SinglesRun(t, max, n - 1, word);
      stores := [s] + rest;
      assert stores[1..] == rest && Singles(n)[1..] == Singles(n - 1);
    }
  }

  /** The content never exceeds the maximum; the vector behind it stays within a bound over all runs if and only if
      the maximum is at most one byte and the bound at least the maximum, or the address space itself is the bound. */
  lemma StorageBound(max: nat, bound: nat, word: Width)
    ensures (forall stores: seq<Store>, ops: seq<Op> | Reached(stores, max, ops, word) :: |stores[|ops|].buffer| <= bound)
       <==> (max <= 1 && max <= bound) || bound >= word - 1
  {
    if max > 1 && bound < word - 1 {
      var stores := SinglesRun(Store([], 0), max, bound + 1, word);
      assert Reached(stores, max, Singles(bound + 1), word) && |Singles(bound + 1)| == bound + 1;
    } else if max == 1 && bound == 0 {
      var t := EnqueueStore(Store([], 0), 1, [0]);
      assert t == Store([0], 0);
      var stores, ops := [Store([], 0), t], [Enqueue([0])];
      assert stores[1..] == [t] && ops[1..] == [];
      assert Reached(stores, 1, ops, word);
    }
    if max <= 1 && max <= bound {
      forall stores: seq<Store>, ops: seq<Op> | Reached(stores, max, ops, word) ensures |stores[|ops|].buffer| <= bound {
        RunVector(stores, Start(), max, ops, word);
        SmallVector(0, Start(), max, ops);
      }
    }
  }

  // ---------------------------------------------------------------- the class

  class Buffer {
    const maxSize: nat
    /** The number of values of size_t. */
    const word: Width
    var buffer: seq<Byte>
    var readPos: nat

    /** What every call keeps. */
    ghost predicate Valid()
      reads this
    {
      InRange(State()) && maxSize < word
    }

    ghost function State(): Store
      reads this
    {
      Store(buffer, readPos)
    }

    constructor (maxSize: nat, word: Width)
      requires maxSize < word
      ensures this.maxSize == maxSize && this.word == word
      ensures Valid() && Bounded(State(), maxSize) && State() == Store([], 0)
    {
      this.maxSize, this.word, buffer, readPos := maxSize, word, [], 0;
    }

    method EnqueueBytes(input: seq<Byte>)
      requires Valid() && |buffer| < word
      modifies this
      ensures Valid() && State() == EnqueueStore(old(State()), maxSize, input)
      ensures Contents(State()) == Last(maxSize, old(Contents(State())) + input)
         <==> Bounded(old(State()), maxSize) || |input| > maxSize
      ensures Bounded(old(State()), maxSize) ==> Bounded(State(), maxSize)
    {
      EnqueueExactly(State(), maxSize, input);
      var data, length := input, |input|;
      if readPos > 0 && readPos == |buffer| {
        buffer, readPos := [], 0;
      }
      if length > maxSize {
        data := data[length - maxSize..];
        length := maxSize;
        buffer, readPos := [], 0;
      }
      Discard(length);
      buffer := buffer + data;
    }

    /** Discard old data if needed to make room. */
    method Discard(length: nat)
      requires Valid() && |buffer| < word && length <= maxSize
      modifies this
      ensures State() == MakeRoom(old(State()), maxSize, length)
    {
      RoomWraps(|buffer| - readPos, maxSize, length, word);
      var available := (maxSize - (|buffer| - readPos)) % word;
      if length > available {
        readPos := readPos + (length - available);
        if readPos >= |buffer| {
          buffer, readPos := [], 0;
        }
      }
    }

    method Peek() returns (r: seq<Byte>)
      requires Valid()
      ensures r == Contents(State())
    {
      if readPos >= |buffer| {
        return [];
      }
      r := buffer[readPos..];
    }

    /** Drops the oldest min(n, size) bytes unless the read position wraps; then it moves back. */
    method ConsumeBytes(n: nat)
      requires Valid() && |buffer| < word && n < word
      modifies this
      ensures Valid() && State() == ConsumeStore(old(State()), n, word)
      ensures Fits(old(State()), n, word) && Bounded(old(State()), maxSize) ==> Bounded(State(), maxSize)
      ensures Contents(State()) == Drop(n, old(Contents(State()))) <==> Fits(old(State()), n, word)
    {
      ConsumeRefines(State(), n, word);
      readPos := SizeSum(readPos, n, word);
      if readPos > |buffer| {
        readPos := |buffer|;
      }
      if readPos == |buffer| {
        buffer, readPos := [], 0;
      }
    }

    method ClearAll()
      requires Valid()
      modifies this
      ensures Valid() && Bounded(State(), maxSize) && State() == Store([], 0)
    {
      buffer, readPos := [], 0;
    }
  }
}
