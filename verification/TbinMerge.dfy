/**
 Replay of several time-stamped recordings as one stream (the non-realtime path): a k-way merge
 through a min-first heap that holds the next entry of every source.
 */
module TbinMerge {

  datatype Message = Message(timestamp: int, data: seq<int>)

  /** A recording: its messages, the shift added to its timestamps, and whether its file opens. */
  datatype Source = Source(messages: seq<Message>, shift: int, opens: bool)

  datatype Delivery = Delivery(reader: nat, message: Message)

  function Contents(s: Source): seq<Message> {
    if s.opens then s.messages else []
  }

  function Time(s: Source, m: Message): int { m.timestamp + s.shift }

  /** A stop time of zero or less means none. */
  predicate PastStop(stop: int, time: int) { stop > 0 && time > stop }

  // ----------------------------------------------------------- the reference

  /** What of reader r is in the log, in log order. */
  function Taken(log: seq<Delivery>, r: nat): seq<Message> {
    if log == [] then []
    else
      var last := log[|log| - 1];
      Taken(log[..|log| - 1], r) + (if last.reader == r then [last.message] else [])
  }

  predicate HasHead(sources: seq<Source>, log: seq<Delivery>, r: nat) {
    r < |sources| && |Taken(log, r)| < |Contents(sources[r])|
  }

  function Head(sources: seq<Source>, log: seq<Delivery>, r: nat): Message
    requires HasHead(sources, log, r)
  {
    Contents(sources[r])[|Taken(log, r)|]
  }

  function HeadTime(sources: seq<Source>, log: seq<Delivery>, r: nat): int
    requires HasHead(sources, log, r)
  {
    Time(sources[r], Head(sources, log, r))
  }

  /** d is an earliest message not yet taken, and not past the stop time. */
  ghost predicate Picks(sources: seq<Source>, stop: int, log: seq<Delivery>, d: Delivery) {
    && HasHead(sources, log, d.reader)
    && d.message == Head(sources, log, d.reader)
    && !PastStop(stop, HeadTime(sources, log, d.reader))
    && forall q | 0 <= q < |sources| && HasHead(sources, log, q) ::
         HeadTime(sources, log, d.reader) <= HeadTime(sources, log, q)
  }

  ghost predicate MergeRun(sources: seq<Source>, stop: int, log: seq<Delivery>) {
    log != [] ==>
      MergeRun(sources, stop, log[..|log| - 1]) && Picks(sources, stop, log[..|log| - 1], log[|log| - 1])
  }

  /** Nothing is left that may still be delivered. */
  ghost predicate Complete(sources: seq<Source>, stop: int, log: seq<Delivery>) {
    forall q | 0 <= q < |sources| && HasHead(sources, log, q) :: PastStop(stop, HeadTime(sources, log, q))
  }

  // ------------------------------------------------------------- the results

  lemma TakenSnoc(log: seq<Delivery>, d: Delivery, r: nat)
    ensures Taken(log + [d], r) == Taken(log, r) + (if d.reader == r then [d.message] else [])
  {
    assert (log + [d])[..|log|] == log;
  }

  /** Each source's messages are taken from its front, in order, and none past the stop time. */
  lemma {:induction false} TakenIsPrefix(sources: seq<Source>, stop: int, log: seq<Delivery>, r: nat)
    requires MergeRun(sources, stop, log) && r < |sources|
    ensures Taken(log, r) <= (if sources[r].opens then sources[r].messages else [])
    ensures forall i :: 0 <= i < |Taken(log, r)| ==> !(stop > 0 && Taken(log, r)[i].timestamp + sources[r].shift > stop)
  {
    if log != [] {
      TakenIsPrefix(sources, stop, log[..|log| - 1], r);
    }
  }

  /** The longest prefix without a message past the stop time. */
  function Until(s: Source, stop: int, ms: seq<Message>): seq<Message> {
    if ms == [] || (stop > 0 && ms[0].timestamp + s.shift > stop) then [] else [ms[0]] + Until(s, stop, ms[1..])
  }

  lemma {:induction false} UntilUnique(s: Source, stop: int, ms: seq<Message>, k: nat)
    requires k <= |ms|
    requires forall i :: 0 <= i < k ==> !PastStop(stop, Time(s, ms[i]))
    requires k < |ms| ==> PastStop(stop, Time(s, ms[k]))
    ensures Until(s, stop, ms) == ms[..k]
  {
    if k > 0 {
      UntilUnique(s, stop, ms[1..], k - 1);
      assert ms[..k] == [ms[0]] + ms[1..][..k - 1];
    }
  }

  /** A complete replay takes from every source exactly its messages up to the first past the stop. */
  lemma NothingLostOrRepeated(sources: seq<Source>, stop: int, log: seq<Delivery>, r: nat)
    requires MergeRun(sources, stop, log) && Complete(sources, stop, log) && r < |sources|
    ensures Taken(log, r) == Until(sources[r], stop, if sources[r].opens then sources[r].messages else [])
    ensures stop <= 0 ==> Taken(log, r) == if sources[r].opens then sources[r].messages else []
  {
    TakenIsPrefix(sources, stop, log, r);
    var ms, k := Contents(sources[r]), |Taken(log, r)|;
    assert Taken(log, r) == ms[..k];
    assert k < |ms| ==> HasHead(sources, log, r);
    UntilUnique(sources[r], stop, ms, k);
  }

  lemma {:induction false} ReadersInRange(sources: seq<Source>, stop: int, log: seq<Delivery>, i: nat)
    requires MergeRun(sources, stop, log) && i < |log|
    ensures log[i].reader < |sources|
  {
    if i < |log| - 1 {
      ReadersInRange(sources, stop, log[..|log| - 1], i);
    }
  }

  ghost predicate Ordered(s: Source, ms: seq<Message>) {
    forall i, j :: 0 <= i < j < |ms| ==> ms[i].timestamp + s.shift <= ms[j].timestamp + s.shift
  }

  function DeliveryTime(sources: seq<Source>, d: Delivery): int {
    if d.reader < |sources| then Time(sources[d.reader], d.message) else 0
  }

  ghost predicate OrderedLog(sources: seq<Source>, log: seq<Delivery>) {
    forall i, j :: 0 <= i < j < |log| && log[i].reader < |sources| && log[j].reader < |sources| ==>
      log[i].message.timestamp + sources[log[i].reader].shift <= log[j].message.timestamp + sources[log[j].reader].shift
  }

  /** A message is never delivered before the one just delivered, if its own source is in order. */
  lemma NextNotEarlier(sources: seq<Source>, stop: int, log: seq<Delivery>)
    requires MergeRun(sources, stop, log) && |log| >= 2
    requires Ordered(sources[log[|log| - 1].reader], Taken(log, log[|log| - 1].reader))
    ensures DeliveryTime(sources, log[|log| - 2]) <= DeliveryTime(sources, log[|log| - 1])
  {
    var n := |log|;
    var front, last := log[..n - 1], log[n - 1];
    var before, previous := front[..n - 2], front[n - 2];
    var r := last.reader;
    assert MergeRun(sources, stop, front) && Picks(sources, stop, front, last);
    assert Picks(sources, stop, before, previous);
    if previous.reader == r {
      var taken := Taken(log, r);
      assert taken == Taken(before, r) + [previous.message] + [last.message];
      assert taken[|taken| - 2] == previous.message && taken[|taken| - 1] == last.message;
    } else {
      assert Taken(front, r) == Taken(before, r);
      assert HasHead(sources, before, r);
    }
  }

  lemma OrderedPrefix(sources: seq<Source>, log: seq<Delivery>, r: nat)
    requires log != [] && r < |sources| && Ordered(sources[r], Taken(log, r))
    ensures Ordered(sources[r], Taken(log[..|log| - 1], r))
  {
    assert Taken(log[..|log| - 1], r) <= Taken(log, r);
  }

  lemma {:induction false} SortedSourcesSortedLog(sources: seq<Source>, stop: int, log: seq<Delivery>)
    requires MergeRun(sources, stop, log)
    requires forall r :: 0 <= r < |sources| ==> Ordered(sources[r], Taken(log, r))
    ensures OrderedLog(sources, log)
  {
    if |log| >= 2 {
      var n := |log|;
      forall r | 0 <= r < |sources| ensures Ordered(sources[r], Taken(log[..n - 1], r)) {
        OrderedPrefix(sources, log, r);
      }
      SortedSourcesSortedLog(sources, stop, log[..n - 1]);
      ReadersInRange(sources, stop, log, n - 1);
      OrderedNext(sources, stop, log);
    }
  }

  lemma OrderedNext(sources: seq<Source>, stop: int, log: seq<Delivery>)
    requires MergeRun(sources, stop, log) && |log| >= 2 && log[|log| - 1].reader < |sources|
    requires Ordered(sources[log[|log| - 1].reader], Taken(log, log[|log| - 1].reader)) && OrderedLog(sources, log[..|log| - 1])
    ensures OrderedLog(sources, log)
  {
    var n := |log|;
    NextNotEarlier(sources, stop, log);
    AllInRange(sources, stop, log);
    OrderedSnoc(sources, log[..n - 1], log[n - 1]);
    assert log[..n - 1] + [log[n - 1]] == log;
  }

  lemma AllInRange(sources: seq<Source>, stop: int, log: seq<Delivery>)
    requires MergeRun(sources, stop, log)
    ensures forall i :: 0 <= i < |log| ==> log[i].reader < |sources|
  {
    forall i | 0 <= i < |log| ensures log[i].reader < |sources| {
      ReadersInRange(sources, stop, log, i);
    }
  }

  lemma OrderedSnoc(sources: seq<Source>, front: seq<Delivery>, last: Delivery)
    requires front != [] && OrderedLog(sources, front)
    requires last.reader < |sources| && forall i :: 0 <= i < |front| ==> front[i].reader < |sources|
    requires DeliveryTime(sources, front[|front| - 1]) <= DeliveryTime(sources, last)
    ensures OrderedLog(sources, front + [last])
  {
    forall i | 0 <= i < |front| ensures DeliveryTime(sources, front[i]) <= DeliveryTime(sources, last) {
      if i < |front| - 1 {
        assert DeliveryTime(sources, front[i]) <= DeliveryTime(sources, front[|front| - 1]);
      }
    }
  }

  /** Where the i-th message taken from reader r stands in the log. */
  lemma {:induction false} TakenPosition(log: seq<Delivery>, r: nat, i: nat) returns (p: nat)
    requires i < |Taken(log, r)|
    ensures p < |log| && log[p] == Delivery(r, Taken(log, r)[i])
    ensures |Taken(log[..p], r)| == i
  {
    var n := |log| - 1;
    if i < |Taken(log[..n], r)| {
      p := TakenPosition(log[..n], r, i);
      assert log[..n][..p] == log[..p];
    } else {
      p := n;
    }
  }

  lemma {:induction false} TakenGrows(log: seq<Delivery>, r: nat, q: nat, p: nat)
    requires q <= p <= |log|
    ensures |Taken(log[..q], r)| <= |Taken(log[..p], r)|
    decreases p
  {
    if q < p {
      TakenGrows(log, r, q, p - 1);
      assert log[..p][..p - 1] == log[..p - 1];
    }
  }

  lemma SortedLogSortedTaken(sources: seq<Source>, log: seq<Delivery>, r: nat)
    requires OrderedLog(sources, log) && r < |sources|
    ensures Ordered(sources[r], Taken(log, r))
  {
    forall i, j | 0 <= i < j < |Taken(log, r)|
      ensures Time(sources[r], Taken(log, r)[i]) <= Time(sources[r], Taken(log, r)[j])
    {
      var p := TakenPosition(log, r, i);
      var q := TakenPosition(log, r, j);
      if q <= p {
        TakenGrows(log, r, q, p);
      }
      assert DeliveryTime(sources, log[p]) <= DeliveryTime(sources, log[q]);
    }
  }

  /** The replay is globally ordered by shifted time exactly when what it takes from each source is. */
  lemma ReplayOrdered(sources: seq<Source>, stop: int, log: seq<Delivery>)
    requires MergeRun(sources, stop, log)
    ensures OrderedLog(sources, log) <==> forall r :: 0 <= r < |sources| ==> Ordered(sources[r], Taken(log, r))
  {
    if forall r :: 0 <= r < |sources| ==> Ordered(sources[r], Taken(log, r)) {
      SortedSourcesSortedLog(sources, stop, log);
    }
    if OrderedLog(sources, log) {
      forall r | 0 <= r < |sources| ensures Ordered(sources[r], Taken(log, r)) {
        SortedLogSortedTaken(sources, log, r);
      }
    }
  }

  /** The first k messages of a recording are those at or before the stop time. */
  ghost predicate UpToStop(s: Source, stop: int, k: nat) {
    forall i :: 0 <= i < |s.messages| ==> (i < k <==> !(stop > 0 && s.messages[i].timestamp + s.shift > stop))
  }

  lemma SortedTaken(sources: seq<Source>, stop: int, log: seq<Delivery>, r: nat)
    requires MergeRun(sources, stop, log) && Complete(sources, stop, log) && r < |sources|
    requires sources[r].opens && Ordered(sources[r], sources[r].messages)
    ensures Ordered(sources[r], Taken(log, r)) && UpToStop(sources[r], stop, |Taken(log, r)|)
  {
    TakenIsPrefix(sources, stop, log, r);
    var ms, k := sources[r].messages, |Taken(log, r)|;
    assert k < |ms| ==> HasHead(sources, log, r) && PastStop(stop, HeadTime(sources, log, r));
    assert forall i :: 0 <= i < k ==> Taken(log, r)[i] == ms[i];
  }

  /** From time-sorted sources a complete replay delivers exactly the messages at or before the stop
      time, in global time order. */
  lemma SortedReplay(sources: seq<Source>, stop: int, log: seq<Delivery>)
    requires MergeRun(sources, stop, log) && Complete(sources, stop, log)
    requires forall r :: 0 <= r < |sources| && sources[r].opens ==> Ordered(sources[r], sources[r].messages)
    ensures OrderedLog(sources, log)
    ensures forall r :: 0 <= r < |sources| && sources[r].opens ==> UpToStop(sources[r], stop, |Taken(log, r)|)
  {
    forall r | 0 <= r < |sources|
      ensures Ordered(sources[r], Taken(log, r))
      ensures sources[r].opens ==> UpToStop(sources[r], stop, |Taken(log, r)|)
    {
      TakenIsPrefix(sources, stop, log, r);
      if sources[r].opens {
        SortedTaken(sources, stop, log, r);
      }
    }
    ReplayOrdered(sources, stop, log);
  }

  // --------------------------------------------------------------- the class

  /** Messages with data are passed to the callback; empty ones are taken but not passed on. */
  function Invoked(log: seq<Delivery>): seq<Delivery> {
    if log == [] then []
    else
      var last := log[|log| - 1];
      Invoked(log[..|log| - 1]) + (if last.message.data != [] then [last] else [])
  }

  /** Passing on goes message by message: those with data, in order, and no others. */
  lemma {:induction false} InvokedConcat(a: seq<Delivery>, b: seq<Delivery>)
    ensures Invoked(a + b) == Invoked(a) + Invoked(b)
    decreases |b|
  {
    if b == [] {
      assert a + b == a;
    } else {
      InvokedConcat(a, b[..|b| - 1]);
      assert (a + b)[..|a + b| - 1] == a + b[..|b| - 1];
    }
  }

  lemma InvokedOne(d: Delivery)
    ensures Invoked([d]) == if d.message.data == [] then [] else [d]
  {
    assert [d][..0] == [];
  }

  lemma {:induction false} LeastReader(heap: map<nat, int>) returns (r: nat)
    requires heap != map[]
    ensures r in heap && forall q | q in heap :: heap[r] <= heap[q]
    decreases |heap|
  {
    r :| r in heap;
    var first, rest := r, heap - {r};
    if rest != map[] {
      assert |rest.Keys| < |heap.Keys|;
      var s := LeastReader(rest);
      if heap[s] < heap[r] {
        r := s;
      }
      forall q | q in heap ensures heap[r] <= heap[q] {
        assert q in rest || q == first;
      }
    }
  }

  function Total(left: seq<seq<Message>>): nat {
    if left == [] then 0 else |left[0]| + Total(left[1..])
  }

  lemma {:induction false} TotalDrops(left: seq<seq<Message>>, r: nat)
    requires r < |left| && left[r] != []
    ensures Total(left[r := left[r][1..]]) == Total(left) - 1
  {
    if r == 0 {
      assert left[r := left[r][1..]][1..] == left[1..];
    } else {
      assert left[r := left[r][1..]][1..] == left[1..][r - 1 := left[r][1..]];
      TotalDrops(left[1..], r - 1);
    }
  }

  /** k messages of a source are taken; then comes the message read ahead, if any, then the rest. */
  ghost predicate Tracks(s: Source, k: nat, ahead: bool, pending: Message, rest: seq<Message>) {
    var ms := Contents(s);
    if ahead then k < |ms| && pending == ms[k] && rest == ms[k + 1..] else rest == [] && k == |ms|
  }

  lemma TracksNext(s: Source, k: nat, pending: Message, rest: seq<Message>)
    requires Tracks(s, k, true, pending, rest)
    ensures rest == [] ==> Tracks(s, k + 1, false, pending, [])
    ensures rest != [] ==> Tracks(s, k + 1, true, rest[0], rest[1..])
  {
  }

  /** What the merge holds: unread rests, messages read ahead, and the heap entries. */
  datatype Cursor = Cursor(readers: seq<seq<Message>>, pending: seq<Message>, heap: map<nat, int>)

  ghost predicate AllTrack(sources: seq<Source>, log: seq<Delivery>, c: Cursor) {
    && |c.readers| == |c.pending| == |sources|
    && (forall r | r in c.heap :: r < |sources| && c.heap[r] == Time(sources[r], c.pending[r]))
    && (forall r :: 0 <= r < |sources| ==> Tracks(sources[r], |Taken(log, r)|, r in c.heap, c.pending[r], c.readers[r]))
  }

  predicate InRange(c: Cursor, top: nat) { top < |c.readers| == |c.pending| }

  /** The entry of one reader is gone, and the next message, if any, is read ahead and entered. */
  function Next(c: Cursor, sources: seq<Source>, top: nat): Cursor
    requires InRange(c, top) && top < |sources|
  {
    var rest := c.readers[top];
    if rest == [] then c.(heap := c.heap - {top})
    else
      Cursor(c.readers[top := rest[1..]], c.pending[top := rest[0]], c.heap[top := Time(sources[top], rest[0])])
  }

  /** Popping an entry and reading ahead keeps track of every source. */
  lemma NextTracks(sources: seq<Source>, log: seq<Delivery>, c: Cursor, top: nat)
    requires AllTrack(sources, log, c) && top in c.heap
    ensures AllTrack(sources, log + [Delivery(top, c.pending[top])], Next(c, sources, top))
  {
    var d := Delivery(top, c.pending[top]);
    TracksNext(sources[top], |Taken(log, top)|, c.pending[top], c.readers[top]);
    forall r | 0 <= r < |sources|
      ensures |Taken(log + [d], r)| == |Taken(log, r)| + (if r == top then 1 else 0)
    {
      TakenSnoc(log, d, r);
    }
  }

  /** The first i sources have their first message read ahead, the others are untouched. */
  ghost predicate StartedTo(sources: seq<Source>, c: Cursor, i: nat) {
    && |c.readers| == |c.pending| == |sources|
    && (forall r | r in c.heap :: r < i && r < |sources| && c.heap[r] == Time(sources[r], c.pending[r]))
    && (forall r :: 0 <= r < i && r < |sources| ==> Tracks(sources[r], 0, r in c.heap, c.pending[r], c.readers[r]))
    && (forall r :: i <= r < |sources| ==> c.readers[r] == Contents(sources[r]))
  }

  lemma StartNext(sources: seq<Source>, c: Cursor, i: nat)
    requires StartedTo(sources, c, i) && i < |sources|
    ensures StartedTo(sources, Next(c, sources, i), i + 1)
  {
  }

  function Left(c: Cursor): nat { Total(c.readers) + |c.heap| }

  lemma NextShrinks(sources: seq<Source>, c: Cursor, top: nat)
    requires InRange(c, top) && top < |sources| && top in c.heap
    ensures Left(Next(c, sources, top)) < Left(c)
  {
    if c.readers[top] == [] {
      assert |c.heap.Keys - {top}| == |c.heap.Keys| - 1;
    } else {
      TotalDrops(c.readers, top);
      assert c.heap.Keys + {top} == c.heap.Keys;
    }
  }

  /** An earliest entry that is not past the stop time is a pick of the reference. */
  lemma TopIsPick(sources: seq<Source>, stop: int, log: seq<Delivery>, c: Cursor, top: nat)
    requires AllTrack(sources, log, c) && top in c.heap && !PastStop(stop, c.heap[top])
    requires forall q | q in c.heap :: c.heap[top] <= c.heap[q]
    ensures Picks(sources, stop, log, Delivery(top, c.pending[top]))
  {
    assert Tracks(sources[top], |Taken(log, top)|, true, c.pending[top], c.readers[top]);
    forall q | 0 <= q < |sources| && HasHead(sources, log, q)
      ensures HeadTime(sources, log, top) <= HeadTime(sources, log, q)
    {
      assert Tracks(sources[q], |Taken(log, q)|, q in c.heap, c.pending[q], c.readers[q]);
    }
  }

  /** Nothing in the heap before the stop time: the run is complete. */
  lemma NothingLeft(sources: seq<Source>, stop: int, log: seq<Delivery>, c: Cursor)
    requires AllTrack(sources, log, c) && forall r | r in c.heap :: PastStop(stop, c.heap[r])
    ensures Complete(sources, stop, log)
  {
    forall q | 0 <= q < |sources| && HasHead(sources, log, q)
      ensures PastStop(stop, HeadTime(sources, log, q))
    {
      assert Tracks(sources[q], |Taken(log, q)|, q in c.heap, c.pending[q], c.readers[q]);
    }
  }

  lemma MergeRunSnoc(sources: seq<Source>, stop: int, log: seq<Delivery>, d: Delivery)
    requires MergeRun(sources, stop, log) && Picks(sources, stop, log, d)
    ensures MergeRun(sources, stop, log + [d])
  {
    assert (log + [d])[..|log|] == log;
  }

  lemma AppendAssociates(a: seq<Delivery>, b: seq<Delivery>, d: Delivery)
    ensures a + (b + [d]) == (a + b) + [d]
  {
  }

  lemma InvokedSnoc(log: seq<Delivery>, d: Delivery)
    ensures Invoked(log + [d]) == Invoked(log) + (if d.message.data != [] then [d] else [])
  {
    assert (log + [d])[..|log|] == log;
  }

  class TbinInput {
    const sources: seq<Source>
    const stop: int
    /** What each reader has not read yet, and the message read ahead from it. */
    var readers: seq<seq<Message>>
    var pending: seq<Message>
    /** The heap entries: the shifted time of the pending message of every reader that has one. */
    var heap: map<nat, int>
    ghost var log: seq<Delivery>

    ghost function Value(): Cursor
      reads this
    {
      Cursor(readers, pending, heap)
    }

    ghost predicate Valid()
      reads this
    {
      AllTrack(sources, log, Value()) && MergeRun(sources, stop, log)
    }

    constructor (sources: seq<Source>, stop: int)
      ensures Valid() && log == [] && this.sources == sources && this.stop == stop
    {
      this.sources, this.stop := sources, stop;
      readers := seq(|sources|, i requires 0 <= i < |sources| => Contents(sources[i]));
      pending := seq(|sources|, _ => Message(0, []));
      heap := map[];
      log := [];
      new;
      var i := 0;
      while i < |sources|
        invariant 0 <= i <= |sources| && log == [] && StartedTo(sources, Value(), i)
      {
        StartNext(sources, Value(), i);
        ReadAhead(i);
        i := i + 1;
      }
    }

    /** The reader has no entry in the heap; read its next message and enter it. */
    method ReadAhead(r: nat)
      requires InRange(Value(), r) && r < |sources|
      modifies `readers, `pending, `heap
      ensures Value() == Next(old(Value()), sources, r)
    {
      heap := heap - {r};
      if readers[r] != [] {
        pending := pending[r := readers[r][0]];
        readers := readers[r := readers[r][1..]];
        heap := heap[r := Time(sources[r], pending[r])];
      }
      assert readers == Next(old(Value()), sources, r).readers;
    }

    /** Some entry with the least time; ties may fall either way. */
    method Top() returns (top: nat)
      requires heap != map[]
      ensures top in heap && forall q | q in heap :: heap[top] <= heap[q]
    {
      ghost var least := LeastReader(heap);
      top :| top in heap && forall q | q in heap :: heap[top] <= heap[q];
    }

    /** Deliver until every source is exhausted or past the stop time. */
    method DeliverNext() returns (invoked: seq<Delivery>, ghost taken: seq<Delivery>)
      requires Valid()
      modifies this
      ensures Valid() && Complete(sources, stop, log)
      ensures log == old(log) + taken && invoked == Invoked(taken)
    {
      invoked, taken := [], [];
      while heap != map[]
        invariant Valid() && log == old(log) + taken && invoked == Invoked(taken)
        decreases Left(Value())
      {
        var top := Top();
        if stop > 0 && heap[top] > stop {
          break;
        }
        var d := Delivery(top, pending[top]);
        if d.message.data != [] {
          invoked := invoked + [d];
        }
        InvokedSnoc(taken, d);
        AppendAssociates(old(log), taken, d);
        taken := taken + [d];
        Advance(top);
      }
      NothingLeft(sources, stop, log, Value());
    }

    /** Pop the top entry and read ahead in its source. */
    method Advance(top: nat)
      requires Valid() && top in heap && !PastStop(stop, heap[top])
      requires forall q | q in heap :: heap[top] <= heap[q]
      modifies this
      ensures Valid() && log == old(log) + [Delivery(top, old(pending[top]))]
      ensures Left(Value()) < old(Left(Value()))
    {
      ghost var d := Delivery(top, pending[top]);
      TopIsPick(sources, stop, log, Value(), top);
      MergeRunSnoc(sources, stop, log, d);
      NextTracks(sources, log, Value(), top);
      NextShrinks(sources, Value(), top);
      ReadAhead(top);
      log := log + [d];
    }
  }
}
