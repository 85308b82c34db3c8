/**
 The transaction tables of an LPP session: the handle map, the wire lookup, the generation and
 sequence counters, under any interleaving of create, send, receive and end.
 Transaction numbers and endTransaction follow sections 4.1.2 and 4.3.2 of 3GPP TS 37.355.
 */
module LppTransactions {
  import opened Basics

  datatype Initiator = TargetDevice | LocationServer

  /** A wire transaction id. */
  datatype Key = Key(id: int, initiator: Initiator)

  /** The generation tells apart transactions that reuse one of the 256 numbers. */
  datatype Handle = Invalid | Handle(key: Key, generation: int)

  datatype Data = Data(clientHasSentEnd: bool, serverHasSentEnd: bool, clientShouldSendEnd: bool, singleSideEndable: bool)

  /** An outgoing message; `attempt` counts every message numbered so far, sent or not. */
  datatype Wire = Wire(handle: Handle, end: bool, number: int, attempt: nat)

  /** What the SUPL side does with an outgoing POS. */
  datatype Link = NoSession | Accepts | Refuses

  /** The fields of a decoded LPP message that the tables depend on. */
  datatype Incoming = Incoming(transaction: Option<Key>, hasBody: bool, end: bool)

  datatype Tables = Tables(
    transactions: map<Handle, Data>, lookup: map<Key, Handle>, clientIds: set<int>,
    nextId: int, nextGeneration: int, sequence: nat, queue: seq<Wire>)

  const EMPTY := Tables(map[], map[], {}, 1, 1, 0, [])

  // ------------------------------------------------------------- operations

  function Number(base: int, offset: nat): int { (base + offset) % 256 }

  /** Offset of the first number not in use among the 255 tried; 255 if there is none. */
  function FirstUnused(used: set<int>, base: int, i: nat): (r: nat)
    requires i <= 255
    ensures i <= r <= 255
    ensures r < 255 ==> Number(base, r) !in used
    ensures forall j :: i <= j < r ==> Number(base, j) in used
    decreases 255 - i
  {
    if i == 255 || Number(base, i) !in used then i else FirstUnused(used, base, i + 1)
  }

  function Allocate(t: Tables): (Tables, Handle) {
    var i := FirstUnused(t.clientIds, t.nextId, 0);
    if i == 255 then (t, Invalid)
    else
      var id := Number(t.nextId, i);
      (t.(nextId := (id + 1) % 256, nextGeneration := t.nextGeneration + 1),
       Handle(Key(id, TargetDevice), t.nextGeneration))
  }

  function Add(t: Tables, h: Handle, singleSideEndable: bool): (Tables, bool)
    requires h.Handle?
  {
    if h.key.id < 0 || h.key.id > 255 || h in t.transactions then (t, false)
    else
      (t.(lookup := t.lookup[h.key := h],
          transactions := t.transactions[h := Data(false, false, false, singleSideEndable)]), true)
  }

  function Create(t: Tables, singleSideEndable: bool): (Tables, Handle) {
    var (t1, h) := Allocate(t);
    if h.Invalid? then (t1, Invalid)
    else
      var (t2, added) := Add(t1, h, singleSideEndable);
      (t2, if added then h else Invalid)
  }

  /** As written, a client end alone satisfies "ended by both". */
  predicate Removable(d: Data) {
    || (d.clientHasSentEnd && d.clientHasSentEnd)
    || (d.singleSideEndable && (d.clientHasSentEnd || d.serverHasSentEnd))
  }

  function Remove(t: Tables, h: Handle): Tables {
    if h.Handle? && h in t.transactions && Removable(t.transactions[h]) then
      t.(lookup := t.lookup - {h.key}, transactions := t.transactions - {h},
         clientIds := if h.key.initiator.TargetDevice? then t.clientIds - {h.key.id} else t.clientIds)
    else t
  }

  function ServerEnd(t: Tables, h: Handle): Tables {
    if h !in t.transactions then t
    else Remove(t.(transactions := t.transactions[h := t.transactions[h].(serverHasSentEnd := true)]), h)
  }

  function ClientEnd(t: Tables, h: Handle): Tables {
    if h !in t.transactions then t
    else Remove(t.(transactions := t.transactions[h := t.transactions[h].(clientHasSentEnd := true)]), h)
  }

  /** The live transaction a wire id reaches. */
  function Find(t: Tables, key: Key): Option<Handle> {
    if key in t.lookup && t.lookup[key] in t.transactions then Some(t.lookup[key]) else None
  }

  /** The first half of `process_lpp_payload`: the transaction the message is delivered on, if any. */
  function Deliver(t: Tables, m: Incoming): (Tables, Option<Handle>) {
    if m.transaction.None? || !m.hasBody then (t, None)
    else
      var key := m.transaction.value;
      var found := Find(t, key);
      if found.Some? || key.initiator.TargetDevice? then (t, found)
      else
        var h := Handle(key, t.nextGeneration);
        var (t1, _) := Add(t.(nextGeneration := t.nextGeneration + 1), h, true);
        (t1, Find(t1, key))
  }

  const QUEUE_LIMIT := 16

  /** `send`; `preset` says that the message already carries one of the three header fields. */
  function Send(t: Tables, h: Handle, preset: bool, encodes: bool, link: Link): (Tables, Option<Wire>) {
    if preset || h !in t.transactions || t.transactions[h].clientHasSentEnd then (t, None)
    else
      var d := t.transactions[h];
      var wire := Wire(h, d.clientShouldSendEnd, t.sequence % 255, t.sequence);
      var t1 := t.(sequence := t.sequence + 1);
      if !encodes || link.Refuses? then (t1, None)
      else
        var queue := t.queue + [wire];
        var t2 := if link.Accepts? then t1 else t1.(queue := if |queue| > QUEUE_LIMIT then [] else queue);
        var t3 := if d.clientShouldSendEnd
                  then ClientEnd(t2.(transactions := t2.transactions[h := d.(clientShouldSendEnd := false)]), h)
                  else t2;
        (t3, Some(wire))
  }

  function SendWithEnd(t: Tables, h: Handle, preset: bool, encodes: bool, link: Link): (Tables, Option<Wire>) {
    if h !in t.transactions then (t, None)
    else Send(t.(transactions := t.transactions[h := t.transactions[h].(clientShouldSendEnd := true)]), h, preset, encodes, link)
  }

  // ------------------------------------------------------------------- runs

  /** Calls in any order, with any handles: also stale ones and ones never issued. */
  datatype Step =
    | DoCreate(singleSideEndable: bool)
    | DoDelete(handle: Handle)
    | DoSend(handle: Handle, withEnd: bool, preset: bool, encodes: bool, link: Link)
    | DoDeliver(message: Incoming)
    | DoServerEnd(handle: Handle)
    | DoFlushQueue

  /** The tables with the history of the session beside them: handles given out, numbers allocated
      by the client (oldest first), messages handed to SUPL or its queue. */
  datatype World = World(tables: Tables, issued: seq<Handle>, clients: seq<Handle>, sent: seq<Wire>)

  const START := World(EMPTY, [], [], [])

  /** A message delivered, up to the end of the callback. */
  function DeliverWorld(w: World, m: Incoming): World {
    var (t', h) := Deliver(w.tables, m);
    w.(tables := t', issued := if h.Some? && h.value !in w.tables.transactions then w.issued + [h.value] else w.issued)
  }

  /** DoDeliver is the whole of `process_lpp_payload` with a callback that leaves the tables alone; one that does not
      is a message without end, the callback's own steps, and DoServerEnd. */
  function Apply(w: World, s: Step): World {
    var t := w.tables;
    match s
    case DoCreate(sse) =>
      var (t', h) := Create(t, sse);
      if h.Invalid? then w.(tables := t')
      else World(t', w.issued + [h], w.clients + [h], w.sent)
    case DoDelete(h) => w.(tables := ClientEnd(t, h))
    case DoSend(h, withEnd, preset, encodes, link) =>
      var (t', wire) := if withEnd then SendWithEnd(t, h, preset, encodes, link) else Send(t, h, preset, encodes, link);
      w.(tables := t', sent := if wire.Some? then w.sent + [wire.value] else w.sent)
    case DoDeliver(m) =>
      var w1, h := DeliverWorld(w, m), Deliver(t, m).1;
      if h.Some? && m.end then w1.(tables := ServerEnd(w1.tables, h.value)) else w1
    case DoServerEnd(h) => w.(tables := ServerEnd(t, h))
    case DoFlushQueue => w.(tables := t.(queue := []))
  }

  function Run(w: World, steps: seq<Step>): World
    decreases |steps|
  {
    if steps == [] then w else Run(Apply(w, steps[0]), steps[1..])
  }

  // -------------------------------------------------------------- invariant

  /** Handles carry ever-growing generations, all below the counter. */
  ghost predicate Generations(hs: seq<Handle>, bound: int) {
    && (forall i :: 0 <= i < |hs| ==> hs[i].Handle? && hs[i].generation < bound)
    && (forall i, j :: 0 <= i < j < |hs| ==> hs[i].generation < hs[j].generation)
  }

  /** The k-th number the client allocates is k + 1 modulo 256. */
  ghost predicate ClientNumbers(clients: seq<Handle>, t: Tables) {
    && t.clientIds == {}
    && t.nextId == (|clients| + 1) % 256
    && forall k :: 0 <= k < |clients| ==> clients[k].Handle? && clients[k].key == Key((k + 1) % 256, TargetDevice)
  }

  /** Live transactions were issued and have not been ended by the client, nor by a server that may. */
  ghost predicate LiveSound(transactions: map<Handle, Data>, issued: seq<Handle>, clients: seq<Handle>) {
    forall h | h in transactions ::
      && h in issued
      && (h.Handle? && h.key.initiator.TargetDevice? ==> h in clients)
      && !transactions[h].clientHasSentEnd
      && (transactions[h].serverHasSentEnd ==> !transactions[h].singleSideEndable)
  }

  /** Every lookup entry points to a live transaction with that number and initiator. */
  ghost predicate LookupSound(t: Tables) {
    forall key | key in t.lookup :: t.lookup[key] in t.transactions && t.lookup[key].Handle? && t.lookup[key].key == key
  }

  ghost predicate Reached(lookup: map<Key, Handle>, h: Handle) {
    h.Handle? && h.key in lookup && lookup[h.key] == h
  }

  /** Every live transaction of one initiator is reached by its own number. */
  ghost predicate AllReachable(t: Tables, initiator: Initiator) {
    forall h | h in t.transactions && h.Handle? && h.key.initiator == initiator :: Reached(t.lookup, h)
  }

  ghost predicate Numbered(sent: seq<Wire>, sequence: nat) {
    && (forall i :: 0 <= i < |sent| ==> sent[i].attempt < sequence && sent[i].number == sent[i].attempt % 255)
    && (forall i, j :: 0 <= i < j < |sent| ==> sent[i].attempt < sent[j].attempt)
  }

  /** An end message is the last of its transaction, which is then gone for good. */
  ghost predicate Ended(sent: seq<Wire>, issued: seq<Handle>, transactions: map<Handle, Data>) {
    && (forall i :: 0 <= i < |sent| ==> sent[i].handle in issued)
    && (forall i :: 0 <= i < |sent| && sent[i].end ==> sent[i].handle !in transactions)
    && (forall i, j :: 0 <= i < j < |sent| && sent[i].end ==> sent[j].handle != sent[i].handle)
  }

  ghost predicate Invariant(w: World) {
    && Generations(w.issued, w.tables.nextGeneration)
    && Generations(w.clients, w.tables.nextGeneration)
    && ClientNumbers(w.clients, w.tables)
    && LiveSound(w.tables.transactions, w.issued, w.clients)
    && LookupSound(w.tables)
    && AllReachable(w.tables, LocationServer)
    && Numbered(w.sent, w.tables.sequence)
    && Ended(w.sent, w.issued, w.tables.transactions)
  }

  lemma CreateShape(w: World, sse: bool)
    requires Invariant(w)
    ensures var h := Handle(Key(w.tables.nextId, TargetDevice), w.tables.nextGeneration);
            var w' := Apply(w, DoCreate(sse));
            && h !in w.issued && h !in w.tables.transactions
            && w'.tables == w.tables.(nextId := (w.tables.nextId + 1) % 256, nextGeneration := w.tables.nextGeneration + 1,
                                      lookup := w.tables.lookup[h.key := h],
                                      transactions := w.tables.transactions[h := Data(false, false, false, sse)])
            && w'.issued == w.issued + [h] && w'.clients == w.clients + [h] && w'.sent == w.sent
  {
    assert FirstUnused({}, w.tables.nextId, 0) == 0;
    var h := Handle(Key(w.tables.nextId, TargetDevice), w.tables.nextGeneration);
    assert h !in w.issued;
  }

  lemma GenerationsSnoc(hs: seq<Handle>, h: Handle)
    requires h.Handle? && Generations(hs, h.generation)
    ensures Generations(hs + [h], h.generation + 1) && h !in hs
  {
  }

  lemma NumbersSnoc(clients: seq<Handle>, t: Tables, h: Handle, t': Tables)
    requires ClientNumbers(clients, t) && h.Handle? && h.key == Key(t.nextId, TargetDevice)
    requires t'.clientIds == {} && t'.nextId == (t.nextId + 1) % 256
    ensures ClientNumbers(clients + [h], t')
  {
  }

  lemma LiveSoundMore(transactions: map<Handle, Data>, issued: seq<Handle>, clients: seq<Handle>, h: Handle, sse: bool)
    requires LiveSound(transactions, issued, clients)
    ensures LiveSound(transactions[h := Data(false, false, false, sse)], issued + [h], clients + [h])
  {
    assert (issued + [h])[|issued|] == h && (clients + [h])[|clients|] == h;
    assert forall x :: x in issued ==> x in issued + [h];
    assert forall x :: x in clients ==> x in clients + [h];
  }

  lemma EndedMore(sent: seq<Wire>, issued: seq<Handle>, transactions: map<Handle, Data>, h: Handle, d: Data)
    requires Ended(sent, issued, transactions) && h !in issued
    ensures Ended(sent, issued + [h], transactions[h := d])
  {
    forall i | 0 <= i < |sent| ensures sent[i].handle in issued + [h] && sent[i].handle != h {
      assert sent[i].handle in issued;
    }
  }

  /** A new client transaction takes over the lookup entry of its own number only. */
  lemma EnterKeepsLookup(t: Tables, h: Handle, d: Data, t': Tables)
    requires LookupSound(t) && AllReachable(t, LocationServer) && h.Handle? && h.key.initiator.TargetDevice?
    requires t'.lookup == t.lookup[h.key := h] && t'.transactions == t.transactions[h := d]
    ensures LookupSound(t') && AllReachable(t', LocationServer)
  {
    forall g | g in t'.transactions && g.Handle? && g.key.initiator.LocationServer? ensures Reached(t'.lookup, g) {
      assert Reached(t.lookup, g);
    }
  }

  lemma CreateKeeps(w: World, sse: bool)
    requires Invariant(w)
    ensures Invariant(Apply(w, DoCreate(sse)))
  {
    var t, w' := w.tables, Apply(w, DoCreate(sse));
    var h, d := Handle(Key(t.nextId, TargetDevice), t.nextGeneration), Data(false, false, false, sse);
    CreateShape(w, sse);
    GenerationsSnoc(w.issued, h);
    GenerationsSnoc(w.clients, h);
    LiveSoundMore(t.transactions, w.issued, w.clients, h, sse);
    EnterKeepsLookup(t, h, d, w'.tables);
    EndedMore(w.sent, w.issued, t.transactions, h, d);
    NumbersSnoc(w.clients, t, h, w'.tables);
  }

  /** What removing a live transaction does to the tables. */
  function Drop(t: Tables, h: Handle): Tables
    requires h.Handle?
  {
    t.(lookup := t.lookup - {h.key}, transactions := t.transactions - {h})
  }

  lemma DropKeepsLookup(w: World, h: Handle)
    requires Invariant(w) && h in w.tables.transactions
    ensures h.Handle? && LookupSound(Drop(w.tables, h)) && AllReachable(Drop(w.tables, h), LocationServer)
  {
    assert h in w.issued;
    var t' := Drop(w.tables, h);
    forall g | g in t'.transactions && g.Handle? && g.key.initiator.LocationServer? ensures Reached(t'.lookup, g) {
      assert Reached(w.tables.lookup, g);
    }
  }

  lemma DropKeeps(w: World, h: Handle)
    requires Invariant(w) && h in w.tables.transactions
    ensures h.Handle? && Invariant(w.(tables := Drop(w.tables, h)))
  {
    DropKeepsLookup(w, h);
  }

  /** Changing only the flags of a live transaction. */
  lemma MarkKeeps(w: World, h: Handle, d: Data)
    requires Invariant(w) && h in w.tables.transactions
    requires !d.clientHasSentEnd && (d.serverHasSentEnd ==> !d.singleSideEndable)
    ensures Invariant(w.(tables := w.tables.(transactions := w.tables.transactions[h := d])))
  {
    var t' := w.tables.(transactions := w.tables.transactions[h := d]);
    assert LookupSound(t');
  }

  /** A client end always removes; a server end removes if one side may end alone, and else marks. */
  lemma EndShape(w: World, h: Handle)
    requires Invariant(w) && h in w.tables.transactions
    ensures h.Handle? && ClientEnd(w.tables, h) == Drop(w.tables, h)
    ensures var d := w.tables.transactions[h];
            ServerEnd(w.tables, h) ==
              if d.singleSideEndable then Drop(w.tables, h)
              else w.tables.(transactions := w.tables.transactions[h := d.(serverHasSentEnd := true)])
  {
    assert h in w.issued;
    var t := w.tables;
    var d := t.transactions[h];
    assert t.transactions[h := d.(serverHasSentEnd := true)] - {h} == t.transactions - {h};
    assert t.transactions[h := d.(clientHasSentEnd := true)] - {h} == t.transactions - {h};
    assert t.clientIds - {h.key.id} == t.clientIds;
  }

  lemma EndKeeps(w: World, h: Handle)
    requires Invariant(w)
    ensures Invariant(w.(tables := ClientEnd(w.tables, h)))
    ensures Invariant(w.(tables := ServerEnd(w.tables, h)))
  {
    if h in w.tables.transactions {
      EndShape(w, h);
      DropKeeps(w, h);
      var d := w.tables.transactions[h];
      if !d.singleSideEndable {
        MarkKeeps(w, h, d.(serverHasSentEnd := true));
      }
    }
  }

  function Open(t: Tables, h: Handle): Tables
    requires h.Handle?
  {
    Add(t.(nextGeneration := t.nextGeneration + 1), h, true).0
  }

  /** A server-initiated transaction is opened only under a number no live one is reached by. */
  lemma OpenShape(w: World, key: Key)
    requires Invariant(w) && key.initiator.LocationServer? && Find(w.tables, key).None?
    ensures var h := Handle(key, w.tables.nextGeneration);
            var t' := Open(w.tables, h);
            && h !in w.issued && h !in w.tables.transactions && key !in w.tables.lookup
            && t'.nextGeneration == w.tables.nextGeneration + 1
            && (0 <= key.id <= 255 ==>
                  && Find(t', key) == Some(h) && t'.lookup == w.tables.lookup[key := h]
                  && t'.transactions == w.tables.transactions[h := Data(false, false, false, true)])
            && (!(0 <= key.id <= 255) ==>
                  Find(t', key) == None && t' == w.tables.(nextGeneration := w.tables.nextGeneration + 1))
  {
    assert Handle(key, w.tables.nextGeneration) !in w.issued;
  }

  lemma OpenKeepsLookup(w: World, key: Key)
    requires Invariant(w) && key.initiator.LocationServer? && Find(w.tables, key).None?
    ensures var t' := Open(w.tables, Handle(key, w.tables.nextGeneration));
            LookupSound(t') && AllReachable(t', LocationServer)
  {
    OpenShape(w, key);
    var h := Handle(key, w.tables.nextGeneration);
    var t' := Open(w.tables, h);
    forall g | g in t'.transactions && g.Handle? && g.key.initiator.LocationServer? ensures Reached(t'.lookup, g) {
      if g != h { assert Reached(w.tables.lookup, g); }
    }
  }

  lemma OpenKeeps(w: World, key: Key)
    requires Invariant(w) && key.initiator.LocationServer? && Find(w.tables, key).None?
    ensures var h := Handle(key, w.tables.nextGeneration);
            var t' := Open(w.tables, h);
            && (0 <= key.id <= 255 ==> Invariant(w.(tables := t', issued := w.issued + [h])))
            && (!(0 <= key.id <= 255) ==> Invariant(w.(tables := t')))
  {
    OpenShape(w, key);
    OpenKeepsLookup(w, key);
    var h := Handle(key, w.tables.nextGeneration);
    var issued := w.issued + [h];
    assert issued[|w.issued|] == h && forall x :: x in w.issued ==> x in issued;
  }

  lemma DeliverOpens(w: World, m: Incoming, h: Handle)
    requires Invariant(w) && m.transaction.Some? && m.hasBody && Find(w.tables, m.transaction.value).None?
    requires m.transaction.value.initiator.LocationServer? && h == Handle(m.transaction.value, w.tables.nextGeneration)
    ensures DeliverWorld(w, m) ==
      w.(tables := Open(w.tables, h), issued := if 0 <= h.key.id <= 255 then w.issued + [h] else w.issued)
  {
    OpenShape(w, h.key);
  }

  lemma DeliverKeeps(w: World, m: Incoming)
    requires Invariant(w)
    ensures Invariant(DeliverWorld(w, m))
  {
    if m.transaction.Some? && m.hasBody {
      var key := m.transaction.value;
      if key.initiator.LocationServer? && Find(w.tables, key).None? {
        OpenShape(w, key);
        OpenKeeps(w, key);
        var h := Handle(key, w.tables.nextGeneration);
        DeliverOpens(w, m, h);
      } else {
        assert DeliverWorld(w, m) == w;
      }
    }
  }

  lemma ReceiveKeeps(w: World, m: Incoming)
    requires Invariant(w)
    ensures Invariant(Apply(w, DoDeliver(m)))
  {
    DeliverKeeps(w, m);
    var h := Deliver(w.tables, m).1;
    if h.Some? && m.end {
      EndKeeps(DeliverWorld(w, m), h.value);
    }
  }

  /** Handing over a message numbers it and, if it carries the end, removes its transaction. */
  lemma NumberedSnoc(sent: seq<Wire>, wire: Wire)
    requires Numbered(sent, wire.attempt) && wire.number == wire.attempt % 255
    ensures Numbered(sent + [wire], wire.attempt + 1)
  {
  }

  lemma EndedSnoc(sent: seq<Wire>, issued: seq<Handle>, transactions: map<Handle, Data>, wire: Wire)
    requires Ended(sent, issued, transactions) && wire.handle in transactions && wire.handle in issued
    ensures Ended(sent + [wire], issued, if wire.end then transactions - {wire.handle} else transactions)
  {
  }

  lemma RecordKeeps(w: World, wire: Wire, queue: seq<Wire>)
    requires Invariant(w) && wire.handle in w.tables.transactions
    requires wire.attempt == w.tables.sequence && wire.number == wire.attempt % 255
    ensures wire.handle.Handle?
    ensures var t := w.tables.(sequence := w.tables.sequence + 1, queue := queue);
            Invariant(w.(tables := if wire.end then Drop(t, wire.handle) else t, sent := w.sent + [wire]))
  {
    DropKeeps(w, wire.handle);
    var t := w.tables.(sequence := w.tables.sequence + 1, queue := queue);
    var t' := if wire.end then Drop(t, wire.handle) else t;
    NumberedSnoc(w.sent, wire);
    EndedSnoc(w.sent, w.issued, w.tables.transactions, wire);
    assert AllReachable(t', LocationServer) && LookupSound(t');
  }

  /** What a send on a live transaction leaves, by whether the message is handed over. */
  lemma SendWorld(w: World, h: Handle, encodes: bool, link: Link)
    requires Invariant(w) && h in w.tables.transactions
    ensures h.Handle?
    ensures var (t, d) := (w.tables, w.tables.transactions[h]);
            var wire := Wire(h, d.clientShouldSendEnd, t.sequence % 255, t.sequence);
            var queue := Send(t, h, false, encodes, link).0.queue;
            var t1 := t.(sequence := t.sequence + 1, queue := queue);
            Apply(w, DoSend(h, false, false, encodes, link)) ==
              if !encodes || link.Refuses? then w.(tables := t.(sequence := t.sequence + 1))
              else w.(tables := if wire.end then Drop(t1, h) else t1, sent := w.sent + [wire])
  {
    var queue := Send(w.tables, h, false, encodes, link).0.queue;
    SendEndShape(w, h, w.tables.(sequence := w.tables.sequence + 1, queue := queue));
  }

  /** A number may be used up by a message that is not handed over. */
  lemma SkipKeeps(w: World)
    requires Invariant(w)
    ensures Invariant(w.(tables := w.tables.(sequence := w.tables.sequence + 1)))
  {
  }

  lemma SendKeeps(w: World, h: Handle, preset: bool, encodes: bool, link: Link)
    requires Invariant(w)
    ensures Invariant(Apply(w, DoSend(h, false, preset, encodes, link)))
  {
    if !preset && h in w.tables.transactions {
      SendWorld(w, h, encodes, link);
      var wire := Wire(h, w.tables.transactions[h].clientShouldSendEnd, w.tables.sequence % 255, w.tables.sequence);
      if encodes && !link.Refuses? {
        RecordKeeps(w, wire, Send(w.tables, h, false, encodes, link).0.queue);
      } else {
        SkipKeeps(w);
      }
    }
  }

  lemma SendEndShape(w: World, h: Handle, t: Tables)
    requires Invariant(w) && h in w.tables.transactions
    requires t.transactions == w.tables.transactions && t.clientIds == w.tables.clientIds
    ensures h.Handle?
    ensures ClientEnd(t.(transactions := t.transactions[h := t.transactions[h].(clientShouldSendEnd := false)]), h) == Drop(t, h)
  {
    assert h in w.issued;
    var d := t.transactions[h].(clientShouldSendEnd := false);
    assert t.transactions[h := d][h := d.(clientHasSentEnd := true)] - {h} == t.transactions - {h};
    assert t.clientIds - {h.key.id} == t.clientIds;
  }

  /** A plain send leaves the tables of live transactions alone or drops exactly its own. */
  lemma SendShape(w: World, h: Handle, preset: bool, encodes: bool, link: Link)
    requires Invariant(w)
    ensures var t, t' := w.tables, Send(w.tables, h, preset, encodes, link).0;
            || (t'.transactions == t.transactions && t'.lookup == t.lookup)
            || (h in t.transactions && h.Handle?
                && t'.transactions == Drop(t, h).transactions && t'.lookup == Drop(t, h).lookup)
  {
    if h in w.tables.transactions && w.tables.transactions[h].clientShouldSendEnd {
      var queue := Send(w.tables, h, preset, encodes, link).0.queue;
      SendEndShape(w, h, w.tables.(sequence := w.tables.sequence + 1, queue := queue));
    }
  }

  /** `send_with_end` first notes the end, then sends plainly. */
  function Promise(w: World, h: Handle): World
    requires h in w.tables.transactions
  {
    w.(tables := w.tables.(transactions := w.tables.transactions[h := w.tables.transactions[h].(clientShouldSendEnd := true)]))
  }

  lemma PromiseKeeps(w: World, h: Handle)
    requires Invariant(w) && h in w.tables.transactions
    ensures Invariant(Promise(w, h))
  {
    MarkKeeps(w, h, w.tables.transactions[h].(clientShouldSendEnd := true));
  }

  lemma SendWithEndKeeps(w: World, h: Handle, preset: bool, encodes: bool, link: Link)
    requires Invariant(w)
    ensures Invariant(Apply(w, DoSend(h, true, preset, encodes, link)))
  {
    if h in w.tables.transactions {
      PromiseKeeps(w, h);
      SendKeeps(Promise(w, h), h, preset, encodes, link);
      assert Apply(Promise(w, h), DoSend(h, false, preset, encodes, link)) == Apply(w, DoSend(h, true, preset, encodes, link));
    }
  }

  lemma ApplyKeeps(w: World, s: Step)
    requires Invariant(w)
    ensures Invariant(Apply(w, s))
  {
    match s
    case DoCreate(sse) => CreateKeeps(w, sse);
    case DoDelete(h) => EndKeeps(w, h);
    case DoSend(h, withEnd, preset, encodes, link) =>
      if withEnd { SendWithEndKeeps(w, h, preset, encodes, link); } else { SendKeeps(w, h, preset, encodes, link); }
    case DoDeliver(m) => ReceiveKeeps(w, m);
    case DoServerEnd(h) => EndKeeps(w, h);
    case DoFlushQueue =>
  }

  lemma {:induction false} RunKeeps(w: World, steps: seq<Step>)
    requires Invariant(w)
    ensures Invariant(Run(w, steps))
    decreases |steps|
  {
    if steps != [] {
      ApplyKeeps(w, steps[0]);
      RunKeeps(Apply(w, steps[0]), steps[1..]);
    }
  }

  // ----------------------------------------------------------- the results

  /** No two handles ever issued are equal. */
  lemma HandlesAreUnique(steps: seq<Step>)
    ensures var issued := Run(START, steps).issued;
            forall i, j :: 0 <= i < j < |issued| ==> issued[i] != issued[j]
  {
    RunKeeps(START, steps);
  }

  lemma SendNeverRevives(w: World, s: Step, h: Handle)
    requires Invariant(w) && s.DoSend? && h !in w.tables.transactions
    ensures h !in Apply(w, s).tables.transactions
  {
    if s.withEnd {
      if s.handle in w.tables.transactions {
        PromiseKeeps(w, s.handle);
        SendShape(Promise(w, s.handle), s.handle, s.preset, s.encodes, s.link);
      }
    } else {
      SendShape(w, s.handle, s.preset, s.encodes, s.link);
    }
  }

  /** A handle issued before is live only if it was live before. */
  lemma ApplyNeverRevives(w: World, s: Step, h: Handle)
    requires Invariant(w) && h in w.issued && h !in w.tables.transactions
    ensures h in Apply(w, s).issued && h !in Apply(w, s).tables.transactions
  {
    if s.DoCreate? {
      CreateShape(w, s.singleSideEndable);
    } else if s.DoSend? {
      SendNeverRevives(w, s, h);
    } else if s.DoDeliver? {
      DeliverNeverRevives(w, s.message, h);
    }
  }

  lemma OpenNeverRevives(w: World, m: Incoming, h: Handle)
    requires Invariant(w) && h in w.issued && h !in w.tables.transactions
    ensures h in DeliverWorld(w, m).issued && h !in DeliverWorld(w, m).tables.transactions
  {
    if m.transaction.Some? && m.hasBody && m.transaction.value.initiator.LocationServer? && Find(w.tables, m.transaction.value).None? {
      OpenShape(w, m.transaction.value);
    }
  }

  lemma EndAddsNone(t: Tables, ended: Handle, h: Handle)
    requires h !in t.transactions
    ensures h !in ServerEnd(t, ended).transactions
  {
  }

  lemma DeliverNeverRevives(w: World, m: Incoming, h: Handle)
    requires Invariant(w) && h in w.issued && h !in w.tables.transactions
    ensures h in Apply(w, DoDeliver(m)).issued && h !in Apply(w, DoDeliver(m)).tables.transactions
  {
    OpenNeverRevives(w, m, h);
    var w1, delivered := DeliverWorld(w, m), Deliver(w.tables, m).1;
    if delivered.Some? {
      EndAddsNone(w1.tables, delivered.value, h);
    }
  }

  /** Once its transaction is gone, a handle never reaches another one, whatever runs. */
  lemma {:induction false} StaleHandleStaysDead(w: World, steps: seq<Step>, h: Handle)
    requires Invariant(w) && h in w.issued && h !in w.tables.transactions
    ensures h !in Run(w, steps).tables.transactions
    decreases |steps|
  {
    if steps != [] {
      ApplyKeeps(w, steps[0]);
      ApplyNeverRevives(w, steps[0], h);
      StaleHandleStaysDead(Apply(w, steps[0]), steps[1..], h);
    }
  }

  /** In every reachable state a wire id reaches a live transaction of that number and initiator or
      nothing; a server number is carried by at most one live transaction, and that one is reached. */
  lemma WireLookup(steps: seq<Step>)
    ensures var t := Run(START, steps).tables;
            && LookupSound(t)
            && (forall g, h | g in t.transactions && h in t.transactions && g.Handle? && h.Handle? ::
                  g.key == h.key && g.key.initiator.LocationServer? ==> g == h)
            && (forall h | h in t.transactions && h.Handle? && h.key.initiator.LocationServer? :: Find(t, h.key) == Some(h))
  {
    RunKeeps(START, steps);
    var t := Run(START, steps).tables;
    forall h | h in t.transactions && h.Handle? && h.key.initiator.LocationServer?
      ensures Find(t, h.key) == Some(h)
    {
      assert Reached(t.lookup, h);
    }
  }

  /** The number the next client transaction gets is still carried by a live one. */
  ghost predicate NumberTaken(t: Tables) {
    exists h :: h in t.transactions && h.Handle? && h.key == Key(t.nextId, TargetDevice)
  }

  lemma CreateReaches(w: World, sse: bool)
    requires Invariant(w) && AllReachable(w.tables, TargetDevice)
    ensures AllReachable(Apply(w, DoCreate(sse)).tables, TargetDevice) <==> !NumberTaken(w.tables)
  {
    CreateShape(w, sse);
    var t, t' := w.tables, Apply(w, DoCreate(sse)).tables;
    if h :| h in t.transactions && h.Handle? && h.key == Key(t.nextId, TargetDevice) {
      assert h in t'.transactions && !Reached(t'.lookup, h);
    } else {
      forall h | h in t'.transactions && h.Handle? && h.key.initiator.TargetDevice? ensures Reached(t'.lookup, h) {
        if h in t.transactions { assert Reached(t.lookup, h); }
      }
    }
  }

  lemma DeliverReaches(w: World, m: Incoming)
    requires Invariant(w) && AllReachable(w.tables, TargetDevice)
    ensures AllReachable(DeliverWorld(w, m).tables, TargetDevice)
  {
    var t, t' := w.tables, DeliverWorld(w, m).tables;
    forall h | h in t'.transactions && h.Handle? && h.key.initiator.TargetDevice? ensures Reached(t'.lookup, h) {
      assert Reached(t.lookup, h);
    }
  }

  lemma ReceiveReaches(w: World, m: Incoming)
    requires Invariant(w) && AllReachable(w.tables, TargetDevice)
    ensures AllReachable(Apply(w, DoDeliver(m)).tables, TargetDevice)
  {
    DeliverKeeps(w, m);
    DeliverReaches(w, m);
    var h := Deliver(w.tables, m).1;
    if h.Some? && m.end {
      EndReaches(DeliverWorld(w, m), h.value);
    }
  }

  /**
   Exactly when the lookup reaches every live client transaction: a step keeps that property if and
   only if it does not allocate a number that a live client transaction still carries.
   */
  lemma ReachabilityStep(w: World, s: Step)
    requires Invariant(w) && AllReachable(w.tables, TargetDevice)
    ensures AllReachable(Apply(w, s).tables, TargetDevice) <==> !(s.DoCreate? && NumberTaken(w.tables))
  {
    match s
    case DoCreate(sse) => CreateReaches(w, sse);
    case DoDelete(h) => EndReaches(w, h);
    case DoServerEnd(h) => EndReaches(w, h);
    case DoSend(h, withEnd, preset, encodes, link) =>
      if withEnd { SendWithEndReaches(w, h, preset, encodes, link); } else { SendReaches(w, h, preset, encodes, link); }
    case DoDeliver(m) => ReceiveReaches(w, m);
    case DoFlushQueue =>
  }

  lemma DropReaches(w: World, h: Handle)
    requires Invariant(w) && AllReachable(w.tables, TargetDevice) && h in w.tables.transactions
    ensures h.Handle? && AllReachable(Drop(w.tables, h), TargetDevice)
  {
    assert h in w.issued;
    var t' := Drop(w.tables, h);
    forall g | g in t'.transactions && g.Handle? && g.key.initiator.TargetDevice? ensures Reached(t'.lookup, g) {
      assert Reached(w.tables.lookup, g);
    }
  }

  lemma EndReaches(w: World, h: Handle)
    requires Invariant(w) && AllReachable(w.tables, TargetDevice)
    ensures AllReachable(ClientEnd(w.tables, h), TargetDevice)
    ensures AllReachable(ServerEnd(w.tables, h), TargetDevice)
  {
    if h in w.tables.transactions {
      EndShape(w, h);
      DropReaches(w, h);
    }
  }

  lemma SendReaches(w: World, h: Handle, preset: bool, encodes: bool, link: Link)
    requires Invariant(w) && AllReachable(w.tables, TargetDevice)
    ensures AllReachable(Apply(w, DoSend(h, false, preset, encodes, link)).tables, TargetDevice)
  {
    SendShape(w, h, preset, encodes, link);
    if h in w.tables.transactions {
      DropReaches(w, h);
    }
  }

  lemma SendWithEndReaches(w: World, h: Handle, preset: bool, encodes: bool, link: Link)
    requires Invariant(w) && AllReachable(w.tables, TargetDevice)
    ensures AllReachable(Apply(w, DoSend(h, true, preset, encodes, link)).tables, TargetDevice)
  {
    if h in w.tables.transactions {
      var w1 := Promise(w, h);
      PromiseKeeps(w, h);
      SendReaches(w1, h, preset, encodes, link);
      assert Apply(w1, DoSend(h, false, preset, encodes, link)) == Apply(w, DoSend(h, true, preset, encodes, link));
    }
  }

  /** Every live client transaction is among the last 256 allocated. */
  ghost predicate Recent(w: World) {
    forall k :: 0 <= k < |w.clients| && w.clients[k] in w.tables.transactions ==> |w.clients| - k <= 256
  }

  ghost predicate AlwaysRecent(w: World, steps: seq<Step>)
    decreases |steps|
  {
    Recent(w) && (steps != [] ==> AlwaysRecent(Apply(w, steps[0]), steps[1..]))
  }

  lemma SameResidue(k: nat, n: nat)
    requires k < n
    ensures (k + 1) % 256 == (n + 1) % 256 <==> (n - k) % 256 == 0
    ensures (n - k) % 256 == 0 ==> n - k >= 256
  {
    assert n + 1 == (n - k) + (k + 1);
  }

  /** A live client transaction that carries the next number is at least 256 allocations old. */
  lemma TakenIsOld(w: World, h: Handle) returns (k: nat)
    requires Invariant(w) && h in w.tables.transactions && h.Handle? && h.key == Key(w.tables.nextId, TargetDevice)
    ensures k < |w.clients| && w.clients[k] == h && |w.clients| - k >= 256
  {
    assert h in w.clients;
    k :| 0 <= k < |w.clients| && w.clients[k] == h;
    SameResidue(k, |w.clients|);
  }

  lemma TakenBreaksRecent(w: World, sse: bool)
    requires Invariant(w) && NumberTaken(w.tables)
    ensures !Recent(Apply(w, DoCreate(sse)))
  {
    var h :| h in w.tables.transactions && h.Handle? && h.key == Key(w.tables.nextId, TargetDevice);
    var k := TakenIsOld(w, h);
    CreateShape(w, sse);
    assert Apply(w, DoCreate(sse)).clients[k] == h;
  }

  lemma {:induction false} RecentKeepsReachable(w: World, steps: seq<Step>)
    requires Invariant(w) && AllReachable(w.tables, TargetDevice) && AlwaysRecent(w, steps)
    ensures AllReachable(Run(w, steps).tables, TargetDevice)
    decreases |steps|
  {
    if steps != [] {
      if steps[0].DoCreate? && NumberTaken(w.tables) { TakenBreaksRecent(w, steps[0].singleSideEndable); }
      ReachabilityStep(w, steps[0]);
      ApplyKeeps(w, steps[0]);
      RecentKeepsReachable(Apply(w, steps[0]), steps[1..]);
    }
  }

  /** The lookup is a bijection between wire ids and live transactions in every state of a run whose
      live client transactions are always among the last 256 allocated. */
  lemma LookupIsBijection(steps: seq<Step>)
    requires AlwaysRecent(START, steps)
    ensures var t := Run(START, steps).tables;
            && LookupSound(t)
            && forall h | h in t.transactions :: h.Handle? && Find(t, h.key) == Some(h)
  {
    RunKeeps(START, steps);
    RecentKeepsReachable(START, steps);
    var w := Run(START, steps);
    forall h | h in w.tables.transactions ensures h.Handle? && Find(w.tables, h.key) == Some(h) {
      assert h in w.issued;
      assert Reached(w.tables.lookup, h);
    }
  }

  /** Numbers allocated by the client belong to handles given out. */
  ghost predicate ClientsIssued(w: World) { forall k :: 0 <= k < |w.clients| ==> w.clients[k] in w.issued }

  lemma ClientsStayIssued(w: World, s: Step)
    requires ClientsIssued(w)
    ensures ClientsIssued(Apply(w, s))
  {
  }

  lemma OtherStepsKeepRecent(w: World, s: Step)
    requires Invariant(w) && ClientsIssued(w) && Recent(w) && !s.DoCreate?
    ensures Recent(Apply(w, s))
  {
    var w' := Apply(w, s);
    assert w'.clients == w.clients;
    forall k | 0 <= k < |w'.clients| && w'.clients[k] in w'.tables.transactions ensures |w'.clients| - k <= 256 {
      if w.clients[k] !in w.tables.transactions {
        ApplyNeverRevives(w, s, w.clients[k]);
      }
    }
  }

  lemma OldestIsTaken(w: World, k: nat)
    requires Invariant(w) && |w.clients| == k + 256 && w.clients[k] in w.tables.transactions
    ensures NumberTaken(w.tables)
  {
    SameResidue(k, |w.clients|);
    assert w.clients[k].key == Key(w.tables.nextId, TargetDevice);
  }

  lemma CreateBreaksRecent(w: World, sse: bool)
    requires Invariant(w) && Recent(w) && !Recent(Apply(w, DoCreate(sse)))
    ensures NumberTaken(w.tables)
  {
    CreateShape(w, sse);
    var w' := Apply(w, DoCreate(sse));
    var k :| 0 <= k < |w'.clients| && w'.clients[k] in w'.tables.transactions && |w'.clients| - k > 256;
    OldestLives(w, sse, k);
    OldestIsTaken(w, k);
  }

  lemma OldestLives(w: World, sse: bool, k: nat)
    requires Invariant(w) && Recent(w) && k < |w.clients| && |w.clients| + 1 - k > 256
    requires w.clients[k] in Apply(w, DoCreate(sse)).tables.transactions
    ensures w.clients[k] in w.tables.transactions && |w.clients| == k + 256
  {
    CreateShape(w, sse);
  }

  /** A step keeps every live client transaction among the last 256 exactly when it keeps every one reachable. */
  lemma RecentStep(w: World, s: Step)
    requires Invariant(w) && ClientsIssued(w) && Recent(w)
    ensures Recent(Apply(w, s)) <==> !(s.DoCreate? && NumberTaken(w.tables))
  {
    if !s.DoCreate? {
      OtherStepsKeepRecent(w, s);
    } else if NumberTaken(w.tables) {
      TakenBreaksRecent(w, s.singleSideEndable);
    } else if !Recent(Apply(w, s)) {
      CreateBreaksRecent(w, s.singleSideEndable);
    }
  }

  ghost predicate AlwaysReachable(w: World, steps: seq<Step>)
    decreases |steps|
  {
    AllReachable(w.tables, TargetDevice) && (steps != [] ==> AlwaysReachable(Apply(w, steps[0]), steps[1..]))
  }

  lemma {:induction false} RecentMeansReachable(w: World, steps: seq<Step>)
    requires Invariant(w) && ClientsIssued(w) && Recent(w) && AllReachable(w.tables, TargetDevice)
    ensures AlwaysReachable(w, steps) <==> AlwaysRecent(w, steps)
    decreases |steps|
  {
    if steps != [] {
      var w1 := Apply(w, steps[0]);
      ReachabilityStep(w, steps[0]);
      RecentStep(w, steps[0]);
      ApplyKeeps(w, steps[0]);
      ClientsStayIssued(w, steps[0]);
      if Recent(w1) {
        RecentMeansReachable(w1, steps[1..]);
      }
    }
  }

  /** Over every run: every live client transaction is reached in every state if and only if in every state all live
      ones are among the last 256 allocated. */
  lemma ReachableIffRecent(steps: seq<Step>)
    ensures AlwaysReachable(START, steps) <==> AlwaysRecent(START, steps)
  {
    RecentMeansReachable(START, steps);
  }

  /** Ending either of two live transactions with one wire id erases the entry of both: the other is live, and no
      message from the server reaches it any more. */
  lemma EndHidesOther(w: World, g: Handle, h: Handle)
    requires Invariant(w) && g in w.tables.transactions && h in w.tables.transactions
    requires g != h && g.Handle? && h.Handle? && g.key == h.key
    ensures var t := ClientEnd(w.tables, g); h in t.transactions && Find(t, h.key) == None
  {
    EndShape(w, g);
  }

  function Creates(n: nat): seq<Step> { seq(n, _ => DoCreate(true)) }

  lemma {:induction false} CreatesReach(n: nat, w: World)
    requires Invariant(w)
    ensures var w' := Run(w, Creates(n));
            && |w'.clients| == |w.clients| + n && w.clients <= w'.clients
            && forall h :: h in w.tables.transactions ==> h in w'.tables.transactions
    decreases n
  {
    if n > 0 {
      CreateShape(w, true);
      CreateKeeps(w, true);
      assert Creates(n)[1..] == Creates(n - 1);
      CreatesReach(n - 1, Apply(w, DoCreate(true)));
    }
  }

  /** Allocation number k + 257 takes over the lookup entry of allocation number k + 1. */
  lemma ReuseHidesOlder(w: World, k: nat)
    requires Invariant(w) && |w.clients| == k + 256 && w.clients[k] in w.tables.transactions
    ensures var w' := Apply(w, DoCreate(true));
            w.clients <= w'.clients && w.clients[k] in w'.tables.transactions && !Reached(w'.tables.lookup, w.clients[k])
  {
    CreateShape(w, true);
    assert (k + 256 + 1) % 256 == (k + 1) % 256;
  }

  /** After a creation and 255 more the first of them is live and the next number is its own. */
  lemma Overrun(w: World) returns (last: World)
    requires Invariant(w)
    ensures Invariant(last) && |last.clients| == |w.clients| + 256
    ensures last.clients[|w.clients|] == Create(w.tables, true).1 && last.clients[|w.clients|] in last.tables.transactions
    ensures Run(Apply(w, DoCreate(true)), Creates(255) + [DoCreate(true)]) == Apply(last, DoCreate(true))
  {
    CreateShape(w, true);
    CreateKeeps(w, true);
    var w1 := Apply(w, DoCreate(true));
    CreatesReach(255, w1);
    RunKeeps(w1, Creates(255));
    last := Run(w1, Creates(255));
    assert last.clients[|w.clients|] == w1.clients[|w.clients|];
    RunSnoc(w1, Creates(255), DoCreate(true));
  }

  /** The hypothesis is needed: from any state, a transaction just created and kept open is no longer
      reached once 256 more have been created. */
  lemma OverrunLosesTransaction(w: World)
    requires Invariant(w)
    ensures var h := Create(w.tables, true).1;
            var t := Run(Apply(w, DoCreate(true)), Creates(255) + [DoCreate(true)]).tables;
            h in t.transactions && !Reached(t.lookup, h)
  {
    var last := Overrun(w);
    ReuseHidesOlder(last, |w.clients|);
  }

  /** Then the newest transaction carries the number of that older one. */
  lemma NewestShares(w: World, k: nat) returns (newest: Handle)
    requires Invariant(w) && |w.clients| == k + 256 && w.clients[k] in w.tables.transactions
    ensures w.clients[k].Handle? && newest.Handle? && newest != w.clients[k] && newest.key == w.clients[k].key
    ensures var t := Apply(w, DoCreate(true)).tables; newest in t.transactions && w.clients[k] in t.transactions
  {
    CreateShape(w, true);
    SameResidue(k, |w.clients|);
    newest := Handle(Key(w.tables.nextId, TargetDevice), w.tables.nextGeneration);
  }

  /** And ending the older one leaves the newest live and unreached. */
  lemma OverrunThenEnd(w: World) returns (newest: Handle)
    requires Invariant(w)
    ensures var h := Create(w.tables, true).1;
            var t := ClientEnd(Run(Apply(w, DoCreate(true)), Creates(255) + [DoCreate(true)]).tables, h);
            newest in t.transactions && newest.Handle? && Find(t, newest.key) == None
  {
    var last := Overrun(w);
    newest := NewestShares(last, |w.clients|);
    CreateKeeps(last, true);
    EndHidesOther(Apply(last, DoCreate(true)), last.clients[|w.clients|], newest);
  }

  lemma {:induction false} RunSnoc(w: World, steps: seq<Step>, s: Step)
    ensures Run(w, steps + [s]) == Apply(Run(w, steps), s)
    decreases |steps|
  {
    if steps == [] {
      assert Run(Apply(w, s), []) == Apply(w, s);
      assert ([] + [s])[1..] == [];
    } else {
      assert (steps + [s])[1..] == steps[1..] + [s];
      RunSnoc(Apply(w, steps[0]), steps[1..], s);
    }
  }

  /** On one transaction at most one message handed over carries endTransaction, and it is the last. */
  lemma EndIsLast(steps: seq<Step>, i: nat, j: nat)
    requires i < j < |Run(START, steps).sent|
    requires Run(START, steps).sent[i].end
    ensures Run(START, steps).sent[j].handle != Run(START, steps).sent[i].handle
    ensures Run(START, steps).sent[i].handle !in Run(START, steps).tables.transactions
  {
    RunKeeps(START, steps);
  }

  lemma SameRemainder(a: nat, b: nat)
    requires a < b
    ensures a % 255 == b % 255 <==> (b - a) % 255 == 0
    ensures (b - a) % 255 == 0 ==> b - a >= 255
  {
    assert b == (b - a) + a;
  }

  lemma NumbersApart(sent: seq<Wire>, sequence: nat, i: nat, j: nat)
    requires Numbered(sent, sequence) && i < j < |sent|
    ensures Apart(sent[i], sent[j])
  {
    SameRemainder(sent[i].attempt, sent[j].attempt);
  }

  /** Two messages share a sequence number exactly when a multiple of 255 messages lies between them; so any 255
      consecutively numbered ones are pairwise distinct. */
  predicate Apart(a: Wire, b: Wire) {
    && 0 <= a.number < 255 && a.attempt < b.attempt
    && (a.number == b.number <==> (b.attempt - a.attempt) % 255 == 0)
    && (b.attempt - a.attempt < 255 ==> a.number != b.number)
  }

  lemma SequenceNumbers(steps: seq<Step>, i: nat, j: nat)
    requires i < j < |Run(START, steps).sent|
    ensures Apart(Run(START, steps).sent[i], Run(START, steps).sent[j])
  {
    RunKeeps(START, steps);
    var w := Run(START, steps);
    NumbersApart(w.sent, w.tables.sequence, i, j);
  }

  // ------------------------------------------------- what each call answers

  /** The live transaction that carries a wire id and is reached by it. */
  ghost predicate LiveAt(t: Tables, key: Key, h: Handle) {
    h in t.transactions && key in t.lookup && t.lookup[key] == h
  }

  /** A server id that reaches nothing opens a transaction. */
  ghost predicate Opens(t: Tables, m: Incoming) {
    && m.transaction.Some? && m.hasBody && m.transaction.value.initiator.LocationServer?
    && 0 <= m.transaction.value.id <= 255 && (forall h :: !LiveAt(t, m.transaction.value, h))
  }

  /**
   In every reachable state: a message with a body is delivered on the live transaction its id reaches, and the
   tables stay; an unreached server id in 0..255 is delivered on a handle never issued before, entered as endable by
   either side; everything else is delivered on nothing, and no transaction or entry changes.
   */
  lemma DeliverAnswer(w: World, m: Incoming)
    requires Invariant(w)
    ensures var t := w.tables; var (t', h) := Deliver(t, m);
            && (forall g :: m.transaction.Some? && m.hasBody && LiveAt(t, m.transaction.value, g) ==> h == Some(g) && t' == t)
            && (Opens(t, m) ==>
                  && h.Some? && h.value.Handle? && h.value.key == m.transaction.value && h.value !in w.issued
                  && t'.transactions == t.transactions[h.value := Data(false, false, false, true)]
                  && t'.lookup == t.lookup[m.transaction.value := h.value])
            && (h.Some? <==> Opens(t, m) || (m.transaction.Some? && m.hasBody && exists g :: LiveAt(t, m.transaction.value, g)))
            && (h.None? ==> t'.transactions == t.transactions && t'.lookup == t.lookup)
  {
    if m.transaction.Some? && m.hasBody {
      var key := m.transaction.value;
      assert Find(w.tables, key).Some? ==> LiveAt(w.tables, key, w.tables.lookup[key]);
      if key.initiator.LocationServer? && Find(w.tables, key).None? {
        OpenShape(w, key);
      }
    }
  }

  /** The rest of the transaction map is untouched. */
  ghost predicate OthersKept(before: map<Handle, Data>, after: map<Handle, Data>, h: Handle) {
    forall g :: g != h ==> ((g in after <==> g in before) && (g in before ==> g in after && after[g] == before[g]))
  }

  /** A server end removes a live transaction that either side may end, with its entry, and marks any other. */
  lemma ServerEndAnswer(w: World, h: Handle)
    requires Invariant(w) && h in w.tables.transactions
    ensures var d, t := w.tables.transactions[h], ServerEnd(w.tables, h);
            && OthersKept(w.tables.transactions, t.transactions, h)
            && (d.singleSideEndable ==> h !in t.transactions && h.Handle? && h.key !in t.lookup)
            && (!d.singleSideEndable ==> h in t.transactions && t.transactions[h] == d.(serverHasSentEnd := true) && t.lookup == w.tables.lookup)
  {
    EndShape(w, h);
  }

  /**
   The whole of a delivery, in every reachable state: with endTransaction the transaction it was delivered on is gone
   if either side may end it, and else marked ended by the server; without, it is live.
   */
  lemma ReceiveAnswer(w: World, m: Incoming)
    requires Invariant(w) && Deliver(w.tables, m).1.Some?
    ensures var h := Deliver(w.tables, m).1.value;
            var t1, t := DeliverWorld(w, m).tables, Apply(w, DoDeliver(m)).tables;
            && h in t1.transactions
            && (m.end && t1.transactions[h].singleSideEndable ==> h !in t.transactions && h.Handle? && h.key !in t.lookup)
            && (m.end && !t1.transactions[h].singleSideEndable ==>
                  h in t.transactions && t.transactions[h] == t1.transactions[h].(serverHasSentEnd := true))
            && (!m.end ==> t == t1)
            && OthersKept(t1.transactions, t.transactions, h)
  {
    DeliverAnswer(w, m);
    DeliverKeeps(w, m);
    if m.end {
      ServerEndAnswer(DeliverWorld(w, m), Deliver(w.tables, m).1.value);
    }
  }

  /** A delete removes a live transaction and its entry, and ends it for good. */
  lemma ClientEndAnswer(w: World, h: Handle)
    requires Invariant(w)
    ensures var t := Apply(w, DoDelete(h)).tables;
            && t == ClientEnd(w.tables, h) && h !in t.transactions && OthersKept(w.tables.transactions, t.transactions, h)
            && (h in w.tables.transactions ==> h.Handle? && t.lookup == w.tables.lookup - {h.key})
            && (h !in w.tables.transactions ==> t == w.tables)
  {
    if h in w.tables.transactions {
      EndShape(w, h);
    }
  }

  /**
   In every reachable state a send hands a message over exactly if its header is its own, the transaction is live,
   it encodes and the link does not refuse. The message carries the end exactly if one was promised; then the
   transaction is gone with its entry, and else it stays as it was. Without a session it is queued, and the queue is
   emptied when it exceeds 16.
   */
  lemma SendAnswer(w: World, h: Handle, preset: bool, encodes: bool, link: Link)
    requires Invariant(w)
    ensures var t := w.tables; var (t', wire) := Send(t, h, preset, encodes, link);
            && (wire.Some? <==> !preset && h in t.transactions && encodes && !link.Refuses?)
            && (wire.Some? ==>
                  && wire.value.handle == h && wire.value.end == t.transactions[h].clientShouldSendEnd
                  && wire.value.number == t.sequence % 255 && t'.sequence == t.sequence + 1
                  && OthersKept(t.transactions, t'.transactions, h)
                  && (wire.value.end ==> h !in t'.transactions && h.Handle? && t'.lookup == t.lookup - {h.key})
                  && (!wire.value.end ==> t'.transactions == t.transactions && t'.lookup == t.lookup)
                  && t'.queue == if link.Accepts? then t.queue else if |t.queue| >= 16 then [] else t.queue + [wire.value])
            && (wire.None? ==> t' == t.(sequence := t'.sequence) && (t'.sequence == t.sequence || (t'.sequence == t.sequence + 1 && h in t.transactions)))
  {
    if h in w.tables.transactions {
      SendEndShape(w, h, w.tables.(sequence := w.tables.sequence + 1, queue := Send(w.tables, h, preset, encodes, link).0.queue));
    }
  }

  /**
   A send with end on a live transaction promises the end: a message handed over carries it and ends the transaction;
   otherwise the promise stays, so that the next message handed over carries it.
   */
  lemma SendWithEndAnswer(w: World, h: Handle, preset: bool, encodes: bool, link: Link)
    requires Invariant(w)
    ensures var t := w.tables; var (t', wire) := SendWithEnd(t, h, preset, encodes, link);
            && (wire.Some? <==> !preset && h in t.transactions && encodes && !link.Refuses?)
            && (wire.Some? ==> wire.value.handle == h && wire.value.end && h !in t'.transactions && OthersKept(t.transactions, t'.transactions, h))
            && (wire.None? && h in t.transactions ==>
                  t'.transactions == t.transactions[h := t.transactions[h].(clientShouldSendEnd := true)] && t'.lookup == t.lookup)
            && (h !in t.transactions ==> t' == t)
  {
    if h in w.tables.transactions {
      PromiseKeeps(w, h);
      SendAnswer(Promise(w, h), h, preset, encodes, link);
    }
  }

  /** How far a number is from the base, counting up round the 256. */
  function Distance(base: int, id: int): int { if id >= base then id - base else id - base + 256 }

  lemma DistanceNumbers(base: int, id: int)
    requires 0 <= base < 256 && 0 <= id < 256
    ensures var j := Distance(base, id); 0 <= j < 256 && Number(base, j) == id && (j == 255 ==> id == (base + 255) % 256)
  {
  }

  lemma NumberedAt(base: int, j: nat)
    requires 0 <= base < 256 && j < 256
    ensures 0 <= Number(base, j) < 256 && Distance(base, Number(base, j)) == j
    ensures j < 255 ==> Number(base, j) != (base + 255) % 256
  {
  }

  /**
   An allocation is refused exactly if all numbers are in use but perhaps the one before the next, which is never tried.
   Otherwise the number is the first that is not in use, counting from the next round the 256.
   */
  lemma AllocateAnswer(t: Tables)
    requires 0 <= t.nextId < 256
    ensures var (t', h) := Allocate(t);
            && (h.Invalid? <==> forall id :: 0 <= id < 256 && id != (t.nextId + 255) % 256 ==> id in t.clientIds)
            && (h.Handle? ==>
                  && h.key.initiator.TargetDevice? && h.generation == t.nextGeneration
                  && 0 <= h.key.id < 256 && h.key.id !in t.clientIds && t'.nextId == (h.key.id + 1) % 256
                  && forall id :: 0 <= id < 256 && Distance(t.nextId, id) < Distance(t.nextId, h.key.id) ==> id in t.clientIds)
  {
    var r := FirstUnused(t.clientIds, t.nextId, 0);
    NumberedAt(t.nextId, r);
    forall id | 0 <= id < 256 && Distance(t.nextId, id) < r ensures id in t.clientIds {
      DistanceNumbers(t.nextId, id);
    }
    forall id | 0 <= id < 256 && id != (t.nextId + 255) % 256 ensures Distance(t.nextId, id) < 255 {
      DistanceNumbers(t.nextId, id);
    }
  }

  /** A creation always succeeds, on a handle never issued, under the next number. */
  lemma CreateAnswer(w: World, sse: bool)
    requires Invariant(w)
    ensures var (t', h) := Create(w.tables, sse);
            && h.Handle? && h !in w.issued && h.key == Key((|w.clients| + 1) % 256, TargetDevice)
            && t'.transactions == w.tables.transactions[h := Data(false, false, false, sse)]
            && t'.lookup == w.tables.lookup[h.key := h] && t'.nextId == (h.key.id + 1) % 256
            && Apply(w, DoCreate(sse)) == World(t', w.issued + [h], w.clients + [h], w.sent)
  {
    CreateShape(w, sse);
  }

  // ------------------------------------------------------------- the class

  /** The tables as the session updates them in place. */
  class TransactionTables {
    var transactions: map<Handle, Data>
    var lookup: map<Key, Handle>
    var clientIds: set<int>
    var nextId: int
    var nextGeneration: int
    var sequence: nat
    var queue: seq<Wire>

    ghost function State(): Tables
      reads this
    {
      Tables(transactions, lookup, clientIds, nextId, nextGeneration, sequence, queue)
    }

    constructor ()
      ensures State() == EMPTY
    {
      transactions, lookup, clientIds := map[], map[], {};
      nextId, nextGeneration, sequence, queue := 1, 1, 0, [];
    }

    method AllocateTransaction() returns (h: Handle)
      modifies this
      ensures (State(), h) == Allocate(old(State()))
    {
      var i := 0;
      while i < 255
        invariant 0 <= i <= 255 && State() == old(State())
        invariant FirstUnused(clientIds, nextId, 0) == FirstUnused(clientIds, nextId, i)
      {
        var id := Number(nextId, i);
        if id !in clientIds {
          h := Handle(Key(id, TargetDevice), nextGeneration);
          nextId := (id + 1) % 256;
          nextGeneration := nextGeneration + 1;
          return;
        }
        i := i + 1;
      }
      h := Invalid;
    }

    method AddTransaction(h: Handle, singleSideEndable: bool) returns (added: bool)
      requires h.Handle?
      modifies this
      ensures (State(), added) == Add(old(State()), h, singleSideEndable)
    {
      if h.key.id < 0 || h.key.id > 255 || h in transactions {
        return false;
      }
      lookup := lookup[h.key := h];
      transactions := transactions[h := Data(false, false, false, singleSideEndable)];
      added := true;
    }

    method CreateTransaction(singleSideEndable: bool) returns (h: Handle)
      modifies this
      ensures (State(), h) == Create(old(State()), singleSideEndable)
    {
      h := AllocateTransaction();
      if h.Handle? {
        var added := AddTransaction(h, singleSideEndable);
        if !added {
          h := Invalid;
        }
      }
    }

    method RemoveTransaction(h: Handle)
      modifies this
      ensures State() == Remove(old(State()), h)
    {
      if h.Handle? && h in transactions {
        var endedByBoth := transactions[h].clientHasSentEnd && transactions[h].clientHasSentEnd;
        var endedBySomeone := transactions[h].clientHasSentEnd || transactions[h].serverHasSentEnd;
        if endedByBoth || (transactions[h].singleSideEndable && endedBySomeone) {
          lookup := lookup - {h.key};
          transactions := transactions - {h};
          if h.key.initiator.TargetDevice? {
            clientIds := clientIds - {h.key.id};
          }
        }
      }
    }

    method ServerEndTransaction(h: Handle)
      modifies this
      ensures State() == ServerEnd(old(State()), h)
    {
      if h in transactions {
        transactions := transactions[h := transactions[h].(serverHasSentEnd := true)];
        RemoveTransaction(h);
      }
    }

    method ClientEndTransaction(h: Handle)
      modifies this
      ensures State() == ClientEnd(old(State()), h)
    {
      if h in transactions {
        transactions := transactions[h := transactions[h].(clientHasSentEnd := true)];
        RemoveTransaction(h);
      }
    }

    /** The message is put on `wire` when it was handed to SUPL or to the queue. */
    method SendMessage(h: Handle, preset: bool, encodes: bool, link: Link) returns (wire: Option<Wire>)
      modifies this
      ensures (State(), wire) == Send(old(State()), h, preset, encodes, link)
    {
      wire := None;
      if preset || h !in transactions || transactions[h].clientHasSentEnd {
        return;
      }
      var message := Wire(h, transactions[h].clientShouldSendEnd, sequence % 255, sequence);
      sequence := sequence + 1;
      if !encodes {
        return;
      }
      if link.NoSession? {
        queue := queue + [message];
        if |queue| > QUEUE_LIMIT {
          queue := [];
        }
      } else if link.Refuses? {
        return;
      }
      if transactions[h].clientShouldSendEnd {
        transactions := transactions[h := transactions[h].(clientShouldSendEnd := false)];
        ClientEndTransaction(h);
      }
      wire := Some(message);
    }

    method SendMessageWithEnd(h: Handle, preset: bool, encodes: bool, link: Link) returns (wire: Option<Wire>)
      modifies this
      ensures (State(), wire) == SendWithEnd(old(State()), h, preset, encodes, link)
    {
      if h !in transactions {
        return None;
      }
      transactions := transactions[h := transactions[h].(clientShouldSendEnd := true)];
      wire := SendMessage(h, preset, encodes, link);
    }

    /** `process_lpp_payload` with an `on_message` callback that leaves the tables alone. */
    method ProcessPayload(m: Incoming) returns (delivered: Option<Handle>)
      modifies this
      ensures var (t, h) := Deliver(old(State()), m);
              delivered == h && State() == if h.Some? && m.end then ServerEnd(t, h.value) else t
    {
      delivered := None;
      if m.transaction.None? || !m.hasBody {
        return;
      }
      var key := m.transaction.value;
      delivered := Find(Tables(transactions, lookup, clientIds, nextId, nextGeneration, sequence, queue), key);
      if delivered.None? {
        if key.initiator.TargetDevice? {
          return;
        }
        var h := Handle(key, nextGeneration);
        nextGeneration := nextGeneration + 1;
        var _ := AddTransaction(h, true);
        delivered := Find(Tables(transactions, lookup, clientIds, nextId, nextGeneration, sequence, queue), key);
        if delivered.None? {
          return;
        }
      }
      if m.end {
        ServerEndTransaction(delivered.value);
      }
    }
  }
}
