/** Request ids and response correlation: `getNextID`, `registerResponse`,
    the dispatch step of `readLoop`, and the caller's receive on its channel,
    as one sequential state machine (the mutex only serialises these steps). */
module Correlation {
  import opened Base
  import opened Text

  /** A response channel of capacity one: empty, or holding one raw result. */
  datatype Slot = Empty | Holding(result: Bytes)

  /** The correlation state of a client. `table` maps each awaited request id
      to the channel registered for it (`responses` in the client); channels
      are numbered in order of creation and `slots` holds their buffers, so a
      waiter keeps its channel after the table entry is removed. */
  datatype Correlator = Correlator(nextId: int, table: map<int, nat>, slots: seq<Slot>)

  /** A payload as the reader decodes it: JSON that did not parse, or a message
      with an optional integer id and the raw `result` member (empty when
      absent, as for an error response). */
  datatype Incoming = Unparsable | Message(id: Option<int>, result: Bytes)

  /** The state of a fresh client: ids start at 1, nothing is awaited. */
  function Init(): (c: Correlator)
    ensures c.nextId == 1 && c.table == map[] && c.slots == []
    ensures Valid(c) && IdsBelowCounter(c)
  {
    Correlator(1, map[], [])
  }

  /** Every table entry names an existing, still empty channel, and no two
      entries share a channel. */
  ghost predicate Valid(c: Correlator) {
    && (forall id | id in c.table :: c.table[id] < |c.slots| && c.slots[c.table[id]] == Empty)
    && (forall a, b | a in c.table && b in c.table && a != b :: c.table[a] != c.table[b])
  }

  /** Every awaited id was issued before: it lies below the counter. */
  ghost predicate IdsBelowCounter(c: Correlator) {
    forall id | id in c.table :: id < c.nextId
  }

  /** getNextID: hands out the counter and moves it on by one. */
  function NextId(c: Correlator): (r: (int, Correlator))
    ensures r.0 == c.nextId && r.1.nextId == r.0 + 1
    ensures r.1.table == c.table && r.1.slots == c.slots
    ensures IdsBelowCounter(c) ==> r.0 !in r.1.table && IdsBelowCounter(r.1)
  {
    (c.nextId, c.(nextId := c.nextId + 1))
  }

  /** registerResponse: a new empty channel, recorded for `id` (replacing any
      channel recorded for it before). */
  function Register(c: Correlator, id: int): (r: (nat, Correlator))
    ensures r.0 == |c.slots| && r.1.nextId == c.nextId
    ensures r.1.table == c.table[id := r.0] && r.1.slots == c.slots + [Empty]
    ensures Valid(c) ==> Valid(r.1)
    ensures IdsBelowCounter(c) && id < c.nextId ==> IdsBelowCounter(r.1)
  {
    (|c.slots|, c.(table := c.table[id := |c.slots|], slots := c.slots + [Empty]))
  }

  /** The dispatch step for a message with an id: when the id is awaited its
      channel receives the result and the entry is removed; otherwise nothing
      changes and the result is dropped. */
  function Deliver(c: Correlator, id: int, result: Bytes): (r: Correlator)
    requires Valid(c)
    ensures Valid(r) && r.nextId == c.nextId && |r.slots| == |c.slots|
    ensures id !in c.table ==> r == c
    ensures id in c.table ==>
      && r.table == c.table - {id}
      && r.slots[c.table[id]] == Holding(result)
      && forall h | 0 <= h < |c.slots| && h != c.table[id] :: r.slots[h] == c.slots[h]
    ensures IdsBelowCounter(c) ==> IdsBelowCounter(r)
  {
    if id in c.table then
      var h := c.table[id];
      c.(table := c.table - {id}, slots := c.slots[h := Holding(result)])
    else c
  }

  /** What readLoop does with one decoded payload: unparsable JSON and
      messages without an id change nothing. */
  function Dispatch(c: Correlator, m: Incoming): (r: Correlator)
    requires Valid(c)
    ensures Valid(r) && r.nextId == c.nextId && |r.slots| == |c.slots|
    ensures r.table.Keys <= c.table.Keys
    ensures forall id | id in r.table :: r.table[id] == c.table[id]
    ensures IdsBelowCounter(c) ==> IdsBelowCounter(r)
    ensures !(m.Message? && m.id.Some? && m.id.value in c.table) ==> r == c
  {
    match m
    case Unparsable => c
    case Message(None, _) => c
    case Message(Some(id), result) => Deliver(c, id, result)
  }

  /** Dispatching a sequence of payloads in order. */
  function DispatchAll(c: Correlator, ms: seq<Incoming>): (r: Correlator)
    requires Valid(c)
    ensures Valid(r) && r.nextId == c.nextId && |r.slots| == |c.slots|
    ensures r.table.Keys <= c.table.Keys
    ensures forall id | id in r.table :: r.table[id] == c.table[id]
    ensures IdsBelowCounter(c) ==> IdsBelowCounter(r)
    decreases |ms|
  {
    if |ms| == 0 then c else DispatchAll(Dispatch(c, ms[0]), ms[1..])
  }

  /** A receive on channel `h`: the result it holds, emptying it; nothing when
      it is empty, in which case the receiver waits (for ever, if nothing is
      ever delivered). */
  function Receive(c: Correlator, h: nat): (r: Option<(Bytes, Correlator)>)
    requires h < |c.slots|
    ensures r.None? <==> c.slots[h] == Empty
    ensures r.Some? ==> c.slots[h] == Holding(r.value.0)
    ensures r.Some? ==> var c' := r.value.1;
      c'.nextId == c.nextId && c'.table == c.table && c'.slots == c.slots[h := Empty]
    ensures r.Some? && Valid(c) ==> Valid(r.value.1)
  {
    match c.slots[h]
    case Empty => None
    case Holding(result) => Some((result, c.(slots := c.slots[h := Empty])))
  }

  // ---------------------------------------------------------------------------
  // Properties

  /** The result of the first message in `ms` that carries `id`, if any. */
  function FirstReply(ms: seq<Incoming>, id: int): Option<Bytes>
    decreases |ms|
  {
    if |ms| == 0 then None
    else if ms[0].Message? && ms[0].id == Some(id) then Some(ms[0].result)
    else FirstReply(ms[1..], id)
  }

  /** A channel no table entry names is left alone by the reader. */
  lemma {:induction false} UnnamedSlotUntouched(c: Correlator, ms: seq<Incoming>, h: nat)
    requires Valid(c) && h < |c.slots|
    requires forall id | id in c.table :: c.table[id] != h
    ensures DispatchAll(c, ms).slots[h] == c.slots[h]
    decreases |ms|
  {
    if |ms| > 0 {
      UnnamedSlotUntouched(Dispatch(c, ms[0]), ms[1..], h);
    }
  }

  /** Exactly-once delivery: while `id` is awaited on channel `h`, the reader
      fills `h` with the result of the first message carrying `id`, and with
      nothing else; messages for other ids, without an id, or that did not
      parse leave it empty and the entry in place. */
  lemma {:induction false} AwaitedIdGetsFirstReply(c: Correlator, ms: seq<Incoming>, id: int)
    requires Valid(c) && id in c.table
    ensures var r := DispatchAll(c, ms);
      && (id in r.table <==> FirstReply(ms, id).None?)
      && r.slots[c.table[id]] == match FirstReply(ms, id)
           case Some(result) => Holding(result)
           case None => Empty
    decreases |ms|
  {
    var h := c.table[id];
    if |ms| > 0 {
      var c1 := Dispatch(c, ms[0]);
      if ms[0].Message? && ms[0].id == Some(id) {
        assert forall other | other in c1.table :: c1.table[other] != h;
        UnnamedSlotUntouched(c1, ms[1..], h);
      } else {
        assert id in c1.table && c1.table[id] == h;
        AwaitedIdGetsFirstReply(c1, ms[1..], id);
      }
    }
  }

  /** One step of the client's correlation traffic, in whatever order the
      caller and the reader interleave. */
  datatype Step = IssueId | RegisterId(id: int) | Read(m: Incoming) | Take(h: nat)

  /** One step: the new state and the ids it handed out. A `Take` of a channel
      that does not exist or is empty changes nothing. */
  function StepOnce(c: Correlator, step: Step): (r: (Correlator, seq<int>))
    requires Valid(c)
    ensures Valid(r.0)
    ensures r.1 == (if step.IssueId? then [c.nextId] else [])
    ensures r.0.nextId == c.nextId + |r.1|
  {
    match step
    case IssueId => var (id, c1) := NextId(c); (c1, [id])
    case RegisterId(id) => (Register(c, id).1, [])
    case Read(m) => (Dispatch(c, m), [])
    case Take(h) =>
      if h < |c.slots| && c.slots[h].Holding? then (Receive(c, h).value.1, []) else (c, [])
  }

  /** Runs `steps` from `c`, collecting the ids handed out. */
  function Run(c: Correlator, steps: seq<Step>): (r: (Correlator, seq<int>))
    requires Valid(c)
    ensures Valid(r.0)
    ensures r.0.nextId == c.nextId + |r.1|
    ensures forall i | 0 <= i < |r.1| :: r.1[i] == c.nextId + i
    decreases |steps|
  {
    if |steps| == 0 then (c, [])
    else
      var (c1, issued) := StepOnce(c, steps[0]);
      var (c2, later) := Run(c1, steps[1..]);
      (c2, issued + later)
  }

  /** Ids are handed out strictly increasing from the counter, so none is ever
      handed out twice, whatever else happens in between. */
  lemma IdsStrictlyIncrease(c: Correlator, steps: seq<Step>)
    requires Valid(c)
    ensures var ids := Run(c, steps).1;
      && (forall i, j | 0 <= i < j < |ids| :: ids[i] < ids[j])
      && (forall i | 0 <= i < |ids| :: ids[i] >= c.nextId)
  {
  }

  /** A reply to an id nobody awaits (the shutdown reply, say) is dropped. */
  lemma UnawaitedReplyDropped(c: Correlator, id: int, result: Bytes)
    requires Valid(c) && IdsBelowCounter(c) && id >= c.nextId
    ensures Dispatch(c, Message(Some(id), result)) == c
  {
  }
}
