/** The bus master: thin calls into the EtherCAT stack, whose answers come from an arbitrary list of
    replies, and the state requests built from them. */
module BusModel {
  import opened SiiBytes
  import opened EcTypes
  import opened Filtering

  /** The stack context and the answers still to come. The readings that are only logged when a fault
      is entered have answers of their own. */
  datatype Bus = Bus(
    replies: seq<Reply>, snapshots: seq<map<int, nat>>, closed: bool, useDc: bool,
    count: nat, identities: map<int, Identity>, states: map<int, nat>, inputs: map<int, seq<byte>>, expectedWkc: int)

  datatype Out<T> = Out(bus: Bus, value: T, events: seq<Event>)

  function Next(bus: Bus): Reply { if bus.replies == [] then SILENCE else bus.replies[0] }

  /** One answer consumed. */
  function Rest(bus: Bus): Bus { bus.(replies := if bus.replies == [] then [] else bus.replies[1..]) }

  const NEW_BUS := Bus([], [], true, true, 0, map[], map[], map[], 0)

  // ---------- Adapter ----------

  function Initialize(bus: Bus, useDc: bool): Out<bool> {
    var ok := Next(bus).ret != 0;
    Out(Rest(bus).(useDc := useDc, closed := if ok then false else bus.closed), ok, [InitAdapter(ok)])
  }

  function Close(bus: Bus): Out<()> {
    if bus.closed then Out(bus, (), []) else Out(bus.(closed := true), (), [CloseAdapter])
  }

  // ---------- Configuration ----------

  function InfoOf(bus: Bus, slave: int): SlaveInfo {
    if slave <= 0 || slave > bus.count then SlaveInfo(0, NO_IDENTITY, 0)
    else SlaveInfo(slave, if slave in bus.identities then bus.identities[slave] else NO_IDENTITY,
        StateOf(bus.states, slave))
  }

  function InfosOf(bus: Bus, n: nat): (r: seq<SlaveInfo>)
    ensures |r| == n
  {
    seq(n, i requires 0 <= i < n => InfoOf(bus, i + 1))
  }

  function ScanSlaves(bus: Bus): Out<seq<SlaveInfo>> {
    var reply := Next(bus);
    var after := Rest(bus).(count := reply.count, identities := reply.identities, states := reply.states);
    Out(after, if reply.ret <= 0 then [] else InfosOf(after, reply.ret), [ConfigInit(reply.ret)])
  }

  function ConfigureProcessData(bus: Bus): Out<bool> {
    if bus.count == 0 then Out(bus, false, [])
    else Out(Rest(bus).(expectedWkc := Next(bus).ret), true, [ConfigMap])
  }

  /** Always succeeds; the stack is called only when distributed clocks are wanted. */
  function ConfigureDc(bus: Bus): Out<bool> {
    Out(if bus.useDc then Rest(bus) else bus, true, [ConfigDc(bus.useDc)])
  }

  // ---------- AL states ----------

  function ReadStates(bus: Bus): Out<()> {
    Out(Rest(bus).(states := Next(bus).states), (), [ReadState(bus.count, Next(bus).states)])
  }

  /** Writes a requested state and waits; the wait fills the state table in. */
  function WriteAndCheck(bus: Bus, slave: int, state: nat): Out<()> {
    Out(Rest(bus).(states := Next(bus).states), (), [WriteState(slave, state), StateCheck(slave, Next(bus).states)])
  }

  function RequestState(bus: Bus, slave: int, state: nat): Out<bool> {
    var w := WriteAndCheck(bus, slave, state);
    Out(w.bus, StateOf(w.bus.states, slave) == state, w.events)
  }

  /** One round of the retry loop: the value is true if the loop returns in it. */
  function RetryRound(bus: Bus, slave: int, state: nat): Out<bool> {
    var r := ReadStates(bus);
    var actual := StateOf(r.bus.states, slave);
    if actual == state then Out(r.bus, true, r.events)
    else if HasErrorBit(actual) then
      var w := WriteAndCheck(r.bus, slave, Acknowledge(actual));
      Out(w.bus, false, r.events + w.events)
    else
      var w := WriteAndCheck(r.bus, slave, state);
      Out(w.bus, StateOf(w.bus.states, slave) == state, r.events + w.events)
  }

  function Retry(bus: Bus, slave: int, state: nat, rounds: nat): Out<bool>
    decreases rounds
  {
    if rounds == 0 then Out(bus, false, [])
    else
      var one := RetryRound(bus, slave, state);
      if one.value then one
      else
        var more := Retry(one.bus, slave, state, rounds - 1);
        Out(more.bus, more.value, one.events + more.events)
  }

  const MAX_RETRIES := 3

  function RequestStateWithRetry(bus: Bus, slave: int, state: nat): Out<bool> {
    Retry(bus, slave, state, MAX_RETRIES + 1)
  }

  function CheckAll(bus: Bus, state: nat): Out<bool> {
    var r := ReadStates(bus);
    Out(r.bus, AllInState(r.bus.count, r.bus.states, state), r.events)
  }

  /** Sends the outputs and receives the inputs of all slaves; the value is the working counter. */
  function ExchangeData(bus: Bus): Out<int> {
    Out(Rest(bus).(inputs := Next(bus).inputs), Next(bus).ret, [Exchange])
  }

  /** Copies a slave's inputs into a buffer; without a process image, or a shorter one, nothing. */
  function InputOf(bus: Bus, slave: int, buffer: seq<byte>): (r: seq<byte>)
    ensures |r| == |buffer|
  {
    if slave in bus.inputs && |buffer| <= |bus.inputs[slave]| then bus.inputs[slave][..|buffer|] else buffer
  }

  /** One reading of a snapshot: not part of the trace. */
  function SnapshotRead(bus: Bus): Bus {
    if bus.snapshots == [] then bus.(states := map[])
        else bus.(states := bus.snapshots[0], snapshots := bus.snapshots[1..])
  }

  // ---------- What the retry loop keeps, against any bus ----------

  predicate IsWrite(e: Event) { e.WriteState? }

  function Writes(events: seq<Event>): nat { |Filter(IsWrite, events)| }

  /** The state of a slave that an event reports. */
  ghost predicate Reports(e: Event, slave: int, state: nat) {
    || (e.ReadState? && StateOf(e.states, slave) == state)
    || (e.StateCheck? && StateOf(e.states, slave) == state)
  }

  /** What is to be written after a reading: after an error, a state whose low five bits are 16 or more, the low four
      bits of it and 16; after any other the target. */
  function AnswerTo(seen: nat, state: nat): nat { if seen % 0x20 >= 0x10 then seen % 0x10 + 0x10 else state }

  lemma AnswerInNumbers(seen: nat, state: nat)
    ensures AnswerTo(seen, state) == if HasErrorBit(seen) then Acknowledge(seen) else state
  {
    ReadingsInNumbers(seen);
    hide HasErrorBit;
    hide Acknowledge;
  }

  /** The writes among one event, or among a reading, a write and a check. */
  lemma WritesAmong(e: seq<Event>)
    requires |e| == 1 || (|e| == 3 && !e[2].WriteState?)
    requires !e[0].WriteState?
    ensures Writes(e) <= 1
  {
    hide Filter;
    FilterOne(IsWrite, e[0]);
    if |e| == 3 {
      FilterOne(IsWrite, e[1]);
      FilterOne(IsWrite, e[2]);
      FilterAppend(IsWrite, [e[0]], [e[1]]);
      FilterAppend(IsWrite, [e[0]] + [e[1]], [e[2]]);
      assert e == [e[0]] + [e[1]] + [e[2]];
    } else {
      assert e == [e[0]];
    }
  }

  lemma RoundEvents(bus: Bus, slave: int, state: nat)
    ensures var o, seen := RetryRound(bus, slave, state), StateOf(Next(bus).states, slave);
            && (|o.events| == 1 || |o.events| == 3)
            && o.events[0] == ReadState(bus.count, Next(bus).states)
            && (|o.events| == 1 ==> seen == state)
            && (|o.events| == 3 ==>
                  && seen != state && o.events[2].StateCheck?
                  && o.events[1] == WriteState(slave, if HasErrorBit(seen) then Acknowledge(seen) else state))
  {
    hide HasErrorBit;
    hide Acknowledge;
    hide StateOf;
  }

  lemma RoundReports(bus: Bus, slave: int, state: nat)
    ensures var o := RetryRound(bus, slave, state);
            o.value ==> o.events != [] && Reports(o.events[|o.events| - 1], slave, state)
                        && StateOf(o.bus.states, slave) == state
  {
    hide HasErrorBit;
    hide Acknowledge;
    hide StateOf;
  }

  lemma RoundShape(bus: Bus, slave: int, state: nat)
    ensures var o := RetryRound(bus, slave, state);
            && 1 <= |o.events| <= 3 && o.events[0].ReadState?
            && Writes(o.events) <= 1
            && (o.value ==> Reports(o.events[|o.events| - 1], slave, state) && StateOf(o.bus.states, slave) == state)
            && (|o.events| > 1 ==>
                  var seen := StateOf(o.events[0].states, slave);
                  && |o.events| == 3 && seen != state && o.events[2].StateCheck?
                  && o.events[1] == WriteState(slave, AnswerTo(seen, state)))
  {
    RoundEvents(bus, slave, state);
    RoundReports(bus, slave, state);
    WritesAmong(RetryRound(bus, slave, state).events);
    AnswerInNumbers(StateOf(Next(bus).states, slave), state);
    hide RetryRound;
    hide AnswerTo;
    hide Acknowledge;
    hide Writes;
    hide HasErrorBit;
    hide StateOf;
    hide Reports;
  }

  lemma NoWrites()
    ensures Writes([]) == 0
  {
  }

  /** At most one write a round, so at most four; success means that the last reading is the target. */
  lemma {:induction false} RetryBound(bus: Bus, slave: int, state: nat, rounds: nat)
    ensures Writes(Retry(bus, slave, state, rounds).events) <= rounds
    ensures var o := Retry(bus, slave, state, rounds);
            o.value ==>
              && o.events != [] && Reports(o.events[|o.events| - 1], slave, state)
              && StateOf(o.bus.states, slave) == state
    decreases rounds
  {
    hide RetryRound;
    hide Reports;
    hide AnswerTo;
    hide Filter;
    NoWrites();
    if rounds > 0 {
      var one := RetryRound(bus, slave, state);
      RoundShape(bus, slave, state);
      if !one.value {
        RetryBound(one.bus, slave, state, rounds - 1);
        FilterAppend(IsWrite, one.events, Retry(one.bus, slave, state, rounds - 1).events);
      }
    }
  }

  /** Every write of the loop answers the reading just before it. */
  ghost predicate WritesAnswerReadings(events: seq<Event>, slave: int, state: nat) {
    forall k | 0 <= k < |events| && events[k].WriteState? ::
      && k > 0 && events[k - 1].ReadState?
      && var seen := StateOf(events[k - 1].states, slave);
         seen != state && events[k] == WriteState(slave, AnswerTo(seen, state))
  }

  lemma {:induction false} RetryNeverBlind(bus: Bus, slave: int, state: nat, rounds: nat)
    ensures WritesAnswerReadings(Retry(bus, slave, state, rounds).events, slave, state)
    decreases rounds
  {
    hide RetryRound;
    hide AnswerTo;
    if rounds > 0 {
      var one := RetryRound(bus, slave, state);
      RoundShape(bus, slave, state);
      if !one.value {
        var more := Retry(one.bus, slave, state, rounds - 1);
        RetryNeverBlind(one.bus, slave, state, rounds - 1);
        var all := one.events + more.events;
        forall k | 0 <= k < |all| && all[k].WriteState?
          ensures k > 0 && all[k - 1].ReadState?
          ensures var seen := StateOf(all[k - 1].states, slave);
                  seen != state && all[k] == WriteState(slave, AnswerTo(seen, state))
        {
          if k >= |one.events| {
            assert all[k] == more.events[k - |one.events|];
            assert all[k - 1] == more.events[k - |one.events| - 1];
          } else {
            assert all[k] == one.events[k];
          }
        }
      }
    }
  }

  /** The n-th answer of the bus. */
  function Answer(bus: Bus, n: nat): Reply { if n < |bus.replies| then bus.replies[n] else SILENCE }

  // ---------- When the retry loop succeeds ----------

  /** Round i of a loop that begins with answer number first reaches the state: its reading shows it, or shows
      no error and the check after the write does. A check after an acknowledgement does not count. */
  predicate SettlesIn(bus: Bus, first: nat, slave: int, state: nat, i: nat) {
    var seen := StateOf(Answer(bus, first + 2 * i).states, slave);
    seen == state || (seen % 0x20 < 0x10 && StateOf(Answer(bus, first + 2 * i + 1).states, slave) == state)
  }

  predicate SettlesFirstIn(bus: Bus, first: nat, slave: int, state: nat, i: nat) {
    SettlesIn(bus, first, slave, state, i) && forall j | 0 <= j < i :: !SettlesIn(bus, first, slave, state, j)
  }

  /** The number of the answer that comes after a loop that ends in round i. */
  function AnswerAfter(bus: Bus, first: nat, slave: int, state: nat, i: nat): nat {
    first + 2 * i + (if StateOf(Answer(bus, first + 2 * i).states, slave) == state then 1 else 2)
  }

  /** The second bus has k answers fewer to come. */
  ghost predicate Ahead(bus: Bus, k: nat, later: Bus) { forall n: nat :: Answer(later, n) == Answer(bus, k + n) }

  lemma RestAhead(bus: Bus)
    ensures Ahead(bus, 1, Rest(bus))
  {
  }

  lemma AheadCompose(a: Bus, k: nat, b: Bus, l: nat, c: Bus)
    requires Ahead(a, k, b) && Ahead(b, l, c)
    ensures Ahead(a, k + l, c)
  {
    forall n: nat ensures Answer(c, n) == Answer(a, k + l + n) { assert Answer(c, n) == Answer(b, l + n); }
  }

  lemma SameAnswers(a: Bus, b: Bus, k: nat, c: Bus)
    requires Ahead(a, k, b) && b.replies == c.replies
    ensures Ahead(a, k, c)
  {
    forall n: nat ensures Answer(c, n) == Answer(a, k + n) { assert Answer(c, n) == Answer(b, n); }
  }

  lemma SettlesAhead(bus: Bus, k: nat, later: Bus, first: nat, slave: int, state: nat, i: nat)
    requires Ahead(bus, k, later)
    ensures SettlesIn(later, first, slave, state, i) <==> SettlesIn(bus, first + k, slave, state, i)
    ensures AnswerAfter(later, first, slave, state, i) + k == AnswerAfter(bus, first + k, slave, state, i)
  {
    assert Answer(later, first + 2 * i) == Answer(bus, k + (first + 2 * i));
    assert Answer(later, first + 2 * i + 1) == Answer(bus, k + (first + 2 * i + 1));
  }

  lemma RoundReplies(bus: Bus, slave: int, state: nat)
    ensures var o := RetryRound(bus, slave, state);
            && (o.value <==> SettlesIn(bus, 0, slave, state, 0))
            && o.bus.replies == if StateOf(Answer(bus, 0).states, slave) == state then Rest(bus).replies
                else Rest(Rest(bus)).replies
  {
    ReadingsInNumbers(StateOf(Answer(bus, 0).states, slave));
    hide HasErrorBit;
    hide Acknowledge;
    hide StateOf;
    assert Next(bus) == Answer(bus, 0) && Next(Rest(bus)) == Answer(bus, 1);
  }

  lemma RoundSettles(bus: Bus, slave: int, state: nat)
    ensures var o := RetryRound(bus, slave, state);
            && (o.value <==> SettlesIn(bus, 0, slave, state, 0))
            && Ahead(bus, if o.value then AnswerAfter(bus, 0, slave, state, 0) else 2, o.bus)
  {
    hide RetryRound;
    hide StateOf;
    hide Ahead;
    hide Rest;
    RoundReplies(bus, slave, state);
    RestAhead(bus);
    RestAhead(Rest(bus));
    AheadCompose(bus, 1, Rest(bus), 1, Rest(Rest(bus)));
    if StateOf(Answer(bus, 0).states, slave) == state {
      SameAnswers(bus, Rest(bus), 1, RetryRound(bus, slave, state).bus);
    } else {
      SameAnswers(bus, Rest(Rest(bus)), 2, RetryRound(bus, slave, state).bus);
    }
  }

  /** The loop succeeds exactly if some round reaches the state, and then ends in the first that does. */
  lemma {:induction false} RetrySucceedsIff(bus: Bus, slave: int, state: nat, rounds: nat)
    ensures Retry(bus, slave, state, rounds).value <==> exists i ::
        0 <= i < rounds && SettlesIn(bus, 0, slave, state, i)
    ensures forall i: nat | i < rounds && SettlesFirstIn(bus, 0, slave, state, i) ::
              Ahead(bus, AnswerAfter(bus, 0, slave, state, i), Retry(bus, slave, state, rounds).bus)
    decreases rounds
  {
    hide RetryRound;
    hide SettlesIn;
    hide AnswerAfter;
    hide Ahead;
    if rounds > 0 {
      RoundSettles(bus, slave, state);
      var one := RetryRound(bus, slave, state);
      if !one.value {
        RetrySucceedsIff(one.bus, slave, state, rounds - 1);
        var more := Retry(one.bus, slave, state, rounds - 1);
        forall i: nat | i < rounds
          ensures i > 0 ==> SettlesIn(bus, 0, slave, state, i) == SettlesIn(one.bus, 0, slave, state, i - 1)
        {
          if i > 0 { LaterRound(bus, one.bus, slave, state, i); }
        }
        if more.value {
          var k :| 0 <= k < rounds - 1 && SettlesIn(one.bus, 0, slave, state, k);
          assert SettlesIn(bus, 0, slave, state, k + 1);
        }
        forall i: nat | i < rounds && SettlesFirstIn(bus, 0, slave, state, i)
          ensures Ahead(bus, AnswerAfter(bus, 0, slave, state, i), more.bus)
        {
          LaterRound(bus, one.bus, slave, state, i);
          forall j | 0 <= j < i - 1 ensures !SettlesIn(one.bus, 0, slave, state,
              j) { assert !SettlesIn(bus, 0, slave, state, j + 1); }
          AheadCompose(bus, 2, one.bus, AnswerAfter(one.bus, 0, slave, state, i - 1), more.bus);
        }
      }
    }
  }

  lemma LaterRound(bus: Bus, later: Bus, slave: int, state: nat, i: nat)
    requires Ahead(bus, 2, later) && i > 0
    ensures SettlesIn(bus, 0, slave, state, i) == SettlesIn(later, 0, slave, state, i - 1)
    ensures AnswerAfter(bus, 0, slave, state, i) == 2 + AnswerAfter(later, 0, slave, state, i - 1)
  {
    SettlesAhead(bus, 2, later, 0, slave, state, i - 1);
  }

  // ---------- A slave that obeys ----------

  /** A slave that may show an error, clears it when acknowledged, and then follows the request. */
  ghost predicate Obeys(bus: Bus, slave: int, state: nat) {
    if StateOf(Answer(bus, 0).states, slave) % 0x20 >= 0x10
    then StateOf(Answer(bus, 2).states, slave) % 0x20 < 0x10 && StateOf(Answer(bus, 3).states, slave) == state
    else StateOf(Answer(bus, 1).states, slave) == state
  }

  /** Such a slave is reached within two rounds, whatever the acknowledgement itself reads. */
  lemma ObedientSlaveReached(bus: Bus, slave: int, state: nat, rounds: nat)
    requires rounds >= 2 && Obeys(bus, slave, state)
    ensures Retry(bus, slave, state, rounds).value
    ensures Retry(bus, slave, state, rounds) == Retry(bus, slave, state, 2)
  {
    var one := RetryRound(bus, slave, state);
    RoundSettles(bus, slave, state);
    RoundSettles(one.bus, slave, state);
    hide RetryRound;
    if !one.value { LaterRound(bus, one.bus, slave, state, 1); }
  }
}
