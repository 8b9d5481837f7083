/** One process data cycle on the trace: every node's outputs once, the exchange, every node's inputs once. */
module ProcessCycle {
  import opened EcTypes
  import opened Filtering
  import opened ServoCodec
  import opened SlaveNodes
  import opened ControllerModel
  import opened ControllerRuns

  function IsOutput(slave: int): Event -> bool { (e: Event) => e.WriteOutput? && e.slaveId == slave }

  function IsInput(slave: int): Event -> bool { (e: Event) => e.ReadInput? && e.slaveId == slave }

  function OutputsOf(events: seq<Event>, slave: int): nat { |Filter(IsOutput(slave), events)| }

  function InputsOf(events: seq<Event>, slave: int): nat { |Filter(IsInput(slave), events)| }

  lemma CountsAppend(a: seq<Event>, b: seq<Event>, slave: int)
    ensures OutputsOf(a + b, slave) == OutputsOf(a, slave) + OutputsOf(b, slave)
    ensures InputsOf(a + b, slave) == InputsOf(a, slave) + InputsOf(b, slave)
  {
    FilterAppend(IsOutput(slave), a, b);
    FilterAppend(IsInput(slave), a, b);
  }

  lemma CountsNone(slave: int)
    ensures OutputsOf([], slave) == InputsOf([], slave) == 0
  {
  }

  lemma CountsOne(e: Event, slave: int)
    ensures OutputsOf([e], slave) == if e.WriteOutput? && e.slaveId == slave then 1 else 0
    ensures InputsOf([e], slave) == if e.ReadInput? && e.slaveId == slave then 1 else 0
  {
    FilterOne(IsOutput(slave), e);
    FilterOne(IsInput(slave), e);
  }

  /** How often a slave's data is moved in a cycle. */
  function OutputTimes(nodes: seq<Node>, slave: int): nat {
    if 1 <= slave <= |nodes| && nodes[slave - 1].config.Some? && nodes[slave - 1].output != [] then 1 else 0
  }

  function InputTimes(nodes: seq<Node>, slave: int): nat {
    if 1 <= slave <= |nodes| && nodes[slave - 1].config.Some? && nodes[slave - 1].input != [] then 1 else 0
  }

  lemma {:induction false} OutputsOnce(nodes: seq<Node>, slave: int)
    requires AllCovered(nodes) && Numbered(nodes)
    ensures OutputsOf(AllOutputs(nodes), slave) == OutputTimes(nodes, slave)
    ensures InputsOf(AllOutputs(nodes), slave) == 0
    ensures forall e | e in AllOutputs(nodes) :: e.WriteOutput?
    decreases |nodes|
  {
    hide Encoded;
    hide Covered;
    hide InputsOf;
    hide OutputsOf;
    assert InputsOf([], slave) == OutputsOf([], slave) == 0 by { CountsNone(slave); }
    if nodes != [] {
      var front, last := nodes[..|nodes| - 1], nodes[|nodes| - 1];
      OutputsOnce(front, slave);
      CountsAppend(AllOutputs(front), OutputEvents(last), slave);
      if OutputEvents(last) != [] { CountsOne(OutputEvents(last)[0], slave); }
    }
  }

  lemma {:induction false} InputsOnce(nodes: seq<Node>, slave: int)
    requires Numbered(nodes)
    ensures InputsOf(AllInputs(nodes), slave) == InputTimes(nodes, slave)
    ensures OutputsOf(AllInputs(nodes), slave) == 0
    ensures forall e | e in AllInputs(nodes) :: e.ReadInput?
    decreases |nodes|
  {
    hide InputsOf;
    hide OutputsOf;
    assert InputsOf([], slave) == OutputsOf([], slave) == 0 by { CountsNone(slave); }
    if nodes != [] {
      var front, last := nodes[..|nodes| - 1], nodes[|nodes| - 1];
      InputsOnce(front, slave);
      CountsAppend(AllInputs(front), InputEvents(last), slave);
      if InputEvents(last) != [] { CountsOne(InputEvents(last)[0], slave); }
    }
  }

  /** What is written for a slave is its encoded buffer, whole. */
  lemma {:induction false} OutputsAreEncoded(nodes: seq<Node>, k: nat)
    requires AllCovered(nodes) && Numbered(nodes) && k < |AllOutputs(nodes)|
    ensures var e := AllOutputs(nodes)[k];
            e.WriteOutput? && 1 <= e.slaveId <= |nodes| && e.data == Encoded(nodes[e.slaveId - 1]).output
    decreases |nodes|
  {
    hide Encoded;
    hide Covered;
    var front := nodes[..|nodes| - 1];
    if k < |AllOutputs(front)| { OutputsAreEncoded(front, k); }
  }

  lemma EncodedKeeps(nodes: seq<Node>, slave: int)
    requires AllCovered(nodes) && Numbered(nodes)
    ensures var r := AllEncoded(nodes);
            AllCovered(r) && Numbered(r) && InputTimes(r, slave) == InputTimes(nodes, slave)
  {
    hide Covered;
    hide EncodeOutputs;
    EncodedCovered(nodes);
  }

  /** From any controller that a run can reach in Operational: one cycle moves every slave's non-empty
      outputs exactly once before the exchange and its non-empty inputs exactly once after it. */
  lemma CycleComplete(c: Ctl, slave: int)
    requires NodesFit(c) && c.state.Operational?
    ensures var before, s := AllOutputs(c.nodes), DoRunOnce(c);
            var after := AllInputs(AllEncoded(c.nodes));
            && s.events == before + [Exchange] + after
            && OutputsOf(before, slave) ==
                (if 1 <= slave <= c.bus.count && c.nodes[slave - 1].output != [] then 1 else 0)
            && InputsOf(before, slave) == 0
            && InputsOf(after, slave) == (if 1 <= slave <= c.bus.count && c.nodes[slave - 1].input != [] then 1 else 0)
            && OutputsOf(after, slave) == 0
            && (forall k | 0 <= k < |before| :: before[k].WriteOutput? && 1 <= before[k].slaveId <= c.bus.count
                                                && before[k].data == Encoded(c.nodes[before[k].slaveId - 1]).output)
  {
    hide AllOutputs;
    hide AllInputs;
    hide OutputsOf;
    hide InputsOf;
    hide Encoded;
    hide Covered;
    EncodedKeeps(c.nodes, slave);
    OutputsOnce(c.nodes, slave);
    InputsOnce(AllEncoded(c.nodes), slave);
    EachOutputEncoded(c.nodes);
    hide AllEncoded;
    hide Numbered;
  }

  lemma EachOutputEncoded(nodes: seq<Node>)
    requires AllCovered(nodes) && Numbered(nodes)
    ensures forall k | 0 <= k < |AllOutputs(nodes)| ::
              var e := AllOutputs(nodes)[k];
              e.WriteOutput? && 1 <= e.slaveId <= |nodes| && e.data == Encoded(nodes[e.slaveId - 1]).output
  {
    forall k | 0 <= k < |AllOutputs(nodes)|
      ensures var e := AllOutputs(nodes)[k];
              e.WriteOutput? && 1 <= e.slaveId <= |nodes| && e.data == Encoded(nodes[e.slaveId - 1]).output
    {
      OutputsAreEncoded(nodes, k);
    }
  }
}
