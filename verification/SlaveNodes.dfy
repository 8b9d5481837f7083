/** Slave nodes as values: type detection, default configurations, buffers, and the data each node
    moves in a cycle. */
module SlaveNodes {
  import opened Wrappers
  import opened SiiBytes
  import opened EcTypes
  import opened BusModel
  import opened ServoCodec

  datatype SlaveType = Unknown | Servo | DigitalIo | AnalogIo

  datatype SlaveConfig = SlaveConfig(kind: SlaveType, axis: AxisConfig, mapping: PdoMapping)

  /** Buffers and axis values exist from configuration on. */
  datatype Node = Node(
    info: SlaveInfo, config: Option<SlaveConfig>, target: Motion, actual: Motion, output: seq<byte>, input: seq<byte>)

  const REST := Motion(0.0, 0.0, 0.0)

  // ---------- Types and default configurations ----------

  function ToLower(s: string): string
  {
    seq(|s|, i requires 0 <= i < |s| => if 'A' <= s[i] <= 'Z' then s[i] - 'A' + 'a' else s[i])
  }

  predicate Contains(s: string, word: string) {
    exists i | 0 <= i <= |s| :: word <= s[i..]
  }

  /** One exact rule, then keywords in the name. */
  function Detect(info: SlaveInfo): SlaveType {
    var name := ToLower(info.identity.name);
    if info.identity.vendorId == 0x766 && info.identity.productId == 0x2000 then Servo
    else if Contains(name, "servo") || Contains(name, "motor") || Contains(name, "drive") then Servo
    else if Contains(name, "digital") || Contains(name, "dio") then DigitalIo
    else if Contains(name, "analog") || Contains(name, "aio") then AnalogIo
    else Unknown
  }

  const DEFAULT_AXIS := AxisConfig(0.001, 0.001, 0.001, 1)

  const SERVO_MAPPING := PdoMapping(
    10, 10,
    [PdoEntry("target_position", 0, 4), PdoEntry("target_velocity", 4, 4), PdoEntry("target_torque", 8, 2)],
    [PdoEntry("position_actual_value", 0, 4), PdoEntry("velocity_actual_value", 4, 4),
        PdoEntry("torque_actual_value", 8, 2)])

  function CreateConfig(kind: SlaveType): (r: SlaveConfig)
    ensures WellFormed(r.mapping) && IntSized(r.mapping)
  {
    SlaveConfig(kind, DEFAULT_AXIS,
                match kind
                case Servo => SERVO_MAPPING
                case DigitalIo => PdoMapping(1, 1, [], [])
                case AnalogIo => PdoMapping(4, 4, [], [])
                case Unknown => PdoMapping(0, 0, [], []))
  }

  // ---------- Buffer sizes ----------

  predicate NonNegative(entries: seq<PdoEntry>) {
    forall i | 0 <= i < |entries| :: entries[i].offset >= 0 && entries[i].size >= 0
  }

  predicate WellFormed(m: PdoMapping) {
    NonNegative(m.outputs) && NonNegative(m.inputs) && m.outputBytes >= 0 && m.inputBytes >= 0
  }

  function Extent(entries: seq<PdoEntry>): (r: nat) {
    if entries == [] then 0
    else
      var last, front := entries[|entries| - 1], Extent(entries[..|entries| - 1]);
      if last.offset + last.size > front then last.offset + last.size else front
  }

  /** The end of the furthest entry, or the given size if that is 0. */
  function CoveringSize(entries: seq<PdoEntry>, bytes: int): int {
    if Extent(entries) == 0 then bytes else Extent(entries)
  }

  // The source computes in size_t: a negative end becomes a huge size, which no buffer can have.

  const TWO64 := 0x1_0000_0000_0000_0000

  const MAX_SIZE := 0x7FFF_FFFF_FFFF_FFFF

  /** static_cast<size_t> */
  function ToSize(v: int): nat { v % TWO64 }

  predicate IsInt(v: int) { -0x8000_0000 <= v < 0x8000_0000 }

  predicate IntEntries(entries: seq<PdoEntry>) {
    forall i | 0 <= i < |entries| :: IsInt(entries[i].offset) && IsInt(entries[i].size)
        && IsInt(entries[i].offset + entries[i].size)
  }

  /** The fields, and the sums the source forms of them, are ints. */
  predicate IntSized(m: PdoMapping) {
    IntEntries(m.outputs) && IntEntries(m.inputs) && IsInt(m.outputBytes) && IsInt(m.inputBytes)
  }

  function SizeExtent(entries: seq<PdoEntry>): nat {
    if entries == [] then 0
    else
      var end, front := ToSize(entries[|entries| - 1].offset + entries[|entries| - 1].size),
          SizeExtent(entries[..|entries| - 1]);
      if end > front then end else front
  }

  function SizeOf(entries: seq<PdoEntry>, bytes: int): nat {
    if SizeExtent(entries) == 0 then ToSize(bytes) else SizeExtent(entries)
  }

  method ComputeSize(entries: seq<PdoEntry>, bytes: int) returns (size: nat)
    ensures size == SizeOf(entries, bytes)
  {
    size := 0;
    for i := 0 to |entries|
      invariant size == SizeExtent(entries[..i])
    {
      assert entries[..i + 1][..i] == entries[..i];
      var end := ToSize(entries[i].offset + entries[i].size);
      if end > size {
        size := end;
      }
    }
    assert entries[..|entries|] == entries;
    if size == 0 {
      size := ToSize(bytes);
    }
  }

  /** Without negative values this is the covering size. */
  lemma {:induction false} SizeExtentPlain(entries: seq<PdoEntry>)
    requires IntEntries(entries) && NonNegative(entries)
    ensures SizeExtent(entries) == Extent(entries) < 0x8000_0000
    decreases |entries|
  {
    if entries != [] {
      var last := entries[|entries| - 1];
      assert 0 <= last.offset + last.size < 0x8000_0000;
      SizeExtentPlain(entries[..|entries| - 1]);
    }
  }

  lemma SizeIsCovering(entries: seq<PdoEntry>, bytes: int)
    requires IntEntries(entries) && NonNegative(entries) && IsInt(bytes) && bytes >= 0
    ensures SizeOf(entries, bytes) == CoveringSize(entries, bytes) <= MAX_SIZE
  {
    SizeExtentPlain(entries);
  }

  lemma ToSizeOfInt(v: int)
    requires IsInt(v)
    ensures (ToSize(v) > MAX_SIZE <==> v < 0) && (ToSize(v) == 0 <==> v == 0)
  {
  }

  predicate EndsBelow(entries: seq<PdoEntry>) {
    exists i :: 0 <= i < |entries| && entries[i].offset + entries[i].size < 0
  }

  predicate EndsAtZero(entries: seq<PdoEntry>) {
    forall i | 0 <= i < |entries| :: entries[i].offset + entries[i].size == 0
  }

  lemma EndsStep(entries: seq<PdoEntry>)
    requires entries != []
    ensures var front, last := entries[..|entries| - 1], entries[|entries| - 1];
            && (EndsBelow(entries) <==> EndsBelow(front) || last.offset + last.size < 0)
            && (EndsAtZero(entries) <==> EndsAtZero(front) && last.offset + last.size == 0)
  {
    var front := entries[..|entries| - 1];
    if EndsBelow(front) {
      var i :| 0 <= i < |front| && front[i].offset + front[i].size < 0;
      assert entries[i] == front[i];
    }
    if EndsBelow(entries) {
      var i :| 0 <= i < |entries| && entries[i].offset + entries[i].size < 0;
      if i < |front| { assert front[i] == entries[i]; }
    }
    if EndsAtZero(entries) {
      forall i | 0 <= i < |front| ensures front[i].offset + front[i].size == 0 { assert front[i] == entries[i]; }
    }
  }

  lemma {:induction false} SizeExtentHuge(entries: seq<PdoEntry>)
    requires IntEntries(entries)
    ensures SizeExtent(entries) > MAX_SIZE <==> EndsBelow(entries)
    ensures SizeExtent(entries) == 0 <==> EndsAtZero(entries)
    decreases |entries|
  {
    hide ToSize;
    if entries != [] {
      var last := entries[|entries| - 1];
      SizeExtentHuge(entries[..|entries| - 1]);
      assert IsInt(last.offset + last.size);
      ToSizeOfInt(last.offset + last.size);
      EndsStep(entries);
      hide EndsBelow;
      hide EndsAtZero;
    }
  }

  /** No buffer can have the size exactly if some entry ends below 0, or all end at 0 and the fallback is negative. */
  lemma ResizeFailsIff(entries: seq<PdoEntry>, bytes: int)
    requires IntEntries(entries) && IsInt(bytes)
    ensures SizeOf(entries, bytes) > MAX_SIZE <==>
              EndsBelow(entries) || (bytes < 0 && EndsAtZero(entries))
  {
    SizeExtentHuge(entries);
    ToSizeOfInt(bytes);
  }

  /** Where a buffer can have the computed size, it contains every entry exactly if no entry has a negative offset
      or size: those are the mappings the cycle is defined for. */
  lemma BufferCoversIff(entries: seq<PdoEntry>, bytes: int)
    requires IntEntries(entries) && IsInt(bytes) && SizeOf(entries, bytes) <= MAX_SIZE
    ensures AllInside(entries, SizeOf(entries, bytes)) <==> NonNegative(entries)
  {
    if NonNegative(entries) {
      SizeExtentPlain(entries);
      ExtentIsLeast(entries, SizeOf(entries, bytes));
    }
    if AllInside(entries, SizeOf(entries, bytes)) {
      forall i | 0 <= i < |entries| ensures entries[i].offset >= 0 && entries[i].size >= 0 {
        assert Inside(entries[i], SizeOf(entries, bytes));
      }
    }
  }

  /** A mapping the source takes without complaint and whose buffer does not contain its entry. */
  const NEGATIVE_ENTRIES := [PdoEntry("target_position", -2, 4)]

  lemma NegativeOffsetTaken()
    ensures SizeOf(NEGATIVE_ENTRIES, 0) == 2 && !AllInside(NEGATIVE_ENTRIES, 2)
  {
    BufferCoversIff(NEGATIVE_ENTRIES, 0);
    assert NEGATIVE_ENTRIES[..0] == [];
    assert NEGATIVE_ENTRIES[0].offset < 0;
  }

  /** A length contains all entries exactly from the extent on. */
  lemma {:induction false} ExtentIsLeast(entries: seq<PdoEntry>, length: nat)
    requires NonNegative(entries)
    ensures AllInside(entries, length) <==> Extent(entries) <= length
    decreases |entries|
  {
    if entries != [] {
      var front := entries[..|entries| - 1];
      ExtentIsLeast(front, length);
      if AllInside(entries, length) {
        forall i | 0 <= i < |front| ensures Inside(front[i], length) { assert front[i] == entries[i]; }
        assert Inside(entries[|entries| - 1], length);
      }
      if Extent(entries) <= length {
        forall i | 0 <= i < |entries| ensures Inside(entries[i], length) {
          if i < |front| { assert front[i] == entries[i]; }
        }
      }
    }
  }

  /** The computed size covers every entry, and is the least such size unless no entry has any extent. */
  lemma SizeCovers(entries: seq<PdoEntry>, bytes: nat)
    requires NonNegative(entries)
    ensures CoveringSize(entries, bytes) >= 0 && AllInside(entries, CoveringSize(entries, bytes))
    ensures forall n: nat :: AllInside(entries, n) && Extent(entries) > 0 ==> CoveringSize(entries, bytes) <= n
  {
    ExtentIsLeast(entries, CoveringSize(entries, bytes));
    forall n: nat | AllInside(entries, n) && Extent(entries) > 0 ensures CoveringSize(entries, bytes) <= n {
      ExtentIsLeast(entries, n);
    }
  }

  // ---------- One node ----------

  function NewNode(info: SlaveInfo): Node { Node(info, None, REST, REST, [], []) }

  function Resized(buffer: seq<byte>, size: nat): (r: seq<byte>)
    ensures |r| == size
  {
    if size <= |buffer| then buffer[..size] else buffer + seq(size - |buffer|, _ => 0)
  }

  /** What fits of the old bytes is kept, and the rest is zero. */
  lemma ResizedKeeps(buffer: seq<byte>, size: nat)
    ensures forall k | 0 <= k < size :: Resized(buffer, size)[k] == if k < |buffer| then buffer[k] else 0
  {
  }

  /** A configured node's buffers cover every entry of its mapping. */
  ghost predicate Covered(n: Node) {
    n.config.Some? ==>
      && WellFormed(n.config.value.mapping)
      && AllInside(n.config.value.mapping.outputs, |n.output|)
      && AllInside(n.config.value.mapping.inputs, |n.input|)
  }

  function WithMapping(n: Node, config: SlaveConfig): (r: Node)
    requires WellFormed(config.mapping)
    ensures Covered(r)
  {
    SizeCovers(config.mapping.outputs, config.mapping.outputBytes);
    SizeCovers(config.mapping.inputs, config.mapping.inputBytes);
    n.(config := Some(config),
       output := Resized(n.output, CoveringSize(config.mapping.outputs, config.mapping.outputBytes)),
       input := Resized(n.input, CoveringSize(config.mapping.inputs, config.mapping.inputBytes)))
  }

  /** Fails if already configured. */
  function Configure(n: Node, config: SlaveConfig): Node
    requires WellFormed(config.mapping)
  {
    if n.config.Some? then n else WithMapping(n.(target := REST, actual := REST), config)
  }

  /** Ignored before configuration. The axis keeps the scales it was configured with. */
  function SetPdoMapping(n: Node, mapping: PdoMapping): Node
    requires WellFormed(mapping)
  {
    if n.config.None? then n else WithMapping(n, n.config.value.(mapping := mapping))
  }

  function SetTarget(n: Node, target: Motion): Node {
    if n.config.Some? && n.config.value.kind.Servo? then n.(target := target) else n
  }

  /** The output buffer after encoding; only the servo profile does anything. */
  function Encoded(n: Node): (r: Node)
    requires Covered(n)
    ensures Covered(r) && |r.output| == |n.output|
  {
    if n.config.Some? && n.config.value.kind.Servo?
    then n.(output := EncodeOutputs(n.config.value.axis, n.target, n.config.value.mapping.outputs, n.output))
    else n
  }

  function OutputEvents(n: Node): seq<Event>
    requires Covered(n)
  {
    if n.config.Some? && n.output != [] then [WriteOutput(n.info.slaveId, Encoded(n).output)] else []
  }

  /** The node after reading its inputs from the bus and decoding them. */
  function Updated(n: Node, bus: Bus): (r: Node)
    requires Covered(n)
    ensures Covered(r)
  {
    if n.config.None? then n
    else
      var input := InputOf(bus, n.info.slaveId, n.input);
      if n.config.value.kind.Servo?
      then n.(input := input, actual := DecodeInputs(n.config.value.axis, n.config.value.mapping.inputs, input))
      else n.(input := input)
  }

  function InputEvents(n: Node): seq<Event> {
    if n.config.Some? && n.input != [] then [ReadInput(n.info.slaveId, |n.input|)] else []
  }

  lemma IdleNode(n: Node, bus: Bus)
    requires Covered(n) && n.config.None?
    ensures Encoded(n) == n && OutputEvents(n) == [] && Updated(n, bus) == n && InputEvents(n) == []
  {
  }

  // ---------- All nodes ----------

  ghost predicate AllCovered(nodes: seq<Node>) { forall i | 0 <= i < |nodes| :: Covered(nodes[i]) }

  function NewNodes(infos: seq<SlaveInfo>): (r: seq<Node>)
    ensures |r| == |infos| && AllCovered(r)
  {
    seq(|infos|, i requires 0 <= i < |infos| => NewNode(infos[i]))
  }

  function AutoConfigured(n: Node): Node {
    var config := CreateConfig(Detect(n.info));
    Configure(n, config)
  }

  lemma AutoCovered(n: Node)
    requires Covered(n)
    ensures Covered(AutoConfigured(n)) && AutoConfigured(n).config.Some? && AutoConfigured(n).info == n.info
    ensures n.config.Some? ==> AutoConfigured(n) == n
  {
  }

  lemma AutoStep(n: Node)
    ensures AutoConfigured(n) == if n.config.Some? then n else Configure(n, CreateConfig(Detect(n.info)))
  {
  }

  function AllConfigured(nodes: seq<Node>): (r: seq<Node>)
    ensures |r| == |nodes|
  {
    seq(|nodes|, i requires 0 <= i < |nodes| => AutoConfigured(nodes[i]))
  }

  function AllEncoded(nodes: seq<Node>): (r: seq<Node>)
    requires AllCovered(nodes)
    ensures |r| == |nodes|
  {
    seq(|nodes|, i requires 0 <= i < |nodes| => Encoded(nodes[i]))
  }

  function AllOutputs(nodes: seq<Node>): seq<Event>
    requires AllCovered(nodes)
  {
    if nodes == [] then [] else AllOutputs(nodes[..|nodes| - 1]) + OutputEvents(nodes[|nodes| - 1])
  }

  function AllUpdated(nodes: seq<Node>, bus: Bus): (r: seq<Node>)
    requires AllCovered(nodes)
    ensures |r| == |nodes|
  {
    seq(|nodes|, i requires 0 <= i < |nodes| => Updated(nodes[i], bus))
  }

  function AllInputs(nodes: seq<Node>): seq<Event> {
    if nodes == [] then [] else AllInputs(nodes[..|nodes| - 1]) + InputEvents(nodes[|nodes| - 1])
  }

  lemma NoNodes()
    ensures AllOutputs([]) == [] && AllInputs([]) == []
  {
  }

  lemma OutputsStep(nodes: seq<Node>, i: nat)
    requires AllCovered(nodes) && i < |nodes|
    ensures AllOutputs(nodes[..i + 1]) == AllOutputs(nodes[..i]) + OutputEvents(nodes[i])
  {
    assert nodes[..i + 1][..i] == nodes[..i];
  }

  lemma InputsStep(nodes: seq<Node>, i: nat)
    requires i < |nodes|
    ensures AllInputs(nodes[..i + 1]) == AllInputs(nodes[..i]) + InputEvents(nodes[i])
  {
    assert nodes[..i + 1][..i] == nodes[..i];
  }

  // ---------- From a command back to the feedback ----------

  lemma ExtentOfThree(entries: seq<PdoEntry>)
    requires |entries| == 3 && NonNegative(entries)
    requires entries[0].offset + entries[0].size <= entries[1].offset + entries[1].size < entries[2].offset +
        entries[2].size
    ensures Extent(entries) == entries[2].offset + entries[2].size
  {
    assert entries[..2][..1] == entries[..1] && entries[..1][..0] == [];
    assert Extent(entries[..1]) == entries[0].offset + entries[0].size;
    assert Extent(entries[..2]) == entries[1].offset + entries[1].size;
  }

  /** The default servo mapping is one for which the loop-back theorem holds. */
  lemma ServoMappingLoopsBack()
    ensures WellFormed(SERVO_MAPPING) && LoopBackMapping(SERVO_MAPPING)
    ensures CoveringSize(SERVO_MAPPING.outputs, 10) == 10 && CoveringSize(SERVO_MAPPING.inputs, 10) == 10
  {
    var o, i := SERVO_MAPPING.outputs, SERVO_MAPPING.inputs;
    assert o[1..][0] == o[1] && o[1..][1..] == o[2..] && o[2..][0] == o[2];
    assert i[1..][0] == i[1] && i[1..][1..] == i[2..] && i[2..][0] == i[2];
    assert FindEntry(o, "target_velocity") == FindEntry(o[1..], "target_velocity");
    assert FindEntry(o, "target_torque") == FindEntry(o[1..], "target_torque") == FindEntry(o[2..], "target_torque");
    assert FindEntry(i, "velocity_actual_value") == FindEntry(i[1..], "velocity_actual_value");
    assert FindEntry(i, "torque_actual_value") == FindEntry(i[1..], "torque_actual_value") ==
        FindEntry(i[2..], "torque_actual_value");
    ExtentOfThree(o);
    ExtentOfThree(i);
  }

  /** A configured servo whose outputs the bus hands back as its inputs reads back what it was told,
      each value within one scale unit. */
  lemma NodeLoopBack(n: Node, bus: Bus)
    requires n.config.Some? && Covered(n)
    requires var c := n.config.value;
             && c.kind.Servo? && LoopBackMapping(c.mapping) && InRange(c.axis, n.target)
                 && (c.axis.direction == 1 || c.axis.direction == -1)
    requires |n.input| == |n.output| && n.info.slaveId in bus.inputs
    requires bus.inputs[n.info.slaveId] == Encoded(n).output
    ensures var axis, back := n.config.value.axis, Updated(Encoded(n), bus).actual;
            && ReadsBack(n.target.position, back.position, axis.positionScale)
            && ReadsBack(n.target.velocity, back.velocity, axis.velocityScale)
            && ReadsBack(n.target.torque, back.torque, axis.torqueScale)
  {
    hide ReadsBack;
    hide DecodeInputs;
    hide EncodeOutputs;
    var c := n.config.value;
    ServoLoopBack(c.axis, n.target, c.mapping, n.output);
    var e := Encoded(n).output;
    assert e[..|e|] == e;
  }
}
