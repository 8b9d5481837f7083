/** The node objects and their manager, updated in place. */
module SlaveNodeObjects {
  import opened Wrappers
  import opened SiiBytes
  import opened EcTypes
  import opened ServoCodec
  import opened EcMasters
  import opened Flattening
  import BusModel
  import SlaveNodes
  import DefaultNodes

  type Node = SlaveNodes.Node

  class SlaveNode {
    const master: EcMaster
    const info: SlaveInfo
    var config: Option<SlaveNodes.SlaveConfig>
    var configured: bool
    // The axis of a servo profile.
    var axis: AxisConfig
    var target: Motion
    var actual: Motion
    var output: seq<byte>
    var input: seq<byte>

    ghost function View(): Node
      reads this
    {
      SlaveNodes.Node(info, config, target, actual, output, input)
    }

    ghost predicate Valid()
      reads this
    {
      && configured == config.Some?
      && SlaveNodes.Covered(View())
      && (config.Some? ==> axis == config.value.axis)
    }

    /** What even an exception keeps: a configured node has a configuration, and its axis. */
    ghost predicate Consistent()
      reads this
    {
      configured ==> config.Some? && axis == config.value.axis
    }

    constructor (master: EcMaster, info: SlaveInfo)
      ensures Valid() && View() == SlaveNodes.NewNode(info) && this.master == master
    {
      this.master, this.info := master, info;
      config, configured, output, input := None, false, [], [];
      axis, target, actual := SlaveNodes.DEFAULT_AXIS, SlaveNodes.REST, SlaveNodes.REST;
    }

    /** Both buffers take the sizes of a mapping; a size that no buffer can have throws and changes no more. */
    method Resize(mapping: PdoMapping) returns (thrown: bool)
      requires SlaveNodes.IntSized(mapping)
      modifies this`output, this`input
      ensures var outputSize := SlaveNodes.SizeOf(mapping.outputs, mapping.outputBytes);
              var inputSize := SlaveNodes.SizeOf(mapping.inputs, mapping.inputBytes);
              && (thrown <==> outputSize > SlaveNodes.MAX_SIZE || inputSize > SlaveNodes.MAX_SIZE)
              && output == (if outputSize > SlaveNodes.MAX_SIZE then old(output)
                  else SlaveNodes.Resized(old(output), outputSize))
              && input == (if thrown then old(input) else SlaveNodes.Resized(old(input), inputSize))
    {
      var outputSize := SlaveNodes.ComputeSize(mapping.outputs, mapping.outputBytes);
      if outputSize > SlaveNodes.MAX_SIZE {
        return true;
      }
      output := SlaveNodes.Resized(output, outputSize);
      var inputSize := SlaveNodes.ComputeSize(mapping.inputs, mapping.inputBytes);
      if inputSize > SlaveNodes.MAX_SIZE {
        return true;
      }
      input := SlaveNodes.Resized(input, inputSize);
      return false;
    }

    lemma PlainSizes(mapping: PdoMapping)
      requires SlaveNodes.IntSized(mapping) && SlaveNodes.WellFormed(mapping)
      ensures SlaveNodes.CoveringSize(mapping.outputs, mapping.outputBytes) ==
          SlaveNodes.SizeOf(mapping.outputs, mapping.outputBytes) <= SlaveNodes.MAX_SIZE
      ensures SlaveNodes.CoveringSize(mapping.inputs, mapping.inputBytes) ==
          SlaveNodes.SizeOf(mapping.inputs, mapping.inputBytes) <= SlaveNodes.MAX_SIZE
    {
      SlaveNodes.SizeIsCovering(mapping.outputs, mapping.outputBytes);
      SlaveNodes.SizeIsCovering(mapping.inputs, mapping.inputBytes);
    }

    lemma CoversPlain(mapping: PdoMapping)
      requires SlaveNodes.IntSized(mapping) && SlaveNodes.WellFormed(mapping)
      ensures AllInside(mapping.outputs, SlaveNodes.SizeOf(mapping.outputs, mapping.outputBytes))
      ensures AllInside(mapping.inputs, SlaveNodes.SizeOf(mapping.inputs, mapping.inputBytes))
    {
      PlainSizes(mapping);
      SlaveNodes.SizeCovers(mapping.outputs, mapping.outputBytes);
      SlaveNodes.SizeCovers(mapping.inputs, mapping.inputBytes);
    }

    /** Fails on a configured node. A mapping whose sizes no buffer can have throws: the configuration is then set
        but the node not configured, and may be configured anew. A well-formed mapping never throws, and the buffers
        cover it. */
    method Configure(config: SlaveNodes.SlaveConfig) returns (r: Option<bool>)
      requires Consistent() && SlaveNodes.IntSized(config.mapping)
      modifies this
      ensures Consistent()
      ensures old(configured) ==> r == Some(false) && View() == old(View()) && configured
      ensures !old(configured) ==>
                var m := config.mapping;
                && this.config == Some(config)
                && (r.None? <==> SlaveNodes.SizeOf(m.outputs, m.outputBytes) > SlaveNodes.MAX_SIZE
                                 || SlaveNodes.SizeOf(m.inputs, m.inputBytes) > SlaveNodes.MAX_SIZE)
                && (r.None? <==> !configured) && (r.Some? ==> r.value)
                && (r.Some? ==> |output| == SlaveNodes.SizeOf(m.outputs, m.outputBytes)
                                && |input| == SlaveNodes.SizeOf(m.inputs, m.inputBytes))
      ensures !old(configured) && SlaveNodes.WellFormed(config.mapping) ==> Valid() && r == Some(true)
      ensures old(Valid()) && SlaveNodes.WellFormed(config.mapping) ==>
                Valid() && View() == SlaveNodes.Configure(old(View()), config)
    {
      if configured {
        return Some(false);
      }
      this.config := Some(config);
      var thrown := Resize(config.mapping);
      if SlaveNodes.WellFormed(config.mapping) { PlainSizes(config.mapping); }
      if thrown {
        return None;
      }
      if SlaveNodes.WellFormed(config.mapping) { CoversPlain(config.mapping); }
      axis, target, actual := config.axis, SlaveNodes.REST, SlaveNodes.REST;
      configured := true;
      assert old(Valid()) && SlaveNodes.WellFormed(config.mapping)
          ==> View() == SlaveNodes.Configure(old(View()), config);
      return Some(true);
    }

    /** Ignored before configuration; otherwise the mapping is taken over and the buffers resized, which throws
        where no buffer can have the size. A well-formed mapping never throws, and the buffers of a configured node
        cover it, whatever mapping it had before. */
    method SetPdoMapping(mapping: PdoMapping) returns (thrown: bool)
      requires Consistent() && SlaveNodes.IntSized(mapping)
      modifies this
      ensures Consistent() && configured == old(configured)
      ensures config.None? <==> old(config).None?
      ensures old(config).None? ==> !thrown && View() == old(View())
      ensures old(config).Some? ==>
                && config == Some(old(config).value.(mapping := mapping))
                && (thrown <==> SlaveNodes.SizeOf(mapping.outputs, mapping.outputBytes) > SlaveNodes.MAX_SIZE
                                || SlaveNodes.SizeOf(mapping.inputs, mapping.inputBytes) > SlaveNodes.MAX_SIZE)
                && (!thrown ==> |output| == SlaveNodes.SizeOf(mapping.outputs, mapping.outputBytes)
                                && |input| == SlaveNodes.SizeOf(mapping.inputs, mapping.inputBytes))
      ensures SlaveNodes.WellFormed(mapping) ==> !thrown && (old(configured) ==> Valid())
      ensures old(Valid()) && SlaveNodes.WellFormed(mapping) ==>
                Valid() && View() == SlaveNodes.SetPdoMapping(old(View()), mapping)
    {
      if config.None? {
        return false;
      }
      config := Some(config.value.(mapping := mapping));
      thrown := Resize(mapping);
      if SlaveNodes.WellFormed(mapping) {
        PlainSizes(mapping);
        CoversPlain(mapping);
        assert old(Valid()) ==> View() == SlaveNodes.SetPdoMapping(old(View()), mapping);
      }
    }

    method SetTarget(target: Motion)
      requires Valid()
      modifies this
      ensures Valid() && View() == SlaveNodes.SetTarget(old(View()), target)
    {
      if config.Some? && config.value.kind.Servo? {
        this.target := target;
      }
    }

    lemma Idle(bus: BusModel.Bus)
      requires Valid() && !configured
      ensures SlaveNodes.Covered(View())
      ensures SlaveNodes.Encoded(View()) == View() && SlaveNodes.OutputEvents(View()) == []
      ensures SlaveNodes.Updated(View(), bus) == View() && SlaveNodes.InputEvents(View()) == []
    {
      SlaveNodes.IdleNode(View(), bus);
    }

    lemma ValidCovered()
      requires Valid()
      ensures SlaveNodes.Covered(View())
    {
    }

    method UpdatePdoOutput()
      requires Valid()
      modifies this, master`trace
      ensures Valid() && View() == SlaveNodes.Encoded(old(View()))
      ensures master.trace == old(master.trace) + SlaveNodes.OutputEvents(old(View()))
    {
      hide EncodeOutputs;
      if !configured {
        return;
      }
      if config.value.kind.Servo? {
        output := EncodeOutputs(axis, target, config.value.mapping.outputs, output);
      }
      if output != [] {
        master.WriteOutput(info.slaveId, output);
      }
    }

    method UpdatePdoInput()
      requires Valid()
      modifies this, master`trace
      ensures Valid() && View() == SlaveNodes.Updated(old(View()), master.View())
      ensures master.trace == old(master.trace) + SlaveNodes.InputEvents(old(View()))
    {
      hide DecodeInputs;
      if !configured {
        return;
      }
      if input != [] {
        input := master.ReadInput(info.slaveId, input);
      }
      if config.value.kind.Servo? {
        actual := DecodeInputs(axis, config.value.mapping.inputs, input);
      }
    }
  }

  class SlaveNodeManager {
    var nodes: seq<SlaveNode>

    ghost predicate Valid(master: EcMaster)
      reads this, nodes
    {
      && (forall i | 0 <= i < |nodes| :: nodes[i].Valid() && nodes[i].master == master)
      && (forall i, j | 0 <= i < j < |nodes| :: nodes[i] != nodes[j])
    }

    ghost function View(): (r: seq<Node>)
      reads this, nodes
      ensures |r| == |nodes|
    {
      seq(|nodes|, i requires 0 <= i < |nodes| reads this, nodes => nodes[i].View())
    }

    constructor ()
      ensures nodes == []
    {
      nodes := [];
    }

    method Initialize(master: EcMaster, infos: seq<SlaveInfo>)
      modifies this
      ensures Valid(master) && View() == SlaveNodes.NewNodes(infos)
      ensures fresh(nodes)
    {
      nodes := [];
      for i := 0 to |infos|
        invariant |nodes| == i && fresh(nodes) && Valid(master)
        invariant forall j | 0 <= j < i :: nodes[j].View() == SlaveNodes.NewNode(infos[j])
      {
        var node := new SlaveNode(master, infos[i]);
        nodes := nodes + [node];
      }
    }

    method Clear()
      modifies this
      ensures nodes == []
    {
      nodes := [];
    }

    method ConfigureAll(ghost master: EcMaster) returns (ok: bool)
      requires Valid(master)
      modifies nodes
      ensures Valid(master) && ok && View() == SlaveNodes.AllConfigured(old(View()))
      ensures forall i | 0 <= i < |nodes| && old(View())[i].config.None? ::
                DefaultNodes.ByDefault(old(View())[i].info, View()[i])
    {
      hide SlaveNodes.CreateConfig;
      hide SlaveNodes.Detect;
      hide SlaveNodes.Covered;
      hide SlaveNodes.WithMapping;
      ok := true;
      for i := 0 to |nodes|
        invariant Valid(master) && ok
        invariant forall j | 0 <= j < i :: nodes[j].View() == SlaveNodes.AutoConfigured(old(nodes[j].View()))
        invariant forall j | i <= j < |nodes| :: nodes[j].View() == old(nodes[j].View())
      {
        SlaveNodes.AutoStep(nodes[i].View());
        if nodes[i].configured {
          continue;
        }
        var kind := SlaveNodes.Detect(nodes[i].info);
        var configuredNow := nodes[i].Configure(SlaveNodes.CreateConfig(kind));
        if configuredNow != Some(true) {
          ok := false;
        }
      }
      forall i | 0 <= i < |nodes| && old(View())[i].config.None?
        ensures DefaultNodes.ByDefault(old(View())[i].info, View()[i])
      {
        DefaultNodes.AutoByDefault(old(View())[i]);
      }
    }

    method UpdateAllOutputs(master: EcMaster)
      requires Valid(master)
      modifies nodes, master`trace
      ensures Valid(master) && View() == SlaveNodes.AllEncoded(old(View()))
      ensures master.trace == old(master.trace) + SlaveNodes.AllOutputs(old(View()))
    {
      hide SlaveNodes.Covered;
      hide SlaveNodes.Encoded;
      hide SlaveNodes.Updated;
      SlaveNodes.NoNodes();
      hide SlaveNodes.AllOutputs;
      hide SlaveNodes.AllInputs;
      hide SlaveNodes.OutputEvents;
      hide SlaveNodes.InputEvents;
      ghost var before := View();
      forall i | 0 <= i < |nodes| ensures SlaveNodes.Covered(before[i]) { nodes[i].ValidCovered(); }
      hide SlaveNode.Valid;
      hide SlaveNode.View;
      for i := 0 to |nodes|
        invariant Valid(master)
        invariant forall j | 0 <= j < i :: nodes[j].View() == SlaveNodes.Encoded(before[j])
        invariant forall j | i <= j < |nodes| :: nodes[j].View() == before[j]
        invariant master.trace == old(master.trace) + SlaveNodes.AllOutputs(before[..i])
      {
        SlaveNodes.OutputsStep(before, i);
        Associative(old(master.trace), SlaveNodes.AllOutputs(before[..i]), SlaveNodes.OutputEvents(before[i]));
        if nodes[i].configured {
          nodes[i].UpdatePdoOutput();
        } else {
          nodes[i].Idle(master.View());
        }
      }
      assert before[..|nodes|] == before;
    }

    method UpdateAllInputs(master: EcMaster)
      requires Valid(master)
      modifies nodes, master`trace
      ensures Valid(master) && View() == SlaveNodes.AllUpdated(old(View()), master.View())
      ensures master.trace == old(master.trace) + SlaveNodes.AllInputs(old(View()))
    {
      hide SlaveNodes.Covered;
      hide SlaveNodes.Encoded;
      hide SlaveNodes.Updated;
      SlaveNodes.NoNodes();
      hide SlaveNodes.AllOutputs;
      hide SlaveNodes.AllInputs;
      hide SlaveNodes.OutputEvents;
      hide SlaveNodes.InputEvents;
      ghost var before := View();
      forall i | 0 <= i < |nodes| ensures SlaveNodes.Covered(before[i]) { nodes[i].ValidCovered(); }
      hide SlaveNode.Valid;
      hide SlaveNode.View;
      ghost var bus := master.View();
      for i := 0 to |nodes|
        invariant Valid(master) && master.View() == bus
        invariant forall j | 0 <= j < i :: nodes[j].View() == SlaveNodes.Updated(before[j], bus)
        invariant forall j | i <= j < |nodes| :: nodes[j].View() == before[j]
        invariant master.trace == old(master.trace) + SlaveNodes.AllInputs(before[..i])
      {
        SlaveNodes.InputsStep(before, i);
        Associative(old(master.trace), SlaveNodes.AllInputs(before[..i]), SlaveNodes.InputEvents(before[i]));
        if nodes[i].configured {
          nodes[i].UpdatePdoInput();
        } else {
          nodes[i].Idle(bus);
        }
      }
      assert before[..|nodes|] == before;
    }
  }
}
