/** The controller's lifecycle: every step as a function of the controller, the bus behind it and
    the answers still to come. */
module ControllerModel {
  import opened EcTypes
  import opened BusModel
  import opened ServoCodec
  import opened SlaveNodes

  /** 0 as an expected count, vendor or product stands for any. */
  datatype Config = Config(useDc: bool, expectedCount: int, expected: seq<Identity>)

  const DEFAULT_CONFIG := Config(true, 0, [])

  datatype Ctl = Ctl(state: ControllerState, config: Config, infos: seq<SlaveInfo>, nodes: seq<Node>, bus: Bus)

  datatype Step = Step(ctl: Ctl, ok: bool, events: seq<Event>)

  datatype Action =
    | ActInitializeAdapter | ActScanSlaves | ActEnterMaintenance | ActPrepareRun | ActStartOperation
    | ActBackToMaintenance | ActStop | ActRequestFault | ActRequestEmergencyStop

  function New(replies: seq<Reply>, snapshots: seq<map<int, nat>>): Ctl {
    Ctl(Uninitialized, DEFAULT_CONFIG, [], [], NEW_BUS.(replies := replies, snapshots := snapshots))
  }

  function Allowed(state: ControllerState): set<Action> {
    match state
    case Uninitialized => {ActInitializeAdapter}
    case AdapterReady => {ActScanSlaves, ActStop}
    case Scanned => {ActEnterMaintenance, ActStop}
    case Maintenance => {ActPrepareRun, ActStop}
    case ReadyToRun => {ActStartOperation, ActBackToMaintenance, ActStop}
    case Operational => {ActBackToMaintenance, ActStop}
    case Fault => {ActStop}
    case EmergencyStop => {ActStop}
  }

  // ---------- Sequencing ----------

  function Then<T, U>(first: Out<T>, second: Out<U>): Out<U> {
    Out(second.bus, second.value, first.events + second.events)
  }

  function Skip(bus: Bus): Out<bool> { Out(bus, true, []) }

  /** A step that goes on where o left the bus. */
  function After<T>(o: Out<T>, s: Step): Step { s.(events := o.events + s.events) }

  function Failed(s: Step): Step { s.(ok := false) }

  function Enter(c: Ctl, bus: Bus, state: ControllerState): Step {
    Step(c.(bus := bus, state := state), true, [Entered(state)])
  }

  // ---------- Fault and emergency stop ----------

  function Snapshot(bus: Bus, n: nat): Bus {
    if n == 0 then bus else SnapshotRead(Snapshot(bus, n - 1))
  }

  function EnterStopped(c: Ctl, bus: Bus, state: ControllerState): Step {
    Enter(c, Snapshot(bus, 2 * bus.count), state)
  }

  function EnterFault(c: Ctl, bus: Bus): Step { EnterStopped(c, bus, Fault) }

  // ---------- Shutdown ----------

  function ShutdownRequests(state: ControllerState, bus: Bus): Out<bool> {
    var a := if state.Operational? then RequestState(bus, 0, EC_STATE_SAFE_OP) else Skip(bus);
    var b := if state.Operational? || state.ReadyToRun? || state.Maintenance?
             then RequestStateWithRetry(a.bus, 0, EC_STATE_PRE_OP) else Skip(a.bus);
    var c := if !state.Uninitialized? && !state.AdapterReady? && !state.Scanned?
             then RequestState(b.bus, 0, EC_STATE_INIT) else Skip(b.bus);
    Then(Then(a, b), c)
  }

  function DoShutdown(c: Ctl, bus: Bus): Step {
    var requests := ShutdownRequests(c.state, bus);
    var close := Close(requests.bus);
    After(requests, After(close, Enter(c.(nodes := []), close.bus, Uninitialized)))
  }

  // ---------- Bring-up ----------

  function DoInit(c: Ctl): Step {
    if !c.state.Uninitialized? then Step(c, false, [])
    else
      var o := BusModel.Initialize(c.bus, c.config.useDc);
      if o.value then After(o, Enter(c, o.bus, AdapterReady)) else Step(c.(bus := o.bus), false, o.events)
  }

  predicate IdentityMatches(expected: Identity, actual: Identity) {
    && (expected.vendorId != 0 ==> actual.vendorId == expected.vendorId)
    && (expected.productId != 0 ==> actual.productId == expected.productId)
  }

  /** Some slave was found, in the expected number, with the expected identities. */
  predicate AsExpected(config: Config, infos: seq<SlaveInfo>) {
    && infos != []
    && (config.expectedCount > 0 ==> |infos| == config.expectedCount)
    && forall i | 0 <= i < |infos| && i < |config.expected| :: IdentityMatches(config.expected[i], infos[i].identity)
  }

  function DoScan(c: Ctl): Step {
    if !c.state.AdapterReady? then Step(c, false, [])
    else
      var o := ScanSlaves(c.bus);
      var scanned := c.(infos := o.value);
      After(o, if AsExpected(c.config, o.value) then Enter(scanned, o.bus, Scanned)
          else Failed(DoShutdown(scanned, o.bus)))
  }

  /** Requests a state and, if it was reached, checks it on every slave. */
  function AllReach(request: Out<bool>, state: nat): Out<bool> {
    if request.value then Then(request, CheckAll(request.bus, state)) else request
  }

  function DoEnterMaintenance(c: Ctl): Step {
    if !c.state.Scanned? then Step(c, false, [])
    else
      var o := AllReach(RequestStateWithRetry(c.bus, 0, EC_STATE_PRE_OP), EC_STATE_PRE_OP);
      After(o,
            if !o.value then Failed(DoShutdown(c, o.bus))
            else
              var infos := InfosOf(o.bus, o.bus.count);
              Enter(c.(infos := infos, nodes := NewNodes(infos)), o.bus, Maintenance))
  }

  /** SAFE_OP with process data and, after it, distributed clocks. */
  function ReachSafeOp(bus: Bus): Out<bool> {
    var mapped := ConfigureProcessData(bus);
    if !mapped.value then mapped
    else
      var safe := AllReach(RequestState(mapped.bus, 0, EC_STATE_SAFE_OP), EC_STATE_SAFE_OP);
      if !safe.value then Then(mapped, safe) else Then(Then(mapped, safe), ConfigureDc(safe.bus))
  }

  function DoPrepareRun(c: Ctl): Step {
    if !c.state.Maintenance? then Step(c, false, [])
    else
      var configured := c.(nodes := AllConfigured(c.nodes));
      var o := Then(Out(c.bus, true, [NodesConfigured]), ReachSafeOp(c.bus));
      After(o, if o.value then Enter(configured, o.bus, ReadyToRun) else Failed(EnterFault(configured, o.bus)))
  }

  function DoStartOperation(c: Ctl): Step {
    if !c.state.ReadyToRun? then Step(c, false, [])
    else
      var o := AllReach(RequestState(c.bus, 0, EC_STATE_OPERATIONAL), EC_STATE_OPERATIONAL);
      After(o, if o.value then Enter(c, o.bus, Operational) else Failed(EnterFault(c, o.bus)))
  }

  /** From Operational over SAFE_OP, reached or not. */
  function ReachPreOp(state: ControllerState, bus: Bus): Out<bool> {
    var safe := if state.Operational? then RequestState(bus, 0, EC_STATE_SAFE_OP) else Skip(bus);
    Then(safe, AllReach(RequestStateWithRetry(safe.bus, 0, EC_STATE_PRE_OP), EC_STATE_PRE_OP))
  }

  function DoBackToMaintenance(c: Ctl): Step {
    if !c.state.ReadyToRun? && !c.state.Operational? then Step(c, false, [])
    else
      var o := ReachPreOp(c.state, c.bus);
      After(o, if o.value then Enter(c, o.bus, Maintenance) else Failed(EnterFault(c, o.bus)))
  }

  // ---------- Dispatch ----------

  function DoAction(c: Ctl, action: Action): Step {
    match action
    case ActInitializeAdapter => DoInit(c)
    case ActScanSlaves => DoScan(c)
    case ActEnterMaintenance => DoEnterMaintenance(c)
    case ActPrepareRun => DoPrepareRun(c)
    case ActStartOperation => DoStartOperation(c)
    case ActBackToMaintenance => DoBackToMaintenance(c)
    case ActStop => DoShutdown(c, c.bus)
    case _ => Step(c, false, [])
  }

  function Dispatch(c: Ctl, action: Action): Step {
    if action.ActRequestEmergencyStop? then EnterStopped(c, c.bus, EmergencyStop)
    else if action.ActRequestFault? then EnterFault(c, c.bus)
    else if action !in Allowed(c.state) then Step(c, false, [])
    else DoAction(c, action)
  }

  // ---------- Calls on the controller and by the cyclic engine ----------

  datatype Call =
    | Initialize(config: Config)
    | InitializeAdapter(config: Config)
    | Scan
    | EnterMaintenance
    | PrepareRun
    | StartOperation
    | BackToMaintenance
    | Stop
    | RequestFault
    | RequestEmergencyStop
    | RunOnce
    | CheckSlaveStates
    | SetTarget(index: nat, target: Motion)
    | SetPdoMapping(index: nat, mapping: PdoMapping)

  /** A second step if the first succeeded. */
  function AndThen(first: Step, second: Step): Step {
    if first.ok then second.(events := first.events + second.events) else first
  }

  function DoInitializeAdapter(c: Ctl, config: Config): Step {
    if !c.state.Uninitialized? then Step(c, false, []) else Dispatch(c.(config := config), ActInitializeAdapter)
  }

  function DoInitialize(c: Ctl, config: Config): Step {
    var a := DoInitializeAdapter(c, config);
    var b := AndThen(a, Dispatch(a.ctl, ActScanSlaves));
    AndThen(b, Dispatch(b.ctl, ActEnterMaintenance))
  }

  function DoStop(c: Ctl): Step {
    if c.state.Uninitialized? then Step(c, true, []) else Dispatch(c, ActStop)
  }

  /** One cycle: all outputs, the exchange, all inputs. */
  function DoRunOnce(c: Ctl): Step
    requires AllCovered(c.nodes)
  {
    if !c.state.Operational? then Step(c, true, [])
    else
      var o := ExchangeData(c.bus);
      EncodedCovered(c.nodes);
      Step(c.(nodes := AllUpdated(AllEncoded(c.nodes), o.bus), bus := o.bus), true,
           AllOutputs(c.nodes) + o.events + AllInputs(AllEncoded(c.nodes)))
  }

  /** The state every slave should be in, where the engine watches it. */
  function Watched(state: ControllerState): nat {
    if state.Maintenance? then EC_STATE_PRE_OP else if state.Operational? then EC_STATE_OPERATIONAL else 0
  }

  function DoCheckSlaveStates(c: Ctl): Step {
    if Watched(c.state) == 0 then Step(c, true, [])
    else
      var o := CheckAll(c.bus, Watched(c.state));
      After(o, if o.value then Step(c.(bus := o.bus), true, []) else EnterFault(c, o.bus))
  }

  ghost predicate Proper(call: Call) {
    call.SetPdoMapping? ==> WellFormed(call.mapping)
  }

  function Do(c: Ctl, call: Call): Step
    requires AllCovered(c.nodes) && Proper(call)
  {
    match call
    case Initialize(config) => DoInitialize(c, config)
    case InitializeAdapter(config) => DoInitializeAdapter(c, config)
    case Scan => Dispatch(c, ActScanSlaves)
    case EnterMaintenance => Dispatch(c, ActEnterMaintenance)
    case PrepareRun => Dispatch(c, ActPrepareRun)
    case StartOperation => Dispatch(c, ActStartOperation)
    case BackToMaintenance => Dispatch(c, ActBackToMaintenance)
    case Stop => DoStop(c)
    case RequestFault => Dispatch(c, ActRequestFault)
    case RequestEmergencyStop => Dispatch(c, ActRequestEmergencyStop)
    case RunOnce => DoRunOnce(c)
    case CheckSlaveStates => DoCheckSlaveStates(c)
    case SetTarget(i, target) =>
      if i < |c.nodes| then Step(c.(nodes := c.nodes[i := SlaveNodes.SetTarget(c.nodes[i], target)]), true, [])
      else Step(c, false, [])
    case SetPdoMapping(i, mapping) =>
      if i < |c.nodes| then Step(c.(nodes := c.nodes[i := SlaveNodes.SetPdoMapping(c.nodes[i], mapping)]), true, [])
      else Step(c, false, [])
  }

  lemma EncodedCovered(nodes: seq<Node>)
    requires AllCovered(nodes)
    ensures AllCovered(AllEncoded(nodes))
  {
  }
}
