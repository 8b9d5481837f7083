/** States, slave data and the trace of what the master does on the bus. */
module EcTypes {
  import opened SiiBytes

  // AL states of the slaves, and the acknowledge and error bit.
  const EC_STATE_INIT := 0x01
  const EC_STATE_PRE_OP := 0x02
  const EC_STATE_SAFE_OP := 0x04
  const EC_STATE_OPERATIONAL := 0x08
  const EC_STATE_ACK := 0x10

  datatype ControllerState =
    | Uninitialized | AdapterReady | Scanned | Maintenance | ReadyToRun | Operational | Fault | EmergencyStop

  datatype Identity = Identity(vendorId: nat, productId: nat, name: string)

  datatype SlaveInfo = SlaveInfo(slaveId: int, identity: Identity, state: nat)

  const NO_IDENTITY := Identity(0, 0, "")

  /** What the bus answers to one call: a return value, and the tables the call may fill in. A table
      has no entry for a slave it says nothing about. */
  datatype Reply = Reply(ret: int, count: nat, identities: map<int, Identity>, states: map<int, nat>, inputs: map<int,
      seq<byte>>)

  /** The answer of a bus that has nothing more to say. */
  const SILENCE := Reply(0, 0, map[], map[], map[])

  /** The calls that reach the bus, with what they read, and the controller steps between them. */
  datatype Event =
    | InitAdapter(ok: bool)
    | CloseAdapter
    | ConfigInit(found: int)
    | ConfigMap
    | ConfigDc(used: bool)
    | ReadState(count: nat, states: map<int, nat>)
    | WriteState(slave: int, state: nat)
    | StateCheck(slave: int, states: map<int, nat>)
    | Exchange
    | WriteOutput(slaveId: int, data: seq<byte>)
    | ReadInput(slaveId: int, length: nat)
    | NodesConfigured
    | Entered(to: ControllerState)

  function StateOf(states: map<int, nat>, slave: int): nat { if slave in states then states[slave] else 0 }

  /** Slaves 1 to count all read this state. */
  predicate AllInState(count: int, states: map<int, nat>, state: nat) {
    forall i | 1 <= i <= count :: StateOf(states, i) == state
  }

  predicate HasErrorBit(state: nat) { state / 0x10 % 2 == 1 }

  /** (actual & 0x0f) | EC_STATE_ACK */
  function Acknowledge(actual: nat): (r: nat)
    ensures 0x10 <= r < 0x20
  {
    actual % 0x10 + EC_STATE_ACK
  }

  /** The readings in numbers: an error is a state whose low five bits are 16 or more, and is acknowledged with
      its low four bits and 16. */
  lemma ReadingsInNumbers(state: nat)
    ensures HasErrorBit(state) <==> state % 0x20 >= 0x10
    ensures Acknowledge(state) == state % 0x10 + 0x10
  {
  }

  /** A slave reads what the table says of it; all slaves read a state if the table says so of each of them. */
  lemma ReadingsOfTable(count: nat, states: map<int, nat>, state: nat)
    requires state != 0
    ensures forall slave | slave in states :: StateOf(states, slave) == states[slave]
    ensures AllInState(count, states, state) <==> forall i | 1 <= i <= count :: i in states && states[i] == state
  {
    if AllInState(count, states, state) {
      forall i | 1 <= i <= count ensures i in states && states[i] == state { assert StateOf(states, i) == state; }
    }
  }

  /** The AL states and the acknowledge bit, as the standard numbers them. */
  lemma AlStateNumbers()
    ensures [EC_STATE_INIT, EC_STATE_PRE_OP, EC_STATE_SAFE_OP, EC_STATE_OPERATIONAL, EC_STATE_ACK] == [1, 2, 4, 8, 16]
  {
  }
}
