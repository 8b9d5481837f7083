/** When each lifecycle call succeeds, by the answers of the bus, and what Stop sends. */
module LifecycleOutcomes {
  import opened EcTypes
  import opened Filtering
  import opened BusModel
  import opened SlaveNodes
  import opened ControllerModel
  import opened ControllerRuns

  lemma AdapterOpensIff(c: Ctl, config: Config)
    requires c.state.Uninitialized?
    ensures DoInitializeAdapter(c, config).ok <==> Answer(c.bus, 0).ret != 0
  {
  }

  /** Slaves found, as many as expected and with the expected identities, position by position; 0 expects nothing. */
  predicate ScanAccepted(config: Config, reply: Reply) {
    && reply.ret > 0
    && (config.expectedCount > 0 ==> reply.ret == config.expectedCount)
    && forall slave | 1 <= slave <= reply.ret && slave <= |config.expected| ::
         SameOrAny(config.expected[slave - 1].vendorId, FoundIdentity(reply, slave).vendorId)
         && SameOrAny(config.expected[slave - 1].productId, FoundIdentity(reply, slave).productId)
  }

  /** 0 expects nothing. */
  predicate SameOrAny(expected: nat, found: nat) { expected == 0 || found == expected }

  lemma MatchMeaning(expected: Identity, found: Identity)
    ensures IdentityMatches(expected, found) <==>
              SameOrAny(expected.vendorId, found.vendorId) && SameOrAny(expected.productId, found.productId)
  {
  }

  lemma ScanSucceedsIff(c: Ctl)
    requires c.state.AdapterReady?
    ensures DoScan(c).ok <==> ScanAccepted(c.config, Answer(c.bus, 0))
  {
    hide DoShutdown;
    hide IdentityMatches;
    var reply := Answer(c.bus, 0);
    var o := ScanSlaves(c.bus);
    if reply.ret > 0 {
      forall slave | 1 <= slave <= reply.ret ensures o.value[slave - 1].identity == FoundIdentity(reply, slave) {}
      if DoScan(c).ok {
        forall slave | 1 <= slave <= reply.ret && slave <= |c.config.expected|
          ensures SameOrAny(c.config.expected[slave - 1].vendorId, FoundIdentity(reply, slave).vendorId)
          ensures SameOrAny(c.config.expected[slave - 1].productId, FoundIdentity(reply, slave).productId)
        {
          var i := slave - 1;
          assert IdentityMatches(c.config.expected[i], o.value[i].identity);
          MatchMeaning(c.config.expected[i], o.value[i].identity);
        }
      } else if ScanAccepted(c.config, reply) {
        forall i | 0 <= i < |o.value|
            && i < |c.config.expected| ensures IdentityMatches(c.config.expected[i], o.value[i].identity) {
          var slave := i + 1;
          assert SameOrAny(c.config.expected[slave - 1].vendorId, FoundIdentity(reply, slave).vendorId);
          MatchMeaning(c.config.expected[i], o.value[i].identity);
        }
      }
    }
  }

  /** The slaves a scan reports are numbered from 1, with the identities found and the AL states the answer shows. */
  lemma ScanReports(c: Ctl, slave: int)
    requires c.state.AdapterReady? && DoScan(c).ok && 1 <= slave <= Answer(c.bus, 0).ret
    ensures |DoScan(c).ctl.infos| == Answer(c.bus, 0).ret
    ensures var reply, info := Answer(c.bus, 0), DoScan(c).ctl.infos[slave - 1];
            && info.identity == FoundIdentity(reply, slave)
            && (slave <= reply.count ==> info.slaveId == slave)
            && (slave <= reply.count && slave in reply.states ==> info.state == reply.states[slave])
  {
    hide DoShutdown;
    hide AsExpected;
  }

  /** The identity the scan reports for a slave; nothing beyond the stack's own slave count. */
  function FoundIdentity(reply: Reply, slave: int): Identity {
    if slave <= reply.count && slave in reply.identities then reply.identities[slave] else NO_IDENTITY
  }

  /** From answer first on: some round of the retry loop first reaches PRE_OP, and the reading that follows the
      loop shows PRE_OP on all count slaves. */
  predicate PreOpConfirmed(bus: Bus, first: nat, count: nat) {
    exists i: nat :: i < 4 && SettlesFirstIn(bus, first, 0, EC_STATE_PRE_OP, i)
                     && AllInState(count, Answer(bus, AnswerAfter(bus, first, 0, EC_STATE_PRE_OP, i)).states,
                         EC_STATE_PRE_OP)
  }

  lemma LeastRound(bus: Bus, first: nat, rounds: nat)
    requires exists i :: 0 <= i < rounds && SettlesIn(bus, first, 0, EC_STATE_PRE_OP, i)
    ensures exists i: nat :: i < rounds && SettlesFirstIn(bus, first, 0, EC_STATE_PRE_OP, i)
    decreases rounds
  {
    hide SettlesIn;
    if exists i :: 0 <= i < rounds - 1 && SettlesIn(bus, first, 0, EC_STATE_PRE_OP, i) {
      LeastRound(bus, first, rounds - 1);
    } else {
      var i :| 0 <= i < rounds && SettlesIn(bus, first, 0, EC_STATE_PRE_OP, i);
      assert SettlesFirstIn(bus, first, 0, EC_STATE_PRE_OP, i);
    }
  }

  lemma OnlyOneFirst(bus: Bus, i: nat, j: nat)
    requires SettlesFirstIn(bus, 0, 0, EC_STATE_PRE_OP, i) && SettlesFirstIn(bus, 0, 0, EC_STATE_PRE_OP, j)
    ensures i == j
  {
    hide SettlesIn;
  }

  lemma PreOpReachedIff(bus: Bus)
    ensures AllReach(RequestStateWithRetry(bus, 0, EC_STATE_PRE_OP), EC_STATE_PRE_OP).value
        <==> PreOpConfirmed(bus, 0, bus.count)
  {
    hide SettlesIn;
    hide SettlesFirstIn;
    hide AnswerAfter;
    hide AllInState;
    hide Answer;
    hide Retry;
    RetrySucceedsIff(bus, 0, EC_STATE_PRE_OP, MAX_RETRIES + 1);
    RetryKeepsSlaves(bus, 0, EC_STATE_PRE_OP, MAX_RETRIES + 1);
    var request := RequestStateWithRetry(bus, 0, EC_STATE_PRE_OP);
    CheckReads(request.bus, EC_STATE_PRE_OP);
    if request.value {
      LeastRound(bus, 0, MAX_RETRIES + 1);
      var i: nat :| i < MAX_RETRIES + 1 && SettlesFirstIn(bus, 0, 0, EC_STATE_PRE_OP, i);
      var n := AnswerAfter(bus, 0, 0, EC_STATE_PRE_OP, i);
      assert Answer(request.bus, 0) == Answer(bus, n + 0);
      if PreOpConfirmed(bus, 0, bus.count) {
        var k: nat :| k < 4 && SettlesFirstIn(bus, 0, 0, EC_STATE_PRE_OP, k)
                      && AllInState(bus.count, Answer(bus, AnswerAfter(bus, 0, 0, EC_STATE_PRE_OP, k)).states,
                          EC_STATE_PRE_OP);
        OnlyOneFirst(bus, i, k);
      }
    } else {
      NotSettled(bus);
    }
  }

  lemma CheckReads(bus: Bus, state: nat)
    ensures CheckAll(bus, state).value <==> AllInState(bus.count, Answer(bus, 0).states, state)
  {
  }

  lemma NotSettled(bus: Bus)
    requires !exists i :: 0 <= i < MAX_RETRIES + 1 && SettlesIn(bus, 0, 0, EC_STATE_PRE_OP, i)
    ensures !PreOpConfirmed(bus, 0, bus.count)
  {
    hide SettlesIn;
    hide AnswerAfter;
    hide AllInState;
  }

  lemma ConfirmedAhead(bus: Bus, k: nat, later: Bus, count: nat)
    requires Ahead(bus, k, later)
    ensures PreOpConfirmed(later, 0, count) <==> PreOpConfirmed(bus, k, count)
  {
    hide AllInState;
    hide SettlesIn;
    hide AnswerAfter;
    hide Answer;
    forall i: nat
      ensures SettlesIn(later, 0, 0, EC_STATE_PRE_OP, i) == SettlesIn(bus, k, 0, EC_STATE_PRE_OP, i)
      ensures SettlesFirstIn(later, 0, 0, EC_STATE_PRE_OP, i) == SettlesFirstIn(bus, k, 0, EC_STATE_PRE_OP, i)
      ensures Answer(later, AnswerAfter(later, 0, 0, EC_STATE_PRE_OP, i)) ==
          Answer(bus, AnswerAfter(bus, k, 0, EC_STATE_PRE_OP, i))
    {
      FirstAhead(bus, k, later, i);
    }
  }

  lemma FirstAhead(bus: Bus, k: nat, later: Bus, i: nat)
    requires Ahead(bus, k, later)
    ensures SettlesIn(later, 0, 0, EC_STATE_PRE_OP, i) == SettlesIn(bus, k, 0, EC_STATE_PRE_OP, i)
    ensures SettlesFirstIn(later, 0, 0, EC_STATE_PRE_OP, i) == SettlesFirstIn(bus, k, 0, EC_STATE_PRE_OP, i)
    ensures Answer(later, AnswerAfter(later, 0, 0, EC_STATE_PRE_OP, i)) ==
        Answer(bus, AnswerAfter(bus, k, 0, EC_STATE_PRE_OP, i))
  {
    hide SettlesIn;
    hide AnswerAfter;
    hide Answer;
    forall j: nat ensures SettlesIn(later, 0, 0, EC_STATE_PRE_OP, j) == SettlesIn(bus, k, 0, EC_STATE_PRE_OP, j) {
      SettlesAhead(bus, k, later, 0, 0, EC_STATE_PRE_OP, j);
    }
    SettlesAhead(bus, k, later, 0, 0, EC_STATE_PRE_OP, i);
    assert Answer(later, AnswerAfter(later, 0, 0, EC_STATE_PRE_OP, i)) ==
        Answer(bus, k + AnswerAfter(later, 0, 0, EC_STATE_PRE_OP, i));
  }

  /** Maintenance is entered exactly if PRE_OP is confirmed by the answers of the bus. */
  lemma MaintenanceEnteredIff(c: Ctl)
    requires c.state.Scanned?
    ensures DoEnterMaintenance(c).ok <==> PreOpConfirmed(c.bus, 0, c.bus.count)
  {
    hide AllReach;
    hide Retry;
    hide PreOpConfirmed;
    hide DoShutdown;
    hide InfosOf;
    hide NewNodes;
    PreOpReachedIff(c.bus);
  }

  /** The run is prepared if slaves were found, the first SAFE_OP check reads SAFE_OP and then every slave does. */
  lemma PreparedIff(c: Ctl)
    requires c.state.Maintenance?
    ensures DoPrepareRun(c).ok <==>
              && c.bus.count > 0
              && StateOf(Answer(c.bus, 1).states, 0) == EC_STATE_SAFE_OP
              && AllInState(c.bus.count, Answer(c.bus, 2).states, EC_STATE_SAFE_OP)
  {
    hide AllConfigured;
    hide Snapshot;
    hide ReachSafeOp;
    SafeOpReachedIff(c.bus);
  }

  lemma SafeOpReachedIff(bus: Bus)
    ensures ReachSafeOp(bus).value <==>
              && bus.count > 0
              && StateOf(Answer(bus, 1).states, 0) == EC_STATE_SAFE_OP
              && AllInState(bus.count, Answer(bus, 2).states, EC_STATE_SAFE_OP)
  {
    hide AllInState;
    hide StateOf;
    var mapped := Rest(bus);
    assert Next(mapped) == Answer(bus, 1) && Next(Rest(mapped)) == Answer(bus, 2);
  }

  lemma OperationalIff(c: Ctl)
    requires c.state.ReadyToRun?
    ensures DoStartOperation(c).ok <==>
              && StateOf(Answer(c.bus, 0).states, 0) == EC_STATE_OPERATIONAL
              && AllInState(c.bus.count, Answer(c.bus, 1).states, EC_STATE_OPERATIONAL)
  {
    hide Snapshot;
    hide AllInState;
    hide StateOf;
    assert Next(Rest(c.bus)) == Answer(c.bus, 1);
  }

  /** The way back succeeds exactly if PRE_OP is confirmed by the answers; what the bus says to the SAFE_OP request
      on the way down from Operational makes no difference. */
  lemma BackIff(c: Ctl)
    requires c.state.ReadyToRun? || c.state.Operational?
    ensures DoBackToMaintenance(c).ok <==> PreOpConfirmed(c.bus, if c.state.Operational? then 1 else 0, c.bus.count)
  {
    hide AllReach;
    hide Retry;
    hide PreOpConfirmed;
    hide Snapshot;
    hide Ahead;
    hide StateOf;
    var bus := if c.state.Operational? then RequestState(c.bus, 0, EC_STATE_SAFE_OP).bus else c.bus;
    PreOpReachedIff(bus);
    if c.state.Operational? {
      RestAhead(c.bus);
      SameAnswers(c.bus, Rest(c.bus), 1, bus);
      ConfirmedAhead(c.bus, 1, bus, c.bus.count);
    }
  }

  /** The whole bring-up to Maintenance: the adapter opens, the scan finds what is expected, and PRE_OP is confirmed
      on as many slaves as the scan counted. */
  lemma InitializeSucceedsIff(c: Ctl, config: Config)
    requires c.state.Uninitialized?
    ensures DoInitialize(c, config).ok <==>
              && Answer(c.bus, 0).ret != 0
              && ScanAccepted(config, Answer(c.bus, 1))
              && PreOpConfirmed(c.bus, 2, Answer(c.bus, 1).count)
  {
    hide DoScan;
    hide DoEnterMaintenance;
    hide ScanAccepted;
    hide PreOpConfirmed;
    hide Ahead;
    var a := DoInitializeAdapter(c, config);
    AdapterOpensIff(c, config);
    RestAhead(c.bus);
    if a.ok {
      assert a.ctl.state == AdapterReady && a.ctl.config == config;
      SameAnswers(c.bus, Rest(c.bus), 1, a.ctl.bus);
      SecondAnswer(c.bus, a.ctl.bus);
      ScanSucceedsIff(a.ctl);
      var b := DoScan(a.ctl);
      if b.ok {
        ScanLeaves(a.ctl);
        RestAhead(a.ctl.bus);
        AheadCompose(c.bus, 1, a.ctl.bus, 1, Rest(a.ctl.bus));
        SameAnswers(c.bus, Rest(a.ctl.bus), 2, b.ctl.bus);
        MaintenanceEnteredIff(b.ctl);
        ConfirmedAhead(c.bus, 2, b.ctl.bus, b.ctl.bus.count);
      }
    }
  }

  lemma SecondAnswer(a: Bus, b: Bus)
    requires Ahead(a, 1, b)
    ensures Answer(b, 0) == Answer(a, 1)
  {
    assert Answer(b, 0) == Answer(a, 1 + 0);
  }

  lemma ScanLeaves(c: Ctl)
    requires c.state.AdapterReady? && DoScan(c).ok
    ensures DoScan(c).ctl.state == Scanned
    ensures DoScan(c).ctl.bus.replies == Rest(c.bus).replies && DoScan(c).ctl.bus.count == Answer(c.bus, 0).count
  {
    hide AsExpected;
    hide DoShutdown;
    hide InfosOf;
  }

  // ---------- Stop ----------

  /** The AL states written, in order; 0 for one not written to all slaves. */
  function Written(events: seq<Event>): seq<nat> { StatesWritten(Filter(IsWrite, events)) }

  /** An AL state written to all slaves at once, which is what slave 0 stands for. */
  predicate ToAll(e: Event) { e.WriteState? && e.slave == 0 }

  function StatesWritten(writes: seq<Event>): seq<nat> {
    seq(|writes|, i requires 0 <= i < |writes| => if ToAll(writes[i]) then writes[i].state else 0)
  }

  lemma WrittenAppend(a: seq<Event>, b: seq<Event>)
    ensures Written(a + b) == Written(a) + Written(b)
  {
    FilterAppend(IsWrite, a, b);
  }

  lemma WrittenByRequest(bus: Bus, state: nat)
    ensures Written(RequestState(bus, 0, state).events) == [state]
  {
    var e := RequestState(bus, 0, state).events;
    assert e == [e[0]] + [e[1]];
    WrittenAppend([e[0]], [e[1]]);
    WrittenOne(e[0]);
    WrittenOne(e[1]);
  }

  /** The retried requests of one call for PRE_OP: only PRE_OP and acknowledgements. */
  predicate DownToPreOp(states: seq<nat>) {
    |states| <= 4 && forall i | 0 <= i < |states| ::
        states[i] == EC_STATE_PRE_OP || 0x10 <= states[i] < 0x20
  }

  lemma {:induction false} WrittenByRetry(bus: Bus, rounds: nat)
    ensures var w := Written(Retry(bus, 0, EC_STATE_PRE_OP, rounds).events);
            |w| <= rounds && forall i | 0 <= i < |w| :: w[i] == EC_STATE_PRE_OP || 0x10 <= w[i] < 0x20
    decreases rounds
  {
    hide RetryRound;
    hide Written;
    NothingWritten();
    if rounds > 0 {
      var one := RetryRound(bus, 0, EC_STATE_PRE_OP);
      WrittenByRound(bus);
      if !one.value {
        WrittenByRetry(one.bus, rounds - 1);
        WrittenAppend(one.events, Retry(one.bus, 0, EC_STATE_PRE_OP, rounds - 1).events);
      }
    }
  }

  lemma WrittenByRound(bus: Bus)
    ensures var w := Written(RetryRound(bus, 0, EC_STATE_PRE_OP).events);
            |w| <= 1 && forall i | 0 <= i < |w| :: w[i] == EC_STATE_PRE_OP || 0x10 <= w[i] < 0x20
  {
    var e := RetryRound(bus, 0, EC_STATE_PRE_OP).events;
    RoundShape(bus, 0, EC_STATE_PRE_OP);
    hide RetryRound;
    hide Written;
    hide StateOf;
    hide HasErrorBit;
    if |e| == 3 {
      assert e == [e[0]] + [e[1]] + [e[2]];
      WrittenAppend([e[0]], [e[1]]);
      WrittenAppend([e[0]] + [e[1]], [e[2]]);
      WrittenOne(e[1]);
      WrittenOne(e[2]);
    } else {
      assert e == [e[0]];
    }
    WrittenOne(e[0]);
  }

  lemma WrittenOne(e: Event)
    ensures Written([e]) == if e.WriteState? then [if e.slave == 0 then e.state else 0] else []
  {
    FilterOne(IsWrite, e);
  }

  /** What Stop writes in each state, given what the request for PRE_OP took. */
  function StopSequence(state: ControllerState, preOp: seq<nat>): seq<nat> {
    match state
    case Operational => [EC_STATE_SAFE_OP] + preOp + [EC_STATE_INIT]
    case ReadyToRun => preOp + [EC_STATE_INIT]
    case Maintenance => preOp + [EC_STATE_INIT]
    case Fault => [EC_STATE_INIT]
    case EmergencyStop => [EC_STATE_INIT]
    case _ => []
  }

  /** The AL states Stop writes: rolled back one level after the other from the working states, INIT alone in
      a fault - even if the adapter was never opened - and none before Maintenance. */
  lemma StopWrites(c: Ctl)
    ensures exists preOp :: DownToPreOp(preOp) && Written(DoStop(c).events) == StopSequence(c.state, preOp)
  {
    hide Retry;
    hide Written;
    NothingWritten();
    var preOp := RequestsWrite(c.state, c.bus);
    if !c.state.Uninitialized? {
      var requests := ShutdownRequests(c.state, c.bus);
      ClosingWrites(requests.bus);
      hide ShutdownRequests;
      hide Close;
      WrittenAppend(requests.events, Close(requests.bus).events + [Entered(Uninitialized)]);
      assert Written(DoStop(c).events) == Written(requests.events);
    }
    assert DownToPreOp(preOp);
  }

  lemma RequestsWrite(state: ControllerState, bus: Bus) returns (preOp: seq<nat>)
    ensures DownToPreOp(preOp) && Written(ShutdownRequests(state, bus).events) == StopSequence(state, preOp)
  {
    hide Retry;
    hide Written;
    NothingWritten();
    var a := if state.Operational? then RequestState(bus, 0, EC_STATE_SAFE_OP) else Skip(bus);
    var b := if Working(state) then RequestStateWithRetry(a.bus, 0, EC_STATE_PRE_OP) else Skip(a.bus);
    var d := if Working(state) || Stopped(state) then RequestState(b.bus, 0, EC_STATE_INIT) else Skip(b.bus);
    assert ShutdownRequests(state, bus) == Then(Then(a, b), d);
    WrittenByRequest(bus, EC_STATE_SAFE_OP);
    WrittenByRetry(a.bus, MAX_RETRIES + 1);
    WrittenByRequest(b.bus, EC_STATE_INIT);
    hide RequestState;
    hide ShutdownRequests;
    WrittenAppend(a.events, b.events);
    WrittenAppend(a.events + b.events, d.events);
    return Written(b.events);
  }

  lemma NothingWritten()
    ensures Written([]) == []
  {
  }

  lemma ClosingWrites(bus: Bus)
    ensures Written(Close(bus).events + [Entered(Uninitialized)]) == []
  {
    FilterNone(IsWrite, Close(bus).events + [Entered(Uninitialized)]);
  }

  // ---------- Every call ----------

  /** What each call writes, given what its request for PRE_OP, if it has one, took. */
  function CallSequence(c: Ctl, call: Call, preOp: seq<nat>): seq<nat> {
    match call
    case Initialize(_) => if c.state.Uninitialized? then preOp else []
    case EnterMaintenance => if c.state.Scanned? then preOp else []
    case PrepareRun => if c.state.Maintenance? && c.bus.count > 0 then [EC_STATE_SAFE_OP] else []
    case StartOperation => if c.state.ReadyToRun? then [EC_STATE_OPERATIONAL] else []
    case BackToMaintenance =>
      if c.state.Operational? then [EC_STATE_SAFE_OP] + preOp else if c.state.ReadyToRun? then preOp else []
    case Stop => StopSequence(c.state, preOp)
    case _ => []
  }

  lemma NoneWritten(events: seq<Event>)
    requires forall e | e in events :: !e.WriteState?
    ensures Written(events) == []
  {
    FilterNone(IsWrite, events);
  }

  lemma ReachWrites(request: Out<bool>, state: nat)
    ensures Written(AllReach(request, state).events) == Written(request.events)
  {
    if request.value {
      WrittenAppend(request.events, CheckAll(request.bus, state).events);
      NoneWritten(CheckAll(request.bus, state).events);
    }
  }

  lemma PreOpWrites(bus: Bus)
    ensures DownToPreOp(Written(AllReach(RequestStateWithRetry(bus, 0, EC_STATE_PRE_OP), EC_STATE_PRE_OP).events))
  {
    WrittenByRetry(bus, MAX_RETRIES + 1);
    ReachWrites(RequestStateWithRetry(bus, 0, EC_STATE_PRE_OP), EC_STATE_PRE_OP);
    hide Written;
    hide Retry;
    hide AllReach;
  }

  lemma StepWrites<T>(o: Out<T>, s: Step)
    ensures Written(After(o, s).events) == Written(o.events) + Written(s.events)
  {
    WrittenAppend(o.events, s.events);
  }

  lemma EntryWrites(c: Ctl, bus: Bus, state: ControllerState)
    ensures Written(Enter(c, bus, state).events) == []
    ensures Written(EnterFault(c, bus).events) == []
  {
    hide Snapshot;
    NoneWritten([Entered(state)]);
    NoneWritten([Entered(Fault)]);
  }

  lemma ShutdownWritesNothing(c: Ctl, bus: Bus)
    requires c.state.AdapterReady? || c.state.Scanned?
    ensures Written(DoShutdown(c, bus).events) == []
  {
    hide Written;
    var preOp := RequestsWrite(c.state, bus);
    var requests := ShutdownRequests(c.state, bus);
    ClosingWrites(requests.bus);
    WrittenAppend(requests.events, Close(requests.bus).events + [Entered(Uninitialized)]);
  }

  lemma ScanWrites(c: Ctl)
    ensures Written(DoScan(c).events) == []
  {
    hide Written;
    hide AsExpected;
    hide DoShutdown;
    hide InfosOf;
    NothingWritten();
    if c.state.AdapterReady? {
      var o := ScanSlaves(c.bus);
      var scanned := c.(infos := o.value);
      NoneWritten(o.events);
      ShutdownWritesNothing(scanned, o.bus);
      EntryWrites(scanned, o.bus, Scanned);
      StepWrites(o, if AsExpected(c.config, o.value) then Enter(scanned, o.bus, Scanned)
          else DoShutdown(scanned, o.bus));
    }
  }

  lemma MaintenanceWrites(c: Ctl) returns (preOp: seq<nat>)
    ensures DownToPreOp(preOp)
    ensures Written(DoEnterMaintenance(c).events) == if c.state.Scanned? then preOp else []
  {
    hide Written;
    hide Retry;
    hide AllReach;
    hide InfosOf;
    hide NewNodes;
    hide DoShutdown;
    NothingWritten();
    preOp := [];
    if c.state.Scanned? {
      var o := AllReach(RequestStateWithRetry(c.bus, 0, EC_STATE_PRE_OP), EC_STATE_PRE_OP);
      PreOpWrites(c.bus);
      preOp := Written(o.events);
      ShutdownWritesNothing(c, o.bus);
      var infos := InfosOf(o.bus, o.bus.count);
      var entered := Enter(c.(infos := infos, nodes := NewNodes(infos)), o.bus, Maintenance);
      EntryWrites(c.(infos := infos, nodes := NewNodes(infos)), o.bus, Maintenance);
      StepWrites(o, if o.value then entered else DoShutdown(c, o.bus));
    }
  }

  lemma SafeOpWrites(bus: Bus)
    ensures Written(ReachSafeOp(bus).events) == if bus.count > 0 then [EC_STATE_SAFE_OP] else []
  {
    hide Written;
    hide AllReach;
    NothingWritten();
    var mapped := ConfigureProcessData(bus);
    if mapped.value {
      var request := RequestState(mapped.bus, 0, EC_STATE_SAFE_OP);
      var safe := AllReach(request, EC_STATE_SAFE_OP);
      WrittenByRequest(mapped.bus, EC_STATE_SAFE_OP);
      hide RequestState;
      ReachWrites(request, EC_STATE_SAFE_OP);
      NoneWritten(mapped.events);
      NoneWritten(ConfigureDc(safe.bus).events);
      WrittenAppend(mapped.events, safe.events);
      WrittenAppend(mapped.events + safe.events, ConfigureDc(safe.bus).events);
    }
  }

  lemma PrepareWrites(c: Ctl)
    requires c.state.Maintenance?
    ensures Written(DoPrepareRun(c).events) == if c.bus.count > 0 then [EC_STATE_SAFE_OP] else []
  {
    hide Written;
    hide ReachSafeOp;
    hide AllConfigured;
    hide EnterFault;
    var configured := c.(nodes := AllConfigured(c.nodes));
    var safe := ReachSafeOp(c.bus);
    var o := Then(Out(c.bus, true, [NodesConfigured]), safe);
    SafeOpWrites(c.bus);
    NoneWritten([NodesConfigured]);
    WrittenAppend([NodesConfigured], safe.events);
    EntryWrites(configured, o.bus, ReadyToRun);
    StepWrites(o, if o.value then Enter(configured, o.bus, ReadyToRun) else EnterFault(configured, o.bus));
  }

  lemma StartWrites(c: Ctl)
    requires c.state.ReadyToRun?
    ensures Written(DoStartOperation(c).events) == [EC_STATE_OPERATIONAL]
  {
    hide Written;
    hide AllReach;
    hide EnterFault;
    var request := RequestState(c.bus, 0, EC_STATE_OPERATIONAL);
    var o := AllReach(request, EC_STATE_OPERATIONAL);
    WrittenByRequest(c.bus, EC_STATE_OPERATIONAL);
    hide RequestState;
    ReachWrites(request, EC_STATE_OPERATIONAL);
    EntryWrites(c, o.bus, Operational);
    StepWrites(o, if o.value then Enter(c, o.bus, Operational) else EnterFault(c, o.bus));
  }

  lemma BackWrites(c: Ctl) returns (preOp: seq<nat>)
    requires c.state.ReadyToRun? || c.state.Operational?
    ensures DownToPreOp(preOp)
    ensures Written(DoBackToMaintenance(c).events) ==
            if c.state.Operational? then [EC_STATE_SAFE_OP] + preOp else preOp
  {
    hide Written;
    hide Retry;
    hide AllReach;
    hide EnterFault;
    NothingWritten();
    var safe := if c.state.Operational? then RequestState(c.bus, 0, EC_STATE_SAFE_OP) else Skip(c.bus);
    var down := AllReach(RequestStateWithRetry(safe.bus, 0, EC_STATE_PRE_OP), EC_STATE_PRE_OP);
    var o := Then(safe, down);
    assert o == ReachPreOp(c.state, c.bus);
    WrittenByRequest(c.bus, EC_STATE_SAFE_OP);
    hide RequestState;
    PreOpWrites(safe.bus);
    preOp := Written(down.events);
    WrittenAppend(safe.events, down.events);
    EntryWrites(c, o.bus, Maintenance);
    StepWrites(o, if o.value then Enter(c, o.bus, Maintenance) else EnterFault(c, o.bus));
  }

  lemma AdapterWrites(c: Ctl, config: Config)
    ensures Written(DoInitializeAdapter(c, config).events) == []
  {
    NoneWritten(DoInitializeAdapter(c, config).events);
  }

  lemma InitializeWrites(c: Ctl, config: Config) returns (preOp: seq<nat>)
    ensures DownToPreOp(preOp)
    ensures Written(DoInitialize(c, config).events) == if c.state.Uninitialized? then preOp else []
  {
    hide Written;
    hide DoScan;
    hide DoEnterMaintenance;
    NothingWritten();
    preOp := [];
    var a := DoInitializeAdapter(c, config);
    AdapterWrites(c, config);
    if a.ok {
      var scan := DoScan(a.ctl);
      ScanWrites(a.ctl);
      WrittenAppend(a.events, scan.events);
      if scan.ok {
        ScanLeaves(a.ctl);
        preOp := MaintenanceWrites(scan.ctl);
        WrittenAppend(a.events + scan.events, DoEnterMaintenance(scan.ctl).events);
      }
    }
  }

  lemma CycleWrites(c: Ctl)
    requires NodesCovered(c)
    ensures Written(DoRunOnce(c).events) == []
  {
    hide Covered;
    hide AllUpdated;
    EncodedCovered(c.nodes);
    OutputsOnly(c.nodes);
    InputsOnly(AllEncoded(c.nodes));
    hide AllOutputs;
    hide AllInputs;
    hide AllEncoded;
    NoneWritten(DoRunOnce(c).events);
  }

  lemma QuietWrites(c: Ctl)
    ensures Written(DoCheckSlaveStates(c).events) == []
    ensures Written(Dispatch(c, ActRequestFault).events) == []
    ensures Written(Dispatch(c, ActRequestEmergencyStop).events) == []
  {
    hide Snapshot;
    hide AllInState;
    NoneWritten(DoCheckSlaveStates(c).events);
    NoneWritten(Dispatch(c, ActRequestFault).events);
    NoneWritten(Dispatch(c, ActRequestEmergencyStop).events);
  }

  /** The AL states every call writes to the bus, all of them to all slaves at once: SAFE_OP to prepare, OPERATIONAL to
      start, down over SAFE_OP from Operational, PRE_OP with its acknowledgements to enter Maintenance or come back to
      it; no other call but Stop writes any, and no call outside its states. */
  lemma CallWrites(c: Ctl, call: Call)
    requires NodesCovered(c) && Proper(call)
    ensures exists preOp :: DownToPreOp(preOp) && Written(Do(c, call).events) == CallSequence(c, call, preOp)
  {
    hide Written;
    hide DoScan;
    hide DoEnterMaintenance;
    hide DoPrepareRun;
    hide DoStartOperation;
    hide DoBackToMaintenance;
    hide DoInitialize;
    hide DoInitializeAdapter;
    hide DoStop;
    hide DoRunOnce;
    hide DoCheckSlaveStates;
    hide DownToPreOp;
    hide Covered;
    hide EnterStopped;
    NothingWritten();
    var preOp: seq<nat> := [];
    assert DownToPreOp(preOp) by { EmptyDown(); }
    match call
    case Initialize(config) => preOp := InitializeWrites(c, config);
    case InitializeAdapter(config) => AdapterWrites(c, config);
    case Scan => ScanWrites(c);
    case EnterMaintenance => preOp := MaintenanceWrites(c);
    case PrepareRun => if c.state.Maintenance? { PrepareWrites(c); }
    case StartOperation => if c.state.ReadyToRun? { StartWrites(c); }
    case BackToMaintenance => if c.state.ReadyToRun? || c.state.Operational? { preOp := BackWrites(c); }
    case Stop =>
      StopWrites(c);
      preOp :| DownToPreOp(preOp) && Written(DoStop(c).events) == StopSequence(c.state, preOp);
    case RunOnce => CycleWrites(c);
    case CheckSlaveStates => QuietWrites(c);
    case RequestFault => QuietWrites(c);
    case RequestEmergencyStop => QuietWrites(c);
    case _ =>
    assert DownToPreOp(preOp) && Written(Do(c, call).events) == CallSequence(c, call, preOp);
  }

  lemma EmptyDown()
    ensures DownToPreOp([])
  {
  }

  // ---------- A bus that obeys ----------

  /** Ten answers of a bus with n slaves that follow every request at once. */
  predicate Obedient(replies: seq<Reply>, n: nat) {
    && |replies| == 10 && n > 0
    && replies[0].ret != 0
    && replies[1].ret == n && replies[1].count == n
    && StateOf(replies[2].states, 0) == EC_STATE_PRE_OP && AllInState(n, replies[3].states, EC_STATE_PRE_OP)
    && StateOf(replies[5].states, 0) == EC_STATE_SAFE_OP && AllInState(n, replies[6].states, EC_STATE_SAFE_OP)
    && StateOf(replies[8].states, 0) == EC_STATE_OPERATIONAL && AllInState(n, replies[9].states, EC_STATE_OPERATIONAL)
  }

  /** The controller is in this state, expecting nothing in particular, with n slaves and these answers to come. */
  predicate Reached(c: Ctl, state: ControllerState, n: nat, replies: seq<Reply>) {
    c.state == state && c.config == DEFAULT_CONFIG && c.bus.useDc && c.bus.count == n && c.bus.replies == replies
  }

  lemma ObedientScan(c: Ctl, n: nat, count: nat)
    requires Reached(c, AdapterReady, count, c.bus.replies) && c.bus.replies != []
    requires c.bus.replies[0].ret == n > 0 && c.bus.replies[0].count == n
    ensures Reached(DoScan(c).ctl, Scanned, n, c.bus.replies[1..]) && DoScan(c).ok
  {
    hide DoShutdown;
  }

  lemma ObedientMaintenance(c: Ctl, n: nat)
    requires Reached(c, Scanned, n, c.bus.replies) && |c.bus.replies| >= 2
    requires StateOf(c.bus.replies[0].states, 0) == EC_STATE_PRE_OP
        && AllInState(n, c.bus.replies[1].states, EC_STATE_PRE_OP)
    ensures Reached(DoEnterMaintenance(c).ctl, Maintenance, n, c.bus.replies[2..])
  {
    hide DoShutdown;
    hide StateOf;
    hide AllInState;
    assert RequestStateWithRetry(c.bus, 0, EC_STATE_PRE_OP) == ReadOnce(c.bus) by { RetryAtOnce(c.bus); }
  }

  function ReadOnce(bus: Bus): Out<bool> { Out(ReadStates(bus).bus, true, ReadStates(bus).events) }

  lemma RetryAtOnce(bus: Bus)
    requires StateOf(Next(bus).states, 0) == EC_STATE_PRE_OP
    ensures RequestStateWithRetry(bus, 0, EC_STATE_PRE_OP) == ReadOnce(bus)
  {
  }

  lemma ObedientPrepare(c: Ctl, n: nat)
    requires Reached(c, Maintenance, n, c.bus.replies) && |c.bus.replies| >= 4 && n > 0
    requires StateOf(c.bus.replies[1].states, 0) == EC_STATE_SAFE_OP
        && AllInState(n, c.bus.replies[2].states, EC_STATE_SAFE_OP)
    ensures Reached(DoPrepareRun(c).ctl, ReadyToRun, n, c.bus.replies[4..])
  {
    hide StateOf;
    hide AllInState;
    hide AllConfigured;
    hide Snapshot;
    SafeOpReachedIff(c.bus);
    var r := c.bus.replies;
    assert r[1..][0] == r[1] && r[1..][1..] == r[2..] && r[2..][0] == r[2] && r[2..][1..] == r[3..]
        && r[3..][1..] == r[4..];
  }

  lemma ObedientStart(c: Ctl, n: nat)
    requires Reached(c, ReadyToRun, n, c.bus.replies) && |c.bus.replies| >= 2
    requires StateOf(c.bus.replies[0].states, 0) == EC_STATE_OPERATIONAL
        && AllInState(n, c.bus.replies[1].states, EC_STATE_OPERATIONAL)
    ensures DoStartOperation(c).ctl.state == Operational
  {
    OperationalIff(c);
  }

  /** A bus of any number of obedient slaves is brought up to Operational by Initialize, PrepareRun and
      StartOperation. */
  lemma ObedientBusOperational(replies: seq<Reply>, snapshots: seq<map<int, nat>>, n: nat)
    requires Obedient(replies, n)
    ensures Runs(New(replies, snapshots), [Initialize(DEFAULT_CONFIG), PrepareRun, StartOperation]).states ==
        [Maintenance, ReadyToRun, Operational]
  {
    hide DoScan;
    hide DoEnterMaintenance;
    hide DoPrepareRun;
    hide DoStartOperation;
    var c := New(replies, snapshots);
    var a := DoInitializeAdapter(c, DEFAULT_CONFIG).ctl;
    assert Reached(a, AdapterReady, 0, replies[1..]);
    ObedientScan(a, n, 0);
    var s := DoScan(a).ctl;
    ObedientMaintenance(s, n);
    var m := DoEnterMaintenance(s).ctl;
    ObedientPrepare(m, n);
    var r := DoPrepareRun(m).ctl;
    ObedientStart(r, n);
    ThreeCalls(c, Initialize(DEFAULT_CONFIG), PrepareRun, StartOperation);
  }

  lemma ThreeCalls(c: Ctl, x: Call, y: Call, z: Call)
    requires NodesCovered(c) && Proper(x) && Proper(y) && Proper(z)
    ensures NodesCovered(Do(c, x).ctl) && NodesCovered(Do(Do(c, x).ctl, y).ctl)
    ensures var a := Do(c, x).ctl; var b := Do(a, y).ctl;
            Runs(c, [x, y, z]).states == [a.state, b.state, Do(b, z).ctl.state]
  {
    hide Do;
    DoCovered(c, x);
    DoCovered(Do(c, x).ctl, y);
    assert [x, y, z][..2] == [x, y] && [x, y][..1] == [x] && [x][..0] == [];
    assert Runs(c, [x]).ctl == Do(c, x).ctl;
    assert Runs(c, [x, y]).ctl == Do(Do(c, x).ctl, y).ctl;
  }
}
