/** The master object: the stack context, the adapter flag and the statistics, updated in place. */
module EcMasters {
  import opened SiiBytes
  import opened EcTypes
  import opened BusModel
  import opened CycleStatistics
  import opened Flattening

  /** After the events done, the rest of the retry loop completes the whole. */
  ghost predicate LeadsTo(whole: Out<bool>, done: seq<Event>, bus: Bus, slave: int, state: nat, rounds: nat) {
    var rest := Retry(bus, slave, state, rounds);
    whole == Out(rest.bus, rest.value, done + rest.events)
  }

  lemma RetryStart(bus: Bus, slave: int, state: nat, rounds: nat)
    ensures LeadsTo(Retry(bus, slave, state, rounds), [], bus, slave, state, rounds)
  {
    hide Retry;
  }

  lemma RetryStep(whole: Out<bool>, done: seq<Event>, bus: Bus, slave: int, state: nat, rounds: nat)
    requires rounds > 0 && LeadsTo(whole, done, bus, slave, state, rounds)
    ensures var one := RetryRound(bus, slave, state);
            if one.value then whole == Out(one.bus, true, done + one.events)
            else LeadsTo(whole, done + one.events, one.bus, slave, state, rounds - 1)
  {
    hide RetryRound;
    var one := RetryRound(bus, slave, state);
    if !one.value {
      Associative(done, one.events, Retry(one.bus, slave, state, rounds - 1).events);
    }
  }

  lemma RetryEnd(whole: Out<bool>, done: seq<Event>, bus: Bus, slave: int, state: nat)
    requires LeadsTo(whole, done, bus, slave, state, 0)
    ensures whole == Out(bus, false, done)
  {
    assert done + [] == done;
  }

  class EcMaster {
    // The answers of the bus still to come.
    var replies: seq<Reply>
    var snapshots: seq<map<int, nat>>

    var closed: bool
    var useDc: bool
    var count: nat
    var identities: map<int, Identity>
    var states: map<int, nat>
    var inputs: map<int, seq<byte>>
    var expectedWkc: int
    var stats: Stats

    // Everything done on the bus, and every cycle, so far.
    ghost var trace: seq<Event>
    ghost var history: seq<Cycle>

    ghost function View(): Bus
      reads this
    {
      Bus(replies, snapshots, closed, useDc, count, identities, states, inputs, expectedWkc)
    }

    /** The statistics are those of the history, as long as no cycle of it divided by zero. */
    ghost predicate Valid()
      reads this
    {
      NeverDivides(history) ==> stats == After(history)
    }

    /** The call had the effect o, and no other. */
    twostate predicate Did<T>(o: Out<T>)
      reads this
    {
      View() == o.bus && trace == old(trace) + o.events && stats == old(stats) && history == old(history)
    }

    constructor (replies: seq<Reply>, snapshots: seq<map<int, nat>>)
      ensures Valid()
      ensures View() == NEW_BUS.(replies := replies, snapshots := snapshots) && trace == [] && history == []
    {
      closed, useDc, count, identities, states, inputs, expectedWkc := true, true, 0, map[], map[], map[], 0;
      stats := NEW_STATS;
      this.replies, this.snapshots, trace, history := replies, snapshots, [], [];
    }

    /** One call into the stack. */
    method Ask() returns (reply: Reply)
      modifies this`replies
      ensures reply == Next(old(View())) && View() == Rest(old(View()))
    {
      if |replies| == 0 {
        return SILENCE;
      }
      reply := replies[0];
      replies := replies[1..];
    }

    method Initialize(useDc: bool) returns (ok: bool)
      modifies this
      ensures Did(BusModel.Initialize(old(View()), useDc)) && ok == BusModel.Initialize(old(View()), useDc).value
    {
      this.useDc := useDc;
      var reply := Ask();
      trace := trace + [InitAdapter(reply.ret != 0)];
      if reply.ret == 0 {
        return false;
      }
      closed := false;
      return true;
    }

    method Close()
      modifies this
      ensures Did(BusModel.Close(old(View())))
    {
      if closed {
        return;
      }
      closed := true;
      trace := trace + [CloseAdapter];
    }

    method GetSlaveInfo(slave: int) returns (info: SlaveInfo)
      ensures info == InfoOf(View(), slave)
    {
      if slave <= 0 || slave > count {
        return SlaveInfo(0, NO_IDENTITY, 0);
      }
      return SlaveInfo(slave, if slave in identities then identities[slave] else NO_IDENTITY, StateOf(states, slave));
    }

    /** The infos of slaves 1 to n. */
    method GetInfos(n: nat) returns (infos: seq<SlaveInfo>)
      ensures infos == InfosOf(View(), n)
    {
      infos := [];
      for i := 1 to n + 1
        invariant infos == InfosOf(View(), n)[..i - 1]
      {
        var info := GetSlaveInfo(i);
        infos := infos + [info];
      }
    }

    method ScanSlaves() returns (infos: seq<SlaveInfo>)
      modifies this
      ensures Did(BusModel.ScanSlaves(old(View()))) && infos == BusModel.ScanSlaves(old(View())).value
    {
      var reply := Ask();
      count, identities, states := reply.count, reply.identities, reply.states;
      trace := trace + [ConfigInit(reply.ret)];
      if reply.ret <= 0 {
        return [];
      }
      infos := GetInfos(reply.ret);
    }

    method ConfigureProcessData() returns (ok: bool)
      modifies this
      ensures Did(BusModel.ConfigureProcessData(old(View()))) && ok == BusModel.ConfigureProcessData(old(View())).value
    {
      if count == 0 {
        return false;
      }
      var reply := Ask();
      expectedWkc := reply.ret;
      trace := trace + [ConfigMap];
      return true;
    }

    method ConfigureDc() returns (ok: bool)
      modifies this
      ensures Did(BusModel.ConfigureDc(old(View()))) && ok == BusModel.ConfigureDc(old(View())).value
    {
      trace := trace + [ConfigDc(useDc)];
      if useDc {
        var _ := Ask();
      }
      return true;
    }

    method ReadStates()
      modifies this
      ensures Did(BusModel.ReadStates(old(View())))
    {
      var reply := Ask();
      states := reply.states;
      trace := trace + [ReadState(count, states)];
    }

    method WriteAndCheck(slave: int, state: nat)
      modifies this
      ensures Did(BusModel.WriteAndCheck(old(View()), slave, state))
    {
      trace := trace + [WriteState(slave, state)];
      var reply := Ask();
      states := reply.states;
      trace := trace + [StateCheck(slave, states)];
    }

    method RequestState(slave: int, state: nat) returns (reached: bool)
      modifies this
      ensures Did(BusModel.RequestState(old(View()), slave, state))
      ensures reached == BusModel.RequestState(old(View()), slave, state).value
    {
      WriteAndCheck(slave, state);
      return StateOf(states, slave) == state;
    }

    /** One round: read, then acknowledge an error or write the request. */
    method RetryOnce(slave: int, state: nat) returns (reached: bool)
      modifies this
      ensures Did(RetryRound(old(View()), slave, state)) && reached == RetryRound(old(View()), slave, state).value
    {
      hide HasErrorBit;
      hide Acknowledge;
      hide StateOf;
      ReadStates();
      var actual := StateOf(states, slave);
      if actual == state {
        return true;
      }
      if HasErrorBit(actual) {
        WriteAndCheck(slave, Acknowledge(actual));
        return false;
      }
      WriteAndCheck(slave, state);
      return StateOf(states, slave) == state;
    }

    method RequestStateWithRetry(slave: int, state: nat, maxRetries: nat := MAX_RETRIES) returns (reached: bool)
      modifies this
      ensures Did(Retry(old(View()), slave, state, maxRetries + 1))
      ensures reached == Retry(old(View()), slave, state, maxRetries + 1).value
    {
      ghost var whole := Retry(View(), slave, state, maxRetries + 1);
      ghost var done: seq<Event> := [];
      hide Retry;
      hide RetryRound;
      hide LeadsTo;
      RetryStart(View(), slave, state, maxRetries + 1);
      for i := 0 to maxRetries + 1
        invariant stats == old(stats) && history == old(history) && trace == old(trace) + done
        invariant LeadsTo(whole, done, View(), slave, state, maxRetries + 1 - i)
      {
        ghost var one := RetryRound(View(), slave, state);
        RetryStep(whole, done, View(), slave, state, maxRetries + 1 - i);
        Associative(old(trace), done, one.events);
        reached := RetryOnce(slave, state);
        done := done + one.events;
        if reached {
          return true;
        }
      }
      RetryEnd(whole, done, View(), slave, state);
      return false;
    }

    method CheckAllSlavesInState(state: nat) returns (all: bool)
      modifies this
      ensures Did(CheckAll(old(View()), state)) && all == CheckAll(old(View()), state).value
    {
      ReadStates();
      for i := 1 to count + 1
        invariant forall j | 1 <= j < i :: StateOf(states, j) == state
      {
        if StateOf(states, i) != state {
          return false;
        }
      }
      return true;
    }

    method SnapshotRead()
      modifies this
      ensures View() == BusModel.SnapshotRead(old(View())) && trace == old(trace) && stats == old(stats)
          && history == old(history)
    {
      if |snapshots| == 0 {
        states := map[];
      } else {
        states := snapshots[0];
        snapshots := snapshots[1..];
      }
    }

    /** One exchange of process data, and its statistics. */
    method RunOneCycle(now: int)
      modifies this
      requires Valid()
      ensures Valid()
      ensures var o := ExchangeData(old(View()));
              && View() == o.bus && trace == old(trace) + o.events
              && history == old(history) + [Cycle(now, o.value == old(expectedWkc))]
    {
      hide After;
      hide NeverDivides;
      var reply := Ask();
      inputs := reply.inputs;
      trace := trace + [Exchange];
      RecordCycle(now, reply.ret);
    }

    method RecordCycle(now: int, wkc: int)
      modifies this`stats, this`history
      requires Valid()
      ensures Valid()
      ensures history == old(history) + [Cycle(now, wkc == expectedWkc)]
    {
      hide After;
      hide NeverDivides;
      hide Average;
      hide Elapsed;
      if stats.lastTime != 0 {
        var elapsed := Elapsed(stats.lastTime, now);
        if stats.minUs == 0 || elapsed < stats.minUs {
          stats := stats.(minUs := elapsed);
        }
        if elapsed > stats.maxUs {
          stats := stats.(maxUs := elapsed);
        }
        stats := stats.(avgUs := Average(stats.avgUs, stats.cycleCount, elapsed));
      }
      stats := stats.(lastTime := now);

      stats := stats.(cycleCount := (stats.cycleCount + 1) % TWO32);
      if wkc != expectedWkc {
        stats := stats.(mismatchCount := (stats.mismatchCount + 1) % TWO32,
                        consecutiveMismatch := (stats.consecutiveMismatch + 1) % TWO32);
      } else {
        stats := stats.(consecutiveMismatch := 0);
      }
      assert stats == Update(old(stats), now, wkc == expectedWkc);
      if NeverDivides(history + [Cycle(now, wkc == expectedWkc)]) {
        NeverDividesFront(history, Cycle(now, wkc == expectedWkc));
      }
      AfterOneMore(history, now, wkc == expectedWkc);
      history := history + [Cycle(now, wkc == expectedWkc)];
    }

    /** The outputs go into the process image. */
    method WriteOutput(slave: int, data: seq<byte>)
      modifies this`trace
      ensures trace == old(trace) + [EcTypes.WriteOutput(slave, data)]
    {
      trace := trace + [EcTypes.WriteOutput(slave, data)];
    }

    method ReadInput(slave: int, buffer: seq<byte>) returns (data: seq<byte>)
      modifies this`trace
      ensures trace == old(trace) + [EcTypes.ReadInput(slave, |buffer|)] && data == InputOf(View(), slave, buffer)
    {
      trace := trace + [EcTypes.ReadInput(slave, |buffer|)];
      data := buffer;
      if slave in inputs && |buffer| <= |inputs[slave]| {
        data := inputs[slave][..|buffer|];
      }
    }
  }
}
