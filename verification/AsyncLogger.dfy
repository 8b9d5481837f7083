/** The asynchronous logger: any number of producers, one worker and the destructor, interleaved
    arbitrarily. Each step is what happens under one lock or between two. */
module AsyncLogger {
  import opened Wrappers
  import opened Filtering

  /** Debug is 0, Fatal is 4. */
  datatype Record = Record(level: nat, message: string)

  datatype Sink = Off | From(level: nat)

  datatype Sinks = Sinks(console: Sink, file: Sink, callback: Sink)

  predicate Takes(sink: Sink, r: Record) { sink.From? && r.level >= sink.level }

  predicate Wanted(sinks: Sinks, r: Record) {
    Takes(sinks.console, r) || Takes(sinks.file, r) || Takes(sinks.callback, r)
  }

  datatype Producer =
    | Idle
    | Enqueuing(record: Record) // some sink wants the record
    | Notifying // enqueued, the condition variable not yet notified

  datatype Worker =
    | Checking // about to test the wait condition under the lock
    | Waiting // parked on the condition variable
    | Writing(batch: seq<Record>) // what is left of the swapped-out batch
    | Exited

  datatype Destructor = NotStarted | MustNotify | Joining | Destroyed

  datatype Logger = Logger(
    queue: seq<Record>, shutdown: bool, sinks: Sinks,
    producers: seq<Producer>, worker: Worker, destructor: Destructor,
    // Every record ever enqueued, every record written, and what each sink received.
    accepted: seq<Record>, written: seq<Record>, console: seq<Record>, file: seq<Record>, callback: seq<Record>)

  function New(producers: nat, sinks: Sinks): Logger {
    Logger([], false, sinks, seq(producers, _ => Idle), Checking, NotStarted, [], [], [], [], [])
  }

  datatype Act =
    | Log(producer: nat, record: Record)
    | Enqueue(producer: nat)
    | NotifyOne(producer: nat)
    | Check
    | Write
    | Flush
    | SpuriousWake
    | BeginShutdown
    | NotifyAll
    | Join
    | SetSinks(sinks: Sinks)

  predicate Enabled(s: Logger, a: Act) {
    match a
    case Log(p, _) => p < |s.producers| && s.producers[p].Idle?
    case Enqueue(p) => p < |s.producers| && s.producers[p].Enqueuing?
    case NotifyOne(p) => p < |s.producers| && s.producers[p].Notifying?
    case Check => s.worker.Checking?
    case Write => s.worker.Writing? && s.worker.batch != []
    case Flush => s.worker.Writing? && s.worker.batch == []
    case SpuriousWake => s.worker.Waiting?
    case BeginShutdown => s.destructor.NotStarted?
    case NotifyAll => s.destructor.MustNotify?
    case Join => s.destructor.Joining? && s.worker.Exited?
    case SetSinks(_) => true
  }

  function Woken(w: Worker): Worker { if w.Waiting? then Checking else w }

  function Sent(sink: Sink, r: Record): seq<Record> { if Takes(sink, r) then [r] else [] }

  function Do(s: Logger, a: Act): Logger
    requires Enabled(s, a)
  {
    match a
    case Log(p, r) => if Wanted(s.sinks, r) then s.(producers := s.producers[p := Enqueuing(r)]) else s
    case Enqueue(p) =>
      if s.shutdown then s.(producers := s.producers[p := Idle])
      else
        var r := s.producers[p].record;
        s.(producers := s.producers[p := Notifying], queue := s.queue + [r], accepted := s.accepted + [r])
    case NotifyOne(p) => s.(producers := s.producers[p := Idle], worker := Woken(s.worker))
    case Check =>
      if !s.shutdown && s.queue == [] then s.(worker := Waiting)
      else if s.shutdown && s.queue == [] then s.(worker := Exited)
      else s.(worker := Writing(s.queue), queue := [])
    case Write =>
      var r := s.worker.batch[0];
      s.(worker := Writing(s.worker.batch[1..]), written := s.written + [r],
         console := s.console + Sent(s.sinks.console, r),
         file := s.file + Sent(s.sinks.file, r),
         callback := s.callback + Sent(s.sinks.callback, r))
    case Flush => s.(worker := Checking)
    case SpuriousWake => s.(worker := Checking)
    case BeginShutdown => s.(shutdown := true, destructor := MustNotify)
    case NotifyAll => s.(worker := Woken(s.worker), destructor := Joining)
    case Join => s.(destructor := Destroyed)
    case SetSinks(sinks) => s.(sinks := sinks)
  }

  // ---------- What every step keeps ----------

  function Batch(w: Worker): seq<Record> { if w.Writing? then w.batch else [] }

  /** Nothing is lost, duplicated or reordered. */
  predicate Conserved(s: Logger) { s.accepted == s.written + (Batch(s.worker) + s.queue) }

  predicate SomeoneNotifies(s: Logger) {
    s.destructor.MustNotify? || exists p | 0 <= p < |s.producers| :: s.producers[p].Notifying?
  }

  /** A parked worker with something to do is about to be notified. */
  predicate NoLostWakeup(s: Logger) { s.worker.Waiting? && (s.shutdown || s.queue != []) ==> SomeoneNotifies(s) }

  predicate Inv(s: Logger) {
    && Conserved(s)
    && NoLostWakeup(s)
    && (s.worker.Exited? ==> s.shutdown && s.queue == [])
    && (s.shutdown <==> !s.destructor.NotStarted?)
    && (s.destructor.Destroyed? ==> s.worker.Exited?)
  }

  lemma EnqueueKeepsInv(s: Logger, p: nat)
    requires Inv(s) && Enabled(s, Enqueue(p))
    ensures Inv(Do(s, Enqueue(p)))
  {
    var t := Do(s, Enqueue(p));
    if s.shutdown {
      if SomeoneNotifies(s) && !s.destructor.MustNotify? {
        var q :| 0 <= q < |s.producers| && s.producers[q].Notifying?;
        assert t.producers[q].Notifying?;
      }
    } else {
      var r := s.producers[p].record;
      assert s.written + (Batch(s.worker) + (s.queue + [r])) == s.written + (Batch(s.worker) + s.queue) + [r];
      assert t.producers[p].Notifying?;
    }
  }

  lemma LogKeepsInv(s: Logger, p: nat, r: Record)
    requires Inv(s) && Enabled(s, Log(p, r))
    ensures Inv(Do(s, Log(p, r)))
  {
    var t := Do(s, Log(p, r));
    if SomeoneNotifies(s) && !s.destructor.MustNotify? {
      var q :| 0 <= q < |s.producers| && s.producers[q].Notifying?;
      assert t.producers[q].Notifying?;
    }
  }

  lemma WriteKeepsInv(s: Logger)
    requires Inv(s) && Enabled(s, Write)
    ensures Inv(Do(s, Write))
  {
    var b := s.worker.batch;
    assert s.written + (b + s.queue) == (s.written + [b[0]]) + (b[1..] + s.queue);
  }

  lemma StepKeepsInv(s: Logger, a: Act)
    requires Inv(s) && Enabled(s, a)
    ensures Inv(Do(s, a))
  {
    match a
    case Log(p, r) => LogKeepsInv(s, p, r);
    case Enqueue(p) => EnqueueKeepsInv(s, p);
    case Write => WriteKeepsInv(s);
    case _ =>
  }

  // ---------- Runs ----------

  /** The acts can happen one after the other. */
  predicate Possible(s: Logger, acts: seq<Act>)
    decreases |acts|, 0
  {
    acts == [] || (Possible(s, acts[..|acts| - 1]) && Enabled(Run(s, acts[..|acts| - 1]), acts[|acts| - 1]))
  }

  function Run(s: Logger, acts: seq<Act>): Logger
    requires Possible(s, acts)
    decreases |acts|, 1
  {
    if acts == [] then s else Do(Run(s, acts[..|acts| - 1]), acts[|acts| - 1])
  }

  lemma {:induction false} RunKeepsInv(s: Logger, acts: seq<Act>)
    requires Inv(s) && Possible(s, acts)
    ensures Inv(Run(s, acts))
    decreases |acts|
  {
    hide Do;
    hide Enabled;
    hide Inv;
    if acts != [] {
      RunKeepsInv(s, acts[..|acts| - 1]);
      StepKeepsInv(Run(s, acts[..|acts| - 1]), acts[|acts| - 1]);
    }
  }

  /** In every interleaving: accepted is, in order, what was logged and enqueued before the shutdown; it is what was
      written, then the rest of the batch, then the queue; and once the destructor has returned, all of it has been
      written. */
  lemma LoggerConserves(producers: nat, sinks: Sinks, acts: seq<Act>)
    requires Possible(New(producers, sinks), acts)
    ensures var s := Run(New(producers, sinks), acts);
            && s.accepted == AcceptedBy(acts) == s.written + (Batch(s.worker) + s.queue)
            && NoLostWakeup(s)
            && (s.worker.Exited? || s.destructor.Destroyed? ==> s.written == s.accepted)
  {
    RunKeepsInv(New(producers, sinks), acts);
    AcceptedAsLogged(producers, sinks, acts);
    hide Run;
    hide Possible;
    hide AcceptedBy;
  }

  // ---------- The destructor returns ----------

  /** Steps the worker still has to take after shutdown. */
  function WorkLeft(s: Logger): nat {
    var check := if s.queue == [] then 1 else |s.queue| + 3;
    match s.worker
    case Exited => 0
    case Checking => check
    case Waiting => check + 1
    case Writing(batch) => |batch| + 1 + check
  }

  predicate ByWorker(a: Act) { a.Check? || a.Write? || a.Flush? || a.SpuriousWake? }

  lemma WorkShrinks(s: Logger, a: Act)
    requires Inv(s) && s.shutdown && Enabled(s, a)
    ensures var t := Do(s, a);
            && t.shutdown
            && WorkLeft(t) <= WorkLeft(s)
            && (ByWorker(a) ==> WorkLeft(t) == WorkLeft(s) - 1)
            && (s.worker.Waiting? && (a.NotifyOne? || a.NotifyAll?) ==> WorkLeft(t) == WorkLeft(s) - 1)
  {
  }

  function WorkerSteps(acts: seq<Act>): nat { |Filter(ByWorker, acts)| }

  /** After shutdown the worker takes boundedly many steps in any interleaving. */
  lemma {:induction false} WorkBounded(s: Logger, acts: seq<Act>)
    requires Inv(s) && s.shutdown && Possible(s, acts)
    ensures Run(s, acts).shutdown && WorkerSteps(acts) + WorkLeft(Run(s, acts)) <= WorkLeft(s)
    decreases |acts|
  {
    hide Do;
    hide Enabled;
    hide Inv;
    hide WorkLeft;
    if acts != [] {
      var front := acts[..|acts| - 1];
      WorkBounded(s, front);
      RunKeepsInv(s, front);
      WorkShrinks(Run(s, front), acts[|acts| - 1]);
    }
  }

  /** Until the worker has exited there is always a step that brings it closer, so the join ends. */
  lemma NeverStuck(s: Logger)
    requires Inv(s) && s.shutdown && !s.worker.Exited?
    ensures exists a :: Enabled(s, a) && WorkLeft(Do(s, a)) < WorkLeft(s)
                        && (a == Check || a == Write || a == Flush || a == NotifyAll || a.NotifyOne?)
  {
    var a: Act :=
      if s.worker.Checking? then Check
      else if s.worker.Writing? then (if s.worker.batch == [] then Flush else Write)
      else if s.destructor.MustNotify? then NotifyAll
      else
        var p :| 0 <= p < |s.producers| && s.producers[p].Notifying?;
        NotifyOne(p);
    WorkShrinks(s, a);
    assert Enabled(s, a);
  }

  /** Once the worker has exited the destructor can return. */
  lemma JoinEnds(s: Logger)
    requires Inv(s) && s.worker.Exited?
    ensures s.destructor.MustNotify? ==> Enabled(s, NotifyAll) && Do(s, NotifyAll).destructor.Joining?
    ensures s.destructor.Joining? ==> Enabled(s, Join) && Do(s, Join).destructor.Destroyed?
  {
  }

  // ---------- What reaches a sink ----------

  function Filtered(sink: Sink, records: seq<Record>): seq<Record> {
    if records == [] then []
    else Filtered(sink, records[..|records| - 1]) + Sent(sink, records[|records| - 1])
  }

  predicate SinksExact(s: Logger) {
    && s.console == Filtered(s.sinks.console, s.written)
    && s.file == Filtered(s.sinks.file, s.written)
    && s.callback == Filtered(s.sinks.callback, s.written)
  }

  /** Every record on its way was wanted by some sink. */
  predicate AllWanted(s: Logger) {
    && (forall p | 0 <= p < |s.producers| :: s.producers[p].Enqueuing? ==> Wanted(s.sinks, s.producers[p].record))
    && (forall r | r in s.accepted :: Wanted(s.sinks, r))
  }

  lemma FilteredStep(sink: Sink, records: seq<Record>, r: Record)
    ensures Filtered(sink, records + [r]) == Filtered(sink, records) + Sent(sink, r)
  {
    assert (records + [r])[..|records|] == records;
  }

  lemma StepKeepsSinks(s: Logger, a: Act)
    requires SinksExact(s) && AllWanted(s) && Enabled(s, a) && !a.SetSinks?
    ensures SinksExact(Do(s, a)) && AllWanted(Do(s, a))
  {
    if a.Write? {
      FilteredStep(s.sinks.console, s.written, s.worker.batch[0]);
      FilteredStep(s.sinks.file, s.written, s.worker.batch[0]);
      FilteredStep(s.sinks.callback, s.written, s.worker.batch[0]);
    }
  }

  lemma {:induction false} RunKeepsSinks(s: Logger, acts: seq<Act>)
    requires SinksExact(s) && AllWanted(s) && Possible(s, acts)
    requires forall i | 0 <= i < |acts| :: !acts[i].SetSinks?
    ensures var t := Run(s, acts); SinksExact(t) && AllWanted(t) && t.sinks == s.sinks
    decreases |acts|
  {
    hide Enabled;
    hide SinksExact;
    hide AllWanted;
    if acts != [] {
      var front := acts[..|acts| - 1];
      RunKeepsSinks(s, front);
      StepKeepsSinks(Run(s, front), acts[|acts| - 1]);
      SinksKept(Run(s, front), acts[|acts| - 1]);
      hide Do;
    }
  }

  lemma SinksKept(s: Logger, a: Act)
    requires Enabled(s, a) && !a.SetSinks?
    ensures Do(s, a).sinks == s.sinks
  {
  }

  function AtLeast(level: nat): Record -> bool { (r: Record) => r.level >= level }

  /** What a sink is to receive of these records: those of its level and above; nothing if it is off. */
  function Due(sink: Sink, records: seq<Record>): seq<Record> {
    match sink
    case Off => []
    case From(level) => Filter(AtLeast(level), records)
  }

  lemma {:induction false} FilteredIsDue(sink: Sink, records: seq<Record>)
    ensures Filtered(sink, records) == Due(sink, records)
    decreases |records|
  {
    if records != [] { FilteredIsDue(sink, records[..|records| - 1]); }
  }

  /** Some sink is on at this level or a lower one. */
  predicate SomeSinkTakes(sinks: Sinks, level: nat) {
    || (sinks.console.From? && sinks.console.level <= level)
    || (sinks.file.From? && sinks.file.level <= level)
    || (sinks.callback.From? && sinks.callback.level <= level)
  }

  /** With unchanging sinks: when the destructor has returned, each sink has received exactly the records of its level
      and above that were logged and enqueued before the shutdown, in order, and each of them has reached some sink. */
  lemma SinksComplete(producers: nat, sinks: Sinks, acts: seq<Act>)
    requires Possible(New(producers, sinks), acts) && (forall i | 0 <= i < |acts| :: !acts[i].SetSinks?)
    ensures var s := Run(New(producers, sinks), acts);
            s.destructor.Destroyed? ==>
              && s.console == Due(sinks.console, AcceptedBy(acts))
              && s.file == Due(sinks.file, AcceptedBy(acts))
              && s.callback == Due(sinks.callback, AcceptedBy(acts))
              && forall r | r in AcceptedBy(acts) :: SomeSinkTakes(sinks, r.level)
  {
    LoggerConserves(producers, sinks, acts);
    RunKeepsSinks(New(producers, sinks), acts);
    var s := Run(New(producers, sinks), acts);
    if s.destructor.Destroyed? { AllDue(s); }
    hide Run;
    hide Possible;
    hide Due;
    hide AcceptedBy;
    hide NoLostWakeup;
    hide SinksExact;
    hide AllWanted;
    hide SomeSinkTakes;
  }

  lemma AllDue(s: Logger)
    requires SinksExact(s) && AllWanted(s) && s.written == s.accepted
    ensures s.console == Due(s.sinks.console, s.accepted)
    ensures s.file == Due(s.sinks.file, s.accepted)
    ensures s.callback == Due(s.sinks.callback, s.accepted)
    ensures forall r | r in s.accepted :: SomeSinkTakes(s.sinks, r.level)
  {
    FilteredIsDue(s.sinks.console, s.written);
    FilteredIsDue(s.sinks.file, s.written);
    FilteredIsDue(s.sinks.callback, s.written);
    hide Filtered;
    hide Due;
  }

  // ---------- What is accepted ----------

  /** A record with a sink for its level is on its way to the queue; any other changes nothing. */
  lemma LogTakesEffect(s: Logger, p: nat, r: Record)
    requires p < |s.producers| && s.producers[p].Idle?
    ensures Enabled(s, Log(p, r))
    ensures SomeSinkTakes(s.sinks, r.level) ==> Do(s, Log(p, r)) == s.(producers := s.producers[p := Enqueuing(r)])
    ensures !SomeSinkTakes(s.sinks, r.level) ==> Do(s, Log(p, r)) == s
  {
  }

  /** What producer p logged last. */
  function LastLogged(acts: seq<Act>, p: nat): Option<Record> {
    if acts == [] then None
    else if acts[|acts| - 1].Log? && acts[|acts| - 1].producer == p then Some(acts[|acts| - 1].record)
    else LastLogged(acts[..|acts| - 1], p)
  }

  /** The records accepted according to the acts alone: for each Enqueue before the shutdown began, in their order,
      what its producer logged last. */
  function AcceptedBy(acts: seq<Act>): seq<Record> {
    if acts == [] then []
    else
      var front, last := acts[..|acts| - 1], acts[|acts| - 1];
      if last.Enqueue? && BeginShutdown !in front && LastLogged(front, last.producer).Some?
      then AcceptedBy(front) + [LastLogged(front, last.producer).value]
      else AcceptedBy(front)
  }

  ghost predicate FollowsActs(s: Logger, acts: seq<Act>) {
    && s.accepted == AcceptedBy(acts)
    && (s.shutdown <==> BeginShutdown in acts)
    && forall p | 0 <= p < |s.producers| && s.producers[p].Enqueuing? ::
         LastLogged(acts, p) == Some(s.producers[p].record)
  }

  lemma StepFollowsActs(s: Logger, acts: seq<Act>, a: Act)
    requires FollowsActs(s, acts) && Enabled(s, a)
    ensures FollowsActs(Do(s, a), acts + [a])
  {
    OneMore(acts, a);
    hide LastLogged;
    hide AcceptedBy;
    hide Wanted;
  }

  lemma OneMore(acts: seq<Act>, a: Act)
    ensures BeginShutdown in acts + [a] <==> BeginShutdown in acts || a == BeginShutdown
    ensures forall p: nat :: LastLogged(acts + [a], p) ==
              if a.Log? && a.producer == p then Some(a.record) else LastLogged(acts, p)
    ensures AcceptedBy(acts + [a]) ==
            if a.Enqueue? && BeginShutdown !in acts && LastLogged(acts, a.producer).Some?
            then AcceptedBy(acts) + [LastLogged(acts, a.producer).value] else AcceptedBy(acts)
  {
    assert (acts + [a])[..|acts + [a]| - 1] == acts;
  }

  lemma {:induction false} RunFollowsActs(s: Logger, acts: seq<Act>)
    requires Possible(s, acts) && s.accepted == [] && !s.shutdown
    requires forall p | 0 <= p < |s.producers| :: s.producers[p].Idle?
    ensures FollowsActs(Run(s, acts), acts)
    decreases |acts|
  {
    if acts != [] {
      var front := acts[..|acts| - 1];
      RunFollowsActs(s, front);
      hide Do;
      hide Enabled;
      hide FollowsActs;
      StepFollowsActs(Run(s, front), front, acts[|acts| - 1]);
      assert acts == front + [acts[|acts| - 1]];
    }
  }

  /** In every interleaving the accepted records are exactly those enqueued before the shutdown, in that order, each the
      one its producer had logged. */
  lemma AcceptedAsLogged(producers: nat, sinks: Sinks, acts: seq<Act>)
    requires Possible(New(producers, sinks), acts)
    ensures Run(New(producers, sinks), acts).accepted == AcceptedBy(acts)
  {
    RunFollowsActs(New(producers, sinks), acts);
  }

  /** No Enqueue is without a record, and with unchanging sinks some sink is on for it. */
  lemma EnqueueHasRecord(producers: nat, sinks: Sinks, acts: seq<Act>, p: nat)
    requires Possible(New(producers, sinks), acts) && Enabled(Run(New(producers, sinks), acts), Enqueue(p))
    ensures LastLogged(acts, p).Some?
    ensures (forall i | 0 <= i < |acts| :: !acts[i].SetSinks?) ==> SomeSinkTakes(sinks, LastLogged(acts, p).value.level)
  {
    RunFollowsActs(New(producers, sinks), acts);
    if forall i | 0 <= i < |acts| :: !acts[i].SetSinks? { RunKeepsSinks(New(producers, sinks), acts); }
    hide Run;
    hide Possible;
  }

  /** One producer, from the call to the destructor's return: the record is in the file. */
  function Story(r: Record): seq<Act> {
    [Log(0, r), Enqueue(0), NotifyOne(0), Check, Write, Flush, BeginShutdown, Check, NotifyAll, Join]
  }

  lemma OneMoreAct(s: Logger, acts: seq<Act>, a: Act)
    requires Possible(s, acts) && Enabled(Run(s, acts), a)
    ensures Possible(s, acts + [a]) && Run(s, acts + [a]) == Do(Run(s, acts), a)
  {
    hide Do;
    hide Enabled;
    assert (acts + [a])[..|acts + [a]| - 1] == acts;
  }

  /** Three acts in a row are possible and lead from one state to the other. */
  predicate LeadBy(s: Logger, a: Act, b: Act, c: Act, t: Logger) {
    Enabled(s, a) && Enabled(Do(s, a), b) && Enabled(Do(Do(s, a), b), c) && Do(Do(Do(s, a), b), c) == t
  }

  function FileOnly(level: nat): Logger { New(1, Sinks(Off, From(level), Off)).(producers := [Idle]) }

  function Queued(r: Record, level: nat): Logger { FileOnly(level).(queue := [r], accepted := [r]) }

  function InFile(r: Record, level: nat): Logger { FileOnly(level).(accepted := [r], written := [r], file := [r]) }

  lemma RecordQueued(r: Record, level: nat)
    requires r.level >= level
    ensures LeadBy(FileOnly(level), Log(0, r), Enqueue(0), NotifyOne(0), Queued(r, level))
  {
    var s := FileOnly(level);
    var a := Do(s, Log(0, r));
    assert a == s.(producers := [Enqueuing(r)]);
    var b := Do(a, Enqueue(0));
    assert b == s.(producers := [Notifying], queue := [r], accepted := [r]);
  }

  lemma RecordWritten(r: Record, level: nat)
    requires r.level >= level
    ensures LeadBy(Queued(r, level), Check, Write, Flush, InFile(r, level))
  {
    var s := Queued(r, level);
    var a := Do(s, Check);
    assert a == s.(worker := Writing([r]), queue := []);
    var b := Do(a, Write);
    assert [r][1..] == [] && Sent(From(level), r) == [r] && Sent(Off, r) == [];
    assert b == InFile(r, level).(worker := Writing([]));
  }

  lemma LoggerEnds(r: Record, level: nat)
    ensures LeadBy(InFile(r, level), BeginShutdown, Check, NotifyAll,
                   InFile(r, level).(shutdown := true, worker := Exited, destructor := Joining))
  {
  }

  lemma RecordReachesFile(r: Record, level: nat)
    requires r.level >= level
    ensures var s := New(1, Sinks(Off, From(level), Off));
            && Possible(s, Story(r)) && Run(s, Story(r)).destructor.Destroyed? && Run(s, Story(r)).file == [r]
  {
    var s := New(1, Sinks(Off, From(level), Off));
    assert s.producers == [Idle];
    assert s == FileOnly(level);
    RecordQueued(r, level);
    RecordWritten(r, level);
    LoggerEnds(r, level);
    var end := InFile(r, level).(shutdown := true, worker := Exited, destructor := Joining);
    assert Enabled(end, Join) && Do(end, Join).destructor.Destroyed? && Do(end, Join).file == [r];
    hide Do;
    hide Enabled;
    hide New;
    hide Run;
    hide Possible;
    hide LeadBy;
    StoryRuns(r, s, Queued(r, level), InFile(r, level), end);
  }

  lemma StoryRuns(r: Record, s: Logger, t: Logger, u: Logger, v: Logger)
    requires LeadBy(s, Log(0, r), Enqueue(0), NotifyOne(0), t) && LeadBy(t, Check, Write, Flush, u)
    requires LeadBy(u, BeginShutdown, Check, NotifyAll, v) && Enabled(v, Join)
    ensures Possible(s, Story(r)) && Run(s, Story(r)) == Do(v, Join)
  {
    hide Do;
    hide Enabled;
    var none: seq<Act> := [];
    assert Possible(s, none) && Run(s, none) == s;
    hide Run;
    hide Possible;
    ThreeActs(s, none, Log(0, r), Enqueue(0), NotifyOne(0));
    var first := none + [Log(0, r), Enqueue(0), NotifyOne(0)];
    ThreeActs(s, first, Check, Write, Flush);
    var second := first + [Check, Write, Flush];
    ThreeActs(s, second, BeginShutdown, Check, NotifyAll);
    var third := second + [BeginShutdown, Check, NotifyAll];
    OneMoreAct(s, third, Join);
    assert third + [Join] == Story(r);
  }

  lemma ThreeActs(s: Logger, acts: seq<Act>, a: Act, b: Act, c: Act)
    requires Possible(s, acts) && Enabled(Run(s, acts), a) && Enabled(Do(Run(s, acts), a), b)
    requires Enabled(Do(Do(Run(s, acts), a), b), c)
    ensures Possible(s, acts + [a, b, c]) && Run(s, acts + [a, b, c]) == Do(Do(Do(Run(s, acts), a), b), c)
  {
    hide Do;
    hide Enabled;
    hide Run;
    hide Possible;
    OneMoreAct(s, acts, a);
    OneMoreAct(s, acts + [a], b);
    OneMoreAct(s, acts + [a] + [b], c);
    assert acts + [a] + [b] + [c] == acts + [a, b, c];
  }
}
