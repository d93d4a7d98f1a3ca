/**
 The scheduler's bookkeeping: manual requests, refresh batches, dispatch and completion. Every method of
 `Monitor` is one critical section under the monitor's lock, and a run is any interleaving of them.
 */
module RefreshBatch {
  import opened Tables

  const MAX_QUEUED := 256

  datatype Reason = Skipped | PausedMeanwhile | Stopped | SaveFailed
  datatype Refusal = Paused | Missing | Disabled | AlreadyBusy | QueueFull

  datatype Refresh = Refresh(id: nat, total: nat, completed: nat, pending: bool, error: Option<Reason>)
  datatype Server = Server(id: nat, enabled: bool)

  /** `batch` says of each member whether its round was started; `workers` holds the live rounds, each with
      the batch it was started for, or 0. */
  datatype State = State(batch: map<nat, bool>, refresh: Option<Refresh>, sequence: nat,
                         queued: set<nat>, inFlight: set<nat>, workers: map<nat, nat>, stopped: bool)

  const Initial := State(map[], None, 0, {}, {}, map[], false)

  predicate IsPending(s: State) {
    s.refresh.Some? && s.refresh.value.pending
  }

  predicate IsWaiting(batch: map<nat, bool>, id: nat) {
    id in batch && !batch[id]
  }

  function Waiting(batch: map<nat, bool>): set<nat> {
    set id | id in batch && !batch[id]
  }

  // ----- What each critical section does -----

  function EnabledOf(servers: seq<Server>): set<nat> {
    set server | server in servers && server.enabled :: server.id
  }

  function AllWaiting(ids: set<nat>): map<nat, bool> {
    map id | id in ids :: false
  }

  function QueuedAll(s: State, servers: seq<Server>): State {
    if IsPending(s) then s
    else
      var batch := AllWaiting(EnabledOf(servers));
      s.(batch := batch, sequence := s.sequence + 1,
         refresh := Some(Refresh(s.sequence + 1, |batch|, 0, |batch| > 0, None)))
  }

  function QueuedOne(s: State, id: nat): State {
    if id in s.queued || id in s.inFlight || MAX_QUEUED <= |s.queued| then s else s.(queued := s.queued + {id})
  }

  function Cancelled(s: State, reason: Reason): State {
    if !IsPending(s) then s
    else s.(batch := map[], refresh := Some(s.refresh.value.(pending := false, error := Some(reason))))
  }

  function Kept(batch: map<nat, bool>, valid: set<nat>): map<nat, bool> {
    map id | id in batch && id in valid :: batch[id]
  }

  lemma KeptIsSmaller(batch: map<nat, bool>, valid: set<nat>)
    ensures Kept(batch, valid).Keys == batch.Keys * valid && |Kept(batch, valid)| <= |batch|
    ensures |Kept(batch, valid)| == |batch| ==> Kept(batch, valid) == batch
  {
    var kept := Kept(batch, valid);
    SizeOfSubset(kept.Keys, batch.Keys);
    assert |kept| == |kept.Keys| && |batch| == |batch.Keys|;
  }

  lemma {:induction false} SizeOfSubset(a: set<nat>, b: set<nat>)
    requires a <= b
    ensures |a| <= |b| && (|a| == |b| ==> a == b)
  {
    assert b == a + (b - a) && a !! b - a;
    assert |b| == |a| + |b - a|;
  }

  /** The members that are no longer enabled leave the batch and count as completed. */
  function Thinned(s: State, valid: set<nat>): State
    requires IsPending(s)
  {
    KeptIsSmaller(s.batch, valid);
    var r := s.refresh.value;
    var gone := |s.batch| - |Kept(s.batch, valid)|;
    s.(batch := Kept(s.batch, valid),
       refresh := Some(r.(completed := r.completed + gone, error := if gone > 0 then Some(Skipped) else r.error)))
  }

  function WithoutMember(s: State, id: nat): State
    requires s.refresh.Some?
  {
    s.(batch := s.batch - {id},
       refresh := Some(s.refresh.value.(completed := s.refresh.value.completed + 1, error := Some(Skipped))))
  }

  function Updated(s: State, valid: set<nat>, paused: bool): State {
    if !IsPending(s) then s
    else
      var t := Thinned(s, valid);
      if |t.batch| == 0 then t.(refresh := Some(t.refresh.value.(pending := false)))
      else if paused then Cancelled(t, PausedMeanwhile)
      else t
  }

  function Refreshed(s: State, valid: set<nat>, paused: bool): State {
    Updated(s.(queued := s.queued * valid), valid, paused)
  }

  function Completed(s: State, id: nat, refreshId: nat, failed: bool): State {
    if refreshId == 0 || !IsPending(s) || refreshId != s.refresh.value.id || id !in s.batch || !s.batch[id] then s
    else
      var r := s.refresh.value;
      var batch := s.batch - {id};
      s.(batch := batch,
         refresh := Some(r.(completed := r.completed + 1, pending := |batch| > 0,
                            error := if failed then Some(SaveFailed) else r.error)))
  }

  function Finished(s: State, id: nat, failed: bool): State {
    if id !in s.workers then s
    else Completed(s.(inFlight := s.inFlight - {id}, workers := s.workers - {id}), id, s.workers[id], failed)
  }

  function Due(nextDue: map<nat, int>, id: nat): int {
    if id in nextDue then nextDue[id] else 0
  }

  predicate IsManual(s: State, id: nat) {
    id in s.queued || IsWaiting(s.batch, id)
  }

  predicate IsWanted(s: State, c: Server, nextDue: map<nat, int>, now: int) {
    c.enabled && c.id !in s.inFlight && (IsManual(s, c.id) || Due(nextDue, c.id) <= now)
  }

  /** The batch a new round of this server belongs to; 0 when it belongs to none. */
  function TagFor(s: State, id: nat): nat {
    if IsWaiting(s.batch, id) && s.refresh.Some? then s.refresh.value.id else 0
  }

  function Started(s: State, id: nat): State {
    s.(batch := if IsWaiting(s.batch, id) then s.batch[id := true] else s.batch,
       queued := s.queued - {id}, inFlight := s.inFlight + {id}, workers := s.workers[id := TagFor(s, id)])
  }

  function Dispatched(s: State, candidates: seq<Server>, concurrency: nat, nextDue: map<nat, int>, now: int): State
    decreases |candidates|
  {
    if |candidates| == 0 || concurrency <= |s.inFlight| then s
    else
      Dispatched(if IsWanted(s, candidates[0], nextDue, now) then Started(s, candidates[0].id) else s,
                 candidates[1..], concurrency, nextDue, now)
  }

  /** Shutdown: the batch is cancelled and the rounds still under way never report. */
  function Halted(s: State): State {
    Cancelled(s, Stopped).(workers := map[], stopped := true)
  }

  // ----- The invariant -----

  ghost predicate Tagged(s: State, id: nat) {
    id in s.workers && s.workers[id] == s.sequence
  }

  ghost predicate Counted(s: State) {
    && (s.refresh.None? <==> s.sequence == 0)
    && (s.refresh.Some? ==> s.refresh.value.id == s.sequence && s.refresh.value.completed <= s.refresh.value.total)
    && (IsPending(s) ==> s.refresh.value.completed + |s.batch| == s.refresh.value.total && |s.batch| > 0)
    && (!IsPending(s) ==> s.batch == map[])
  }

  ghost predicate TagsFit(s: State) {
    && (forall id :: id in s.batch && s.batch[id] ==> Tagged(s, id))
    && (forall id :: id in s.workers ==> s.workers[id] <= s.sequence)
  }

  ghost predicate SetsFit(s: State) {
    && s.workers.Keys <= s.inFlight && (!s.stopped ==> s.inFlight == s.workers.Keys)
    && |s.queued| <= MAX_QUEUED
  }

  ghost predicate Inv(s: State) {
    Counted(s) && TagsFit(s) && SetsFit(s)
  }

  // ----- The monitor -----

  method Members(servers: seq<Server>) returns (batch: map<nat, bool>)
    ensures batch == AllWaiting(EnabledOf(servers))
  {
    batch := map[];
    for i := 0 to |servers|
      invariant batch == AllWaiting(EnabledOf(servers[..i]))
    {
      assert forall x :: x in servers[..i + 1] <==> x in servers[..i] || x == servers[i];
      if servers[i].enabled {
        batch := batch[servers[i].id := false];
      }
    }
    assert servers[..|servers|] == servers;
  }

  class Monitor {
    var batch: map<nat, bool>
    var refresh: Option<Refresh>
    var sequence: nat
    var queued: set<nat>
    var inFlight: set<nat>
    /** The rounds under way: which goroutine runs for which server, and for which batch. */
    ghost var workers: map<nat, nat>
    ghost var stopped: bool

    ghost function Value(): State
      reads this
    {
      State(batch, refresh, sequence, queued, inFlight, workers, stopped)
    }

    constructor ()
      ensures Value() == Initial
    {
      batch, refresh, sequence, queued, inFlight, workers, stopped := map[], None, 0, {}, {}, map[], false;
    }

    method Queue(server: Option<Server>, paused: bool) returns (refusal: Option<Refusal>)
      modifies this`queued
      ensures refusal == (
        if paused then Some(Paused)
        else if server.None? then Some(Missing)
        else if !server.value.enabled then Some(Disabled)
        else if server.value.id in old(queued) || server.value.id in inFlight then Some(AlreadyBusy)
        else if MAX_QUEUED <= |old(queued)| then Some(QueueFull)
        else None)
      ensures Value() == if refusal.None? then QueuedOne(old(Value()), server.value.id) else old(Value())
    {
      if paused { return Some(Paused); }
      if server.None? { return Some(Missing); }
      if !server.value.enabled { return Some(Disabled); }
      var id := server.value.id;
      if id in queued || id in inFlight { return Some(AlreadyBusy); }
      if MAX_QUEUED <= |queued| { return Some(QueueFull); }
      queued := queued + {id};
      return None;
    }

    method QueueAll(servers: seq<Server>, paused: bool) returns (answer: Option<Refresh>)
      modifies this
      ensures paused ==> Value() == old(Value()) && answer == None
      ensures !paused ==> Value() == QueuedAll(old(Value()), servers) && answer == refresh
    {
      if paused { return None; }
      if refresh.Some? && refresh.value.pending { return refresh; }
      batch := Members(servers);
      sequence := sequence + 1;
      refresh := Some(Refresh(sequence, |batch|, 0, |batch| > 0, None));
      answer := refresh;
    }

    method CancelBatch(reason: Reason)
      modifies this`batch, this`refresh
      ensures Value() == Cancelled(old(Value()), reason)
    {
      if refresh.Some? && refresh.value.pending {
        refresh := Some(refresh.value.(pending := false, error := Some(reason)));
        batch := map[];
      }
    }

    method DropInvalid(valid: set<nat>)
      requires IsPending(Value())
      modifies this`batch, this`refresh
      ensures Value() == Thinned(old(Value()), valid)
    {
      ghost var before := Value();
      var todo := batch.Keys;
      assert Kept(batch, valid + todo) == batch && Value() == Thinned(before, valid + todo);
      hide *;
      while |todo| > 0
        invariant todo <= before.batch.Keys && IsPending(before)
        invariant Value() == Thinned(before, valid + todo)
        decreases |todo|
      {
        var id :| id in todo;
        DropOne(before, valid, todo, id);
        if id !in valid {
          DropMember(id);
        }
        todo := todo - {id};
      }
      assert valid + todo == valid;
    }

    method DropMember(id: nat)
      requires refresh.Some?
      modifies this`batch, this`refresh
      ensures Value() == WithoutMember(old(Value()), id)
    {
      batch := batch - {id};
      refresh := Some(refresh.value.(completed := refresh.value.completed + 1, error := Some(Skipped)));
    }

    method UpdateBatch(valid: set<nat>, paused: bool)
      modifies this`batch, this`refresh
      ensures Value() == Updated(old(Value()), valid, paused)
    {
      if refresh.None? || !refresh.value.pending { return; }
      DropInvalid(valid);
      if |batch| == 0 {
        refresh := Some(refresh.value.(pending := false));
      } else if paused {
        CancelBatch(PausedMeanwhile);
      }
    }

    /** The locked part of reading the configuration again. */
    method ReadAgain(valid: set<nat>, paused: bool)
      modifies this`batch, this`refresh, this`queued
      ensures Value() == Refreshed(old(Value()), valid, paused)
    {
      var todo := queued;
      while |todo| > 0
        modifies this`queued
        invariant todo <= old(queued) && queued == old(queued) * (valid + todo)
        decreases |todo|
      {
        var id :| id in todo;
        if id !in valid {
          queued := queued - {id};
        }
        todo := todo - {id};
      }
      assert queued == old(queued) * valid;
      UpdateBatch(valid, paused);
    }

    method CompleteBatch(id: nat, refreshId: nat, failed: bool)
      modifies this`batch, this`refresh
      ensures Value() == Completed(old(Value()), id, refreshId, failed)
    {
      if refreshId == 0 || refresh.None? || !refresh.value.pending || refreshId != refresh.value.id { return; }
      if id in batch && batch[id] {
        batch := batch - {id};
        refresh := Some(refresh.value.(completed := refresh.value.completed + 1));
        if failed {
          refresh := Some(refresh.value.(error := Some(SaveFailed)));
        }
        refresh := Some(refresh.value.(pending := |batch| > 0));
      }
    }

    /** A round reports: the message carries the server and the batch it was started for. */
    method Complete(id: nat, refreshId: nat, failed: bool)
      requires id in workers && workers[id] == refreshId
      modifies this
      ensures Value() == Finished(old(Value()), id, failed)
    {
      workers := workers - {id};
      inFlight := inFlight - {id};
      CompleteBatch(id, refreshId, failed);
    }

    /** Starts rounds for the sorted candidates until the configured number is in flight. A batch member is
        tagged with the batch, which exists because a batch has members only while it is pending. */
    method Dispatch(candidates: seq<Server>, concurrency: nat, nextDue: map<nat, int>, now: int)
      requires refresh.None? ==> batch == map[]
      modifies this`batch, this`queued, this`inFlight, this`workers
      ensures Value() == Dispatched(old(Value()), candidates, concurrency, nextDue, now)
    {
      if concurrency == 0 { return; }
      for i := 0 to |candidates|
        invariant batch != map[] ==> refresh.Some?
        invariant Dispatched(Value(), candidates[i..], concurrency, nextDue, now)
               == Dispatched(old(Value()), candidates, concurrency, nextDue, now)
      {
        if concurrency <= |inFlight| { break; }
        assert candidates[i..][0] == candidates[i] && candidates[i..][1..] == candidates[i + 1..];
        var s := candidates[i];
        if !s.enabled || s.id in inFlight
           || (s.id !in queued && !IsWaiting(batch, s.id) && now < Due(nextDue, s.id)) {
          continue;
        }
        ghost var before := Value();
        var refreshId := 0;
        if IsWaiting(batch, s.id) {
          batch := batch[s.id := true];
          refreshId := refresh.value.id;
        }
        queued := queued - {s.id};
        inFlight := inFlight + {s.id};
        workers := workers[s.id := refreshId];
        assert Value() == Started(before, s.id);
      }
    }

    method Stop()
      modifies this
      ensures Value() == Halted(old(Value()))
    {
      CancelBatch(Stopped);
      workers, stopped := map[], true;
    }
  }

  lemma DropOne(s: State, valid: set<nat>, todo: set<nat>, id: nat)
    requires IsPending(s) && id in s.batch && id in todo
    ensures var before, after := Thinned(s, valid + todo), Thinned(s, valid + (todo - {id}));
      && before.refresh.Some? && (id in valid ==> before == after)
      && (id !in valid ==> after == WithoutMember(before, id))
  {
    if id in valid {
      assert valid + (todo - {id}) == valid + todo;
    } else {
      KeptWithoutOne(s.batch, valid, todo, id);
      KeptIsSmaller(s.batch, valid + todo);
      hide Kept;
    }
  }

  lemma KeptWithoutOne(batch: map<nat, bool>, valid: set<nat>, todo: set<nat>, id: nat)
    requires id in batch && id in todo && id !in valid
    ensures Kept(batch, valid + (todo - {id})) == Kept(batch, valid + todo) - {id}
    ensures |Kept(batch, valid + (todo - {id}))| == |Kept(batch, valid + todo)| - 1
  {
    var before, after := Kept(batch, valid + todo), Kept(batch, valid + (todo - {id}));
    assert after == before - {id};
    RemovalShrinks(before, id);
  }

  lemma RemovalShrinks(batch: map<nat, bool>, id: nat)
    requires id in batch
    ensures |batch - {id}| == |batch| - 1
  {
    var after := batch - {id};
    assert batch.Keys == after.Keys + {id};
    assert |batch.Keys| == |after.Keys| + 1;
    assert |batch| == |batch.Keys| && |after| == |after.Keys|;
  }

  // ----- Runs -----

  datatype Step =
    | DoQueue(id: nat)
    | DoQueueAll(servers: seq<Server>)
    | DoRead(valid: set<nat>, paused: bool)
    | DoDispatch(candidates: seq<Server>, concurrency: nat, nextDue: map<nat, int>, now: int)
    | DoComplete(id: nat, failed: bool)
    | DoStop

  /** Requests may still arrive after shutdown; the scheduler's own steps may not. */
  function Next(s: State, step: Step): State {
    match step
    case DoQueue(id) => QueuedOne(s, id)
    case DoQueueAll(servers) => QueuedAll(s, servers)
    case DoRead(valid, paused) => if s.stopped then s else Refreshed(s, valid, paused)
    case DoDispatch(candidates, concurrency, nextDue, now) =>
      if s.stopped then s else Dispatched(s, candidates, concurrency, nextDue, now)
    case DoComplete(id, failed) => if s.stopped then s else Finished(s, id, failed)
    case DoStop => Halted(s)
  }

  function Run(s: State, steps: seq<Step>): State {
    if |steps| == 0 then s else Next(Run(s, steps[..|steps| - 1]), steps[|steps| - 1])
  }

  lemma QueuedAllKeepsInv(s: State, servers: seq<Server>)
    requires Inv(s)
    ensures Inv(QueuedAll(s, servers))
  {
  }

  lemma QueuedOneKeepsInv(s: State, id: nat)
    requires Inv(s)
    ensures Inv(QueuedOne(s, id))
  {
  }

  lemma UpdatedKeepsInv(s: State, valid: set<nat>, paused: bool)
    requires Inv(s)
    ensures Inv(Updated(s, valid, paused))
  {
    if IsPending(s) {
      KeptIsSmaller(s.batch, valid);
      var t := Thinned(s, valid);
      assert t.refresh.value.completed + |t.batch| == t.refresh.value.total;
    }
  }

  lemma RefreshedKeepsInv(s: State, valid: set<nat>, paused: bool)
    requires Inv(s)
    ensures Inv(Refreshed(s, valid, paused))
  {
    SizeOfSubset(s.queued * valid, s.queued);
    UpdatedKeepsInv(s.(queued := s.queued * valid), valid, paused);
  }

  lemma FinishedKeepsInv(s: State, id: nat, failed: bool)
    requires Inv(s) && !s.stopped
    ensures Inv(Finished(s, id, failed))
  {
    if id in s.workers {
      if id in s.batch {
        RemovalShrinks(s.batch, id);
      }
    }
  }

  lemma StartedKeepsInv(s: State, id: nat)
    requires Inv(s) && id !in s.inFlight
    ensures Inv(Started(s, id))
    ensures |Started(s, id).inFlight| == |s.inFlight| + 1
  {
    StartedKeepsCount(s, id);
    StartedKeepsTags(s, id);
    StartedKeepsSets(s, id);
    hide Counted, TagsFit, SetsFit, Started;
  }

  lemma StartedKeepsSets(s: State, id: nat)
    requires SetsFit(s) && id !in s.inFlight
    ensures SetsFit(Started(s, id)) && |Started(s, id).inFlight| == |s.inFlight| + 1
  {
    hide *;
    SetsAfterStart(s, id);
    SizeOfSubset(s.queued - {id}, s.queued);
    SetsStillFit(s, Started(s, id), id);
  }

  lemma SetsAfterStart(s: State, id: nat)
    ensures var t := Started(s, id);
      && t.workers.Keys == s.workers.Keys + {id} && t.inFlight == s.inFlight + {id}
      && t.queued == s.queued - {id} && t.stopped == s.stopped
  {
    hide IsWaiting, TagFor;
  }

  lemma SetsStillFit(s: State, t: State, id: nat)
    requires SetsFit(s) && id !in s.inFlight && |t.queued| <= |s.queued| && t.stopped == s.stopped
    requires t.workers.Keys == s.workers.Keys + {id} && t.inFlight == s.inFlight + {id}
    ensures SetsFit(t) && |t.inFlight| == |s.inFlight| + 1
  {
  }

  lemma StartedKeepsCount(s: State, id: nat)
    requires Counted(s)
    ensures Counted(Started(s, id))
  {
    var t := Started(s, id);
    assert t.batch.Keys == s.batch.Keys;
    assert |t.batch| == |t.batch.Keys| && |s.batch| == |s.batch.Keys|;
  }

  lemma TagIsCurrent(s: State, id: nat)
    requires Counted(s)
    ensures TagFor(s, id) <= s.sequence && (IsWaiting(s.batch, id) ==> TagFor(s, id) == s.sequence)
  {
    assert IsWaiting(s.batch, id) ==> IsPending(s);
  }

  lemma StartedKeepsTags(s: State, id: nat)
    requires Inv(s) && id !in s.inFlight
    ensures TagsFit(Started(s, id))
  {
    assert id in s.batch && s.batch[id] ==> Tagged(s, id);
    TagIsCurrent(s, id);
    hide Counted, SetsFit, TagFor, TagsFit;
    TagsStillFit(s, Started(s, id), id);
  }

  /** A new round tagged for the current batch, or for none; a member already started is not tagged again. */
  lemma TagsStillFit(s: State, t: State, id: nat)
    requires TagsFit(s) && t.sequence == s.sequence && id in t.workers && t.workers == s.workers[id := t.workers[id]]
    requires t.workers[id] <= s.sequence
    requires if t.batch == s.batch then !(id in s.batch && s.batch[id]) else t.batch == s.batch[id := true] && t.workers[id] == s.sequence
    ensures TagsFit(t)
  {
    forall other | other in t.batch && t.batch[other] ensures Tagged(t, other) {
      if other != id { assert Tagged(s, other); }
    }
  }

  lemma {:induction false} DispatchedKeepsInv(s: State, candidates: seq<Server>, concurrency: nat, nextDue: map<nat, int>, now: int)
    requires Inv(s)
    ensures Inv(Dispatched(s, candidates, concurrency, nextDue, now))
    decreases |candidates|
  {
    hide Inv, Started;
    if |candidates| > 0 && |s.inFlight| < concurrency {
      if IsWanted(s, candidates[0], nextDue, now) {
        StartedKeepsInv(s, candidates[0].id);
        DispatchedKeepsInv(Started(s, candidates[0].id), candidates[1..], concurrency, nextDue, now);
      } else {
        DispatchedKeepsInv(s, candidates[1..], concurrency, nextDue, now);
      }
    }
  }

  lemma HaltedKeepsInv(s: State)
    requires Inv(s)
    ensures Inv(Halted(s))
  {
  }

  lemma NextKeepsInv(s: State, step: Step)
    requires Inv(s)
    ensures Inv(Next(s, step))
  {
    hide Inv;
    match step
    case DoQueue(id) => QueuedOneKeepsInv(s, id);
    case DoQueueAll(servers) => QueuedAllKeepsInv(s, servers);
    case DoRead(valid, paused) => RefreshedKeepsInv(s, valid, paused);
    case DoDispatch(candidates, concurrency, nextDue, now) => DispatchedKeepsInv(s, candidates, concurrency, nextDue, now);
    case DoComplete(id, failed) => if !s.stopped { FinishedKeepsInv(s, id, failed); }
    case DoStop => HaltedKeepsInv(s);
  }

  lemma {:induction false} RunKeepsInv(s: State, steps: seq<Step>)
    requires Inv(s)
    ensures Inv(Run(s, steps))
  {
    if |steps| > 0 {
      RunKeepsInv(s, steps[..|steps| - 1]);
      NextKeepsInv(Run(s, steps[..|steps| - 1]), steps[|steps| - 1]);
    }
  }

  /** In every reachable state the progress shown adds up, a batch that is not pending is empty, and each started
      member has exactly the one live round of its server working for this batch. */
  lemma EveryRunAddsUp(steps: seq<Step>)
    ensures var s := Run(Initial, steps);
      && (IsPending(s) ==> s.refresh.value.completed + |s.batch| == s.refresh.value.total && |s.batch| > 0)
      && (!IsPending(s) ==> s.batch == map[])
      && (forall id :: id in s.batch && s.batch[id] ==> id in s.workers && s.workers[id] == s.refresh.value.id)
      && (!s.stopped ==> s.inFlight == s.workers.Keys)
  {
    RunKeepsInv(Initial, steps);
  }

  // ----- A round counts once, and only for the batch that started it -----

  /** The rounds under way when a batch is requested were started before it: whatever happens meanwhile, the report of
      such a round leaves the new batch as it is. */
  lemma EarlierRoundNeverCounts(s: State, servers: seq<Server>, steps: seq<Step>, id: nat, failed: bool)
    requires Inv(s) && !IsPending(s) && id in s.workers
    requires forall i :: 0 <= i < |steps| ==> !(steps[i].DoComplete? && steps[i].id == id)
    ensures var t := Run(QueuedAll(s, servers), steps);
      var u := Next(t, DoComplete(id, failed));
      u.batch == t.batch && u.refresh == t.refresh
  {
    var first := QueuedAll(s, servers);
    QueuedAllKeepsInv(s, servers);
    RoundKeepsItsTag(first, steps, id);
    RunKeepsInv(first, steps);
    SequenceGrows(first, steps);
  }

  lemma {:induction false} RoundKeepsItsTag(s: State, steps: seq<Step>, id: nat)
    requires Inv(s) && id in s.workers
    requires forall i :: 0 <= i < |steps| ==> !(steps[i].DoComplete? && steps[i].id == id)
    ensures var t := Run(s, steps); !t.stopped ==> id in t.workers && t.workers[id] == s.workers[id]
  {
    if |steps| > 0 {
      var step := steps[|steps| - 1];
      var t := Run(s, steps[..|steps| - 1]);
      RoundKeepsItsTag(s, steps[..|steps| - 1], id);
      RunKeepsInv(s, steps[..|steps| - 1]);
      assert !(step.DoComplete? && step.id == id);
      hide Run, Dispatched, Refreshed, Counted, TagsFit;
      if step.DoDispatch? && !t.stopped {
        DispatchKeepsTags(t, step.candidates, step.concurrency, step.nextDue, step.now, id);
      }
    }
  }

  lemma {:induction false} DispatchKeepsTags(s: State, candidates: seq<Server>, concurrency: nat, nextDue: map<nat, int>, now: int, id: nat)
    requires id in s.workers && s.workers.Keys <= s.inFlight
    ensures var t := Dispatched(s, candidates, concurrency, nextDue, now); id in t.workers && t.workers[id] == s.workers[id]
    decreases |candidates|
  {
    if |candidates| > 0 && |s.inFlight| < concurrency {
      DispatchKeepsTags(if IsWanted(s, candidates[0], nextDue, now) then Started(s, candidates[0].id) else s,
                        candidates[1..], concurrency, nextDue, now, id);
    }
  }

  lemma StepKeepsSequence(s: State, step: Step)
    ensures s.sequence <= Next(s, step).sequence
  {
    if step.DoDispatch? {
      DispatchKeepsSequence(s, step.candidates, step.concurrency, step.nextDue, step.now);
      hide Dispatched;
    } else {
      hide Dispatched, Kept, AllWaiting, IsWaiting;
    }
  }

  lemma {:induction false} SequenceGrows(s: State, steps: seq<Step>)
    ensures s.sequence <= Run(s, steps).sequence
  {
    hide Next;
    if |steps| > 0 {
      SequenceGrows(s, steps[..|steps| - 1]);
      StepKeepsSequence(Run(s, steps[..|steps| - 1]), steps[|steps| - 1]);
    }
  }

  lemma {:induction false} DispatchKeepsSequence(s: State, candidates: seq<Server>, concurrency: nat, nextDue: map<nat, int>, now: int)
    ensures var t := Dispatched(s, candidates, concurrency, nextDue, now);
      t.sequence == s.sequence && t.refresh == s.refresh && t.batch.Keys == s.batch.Keys
    decreases |candidates|
  {
    if |candidates| > 0 && |s.inFlight| < concurrency {
      DispatchKeepsSequence(if IsWanted(s, candidates[0], nextDue, now) then Started(s, candidates[0].id) else s,
                            candidates[1..], concurrency, nextDue, now);
    }
  }

  /** The members that left between two states of the same batch all count as completed. */
  ghost predicate Leaves(s: State, t: State) {
    && s.refresh.Some? && t.refresh.Some?
    && t.sequence == s.sequence && t.batch.Keys <= s.batch.Keys
    && t.refresh.value.completed - s.refresh.value.completed == |s.batch| - |t.batch|
  }

  lemma UpdateLeaves(s: State, valid: set<nat>)
    requires IsPending(s)
    ensures Leaves(s, Refreshed(s, valid, false))
  {
    KeptIsSmaller(s.batch, valid);
    assert Thinned(s.(queued := s.queued * valid), valid).batch == Kept(s.batch, valid);
  }

  lemma DispatchLeaves(s: State, step: Step)
    requires IsPending(s) && step.DoDispatch?
    ensures Leaves(s, Next(s, step))
  {
    if !s.stopped {
      DispatchKeepsSequence(s, step.candidates, step.concurrency, step.nextDue, step.now);
      hide Dispatched;
      var t := Next(s, step);
      assert |t.batch| == |t.batch.Keys| && |s.batch| == |s.batch.Keys|;
    }
  }

  lemma FinishLeaves(s: State, id: nat, failed: bool)
    requires IsPending(s)
    ensures Leaves(s, Finished(s, id, failed))
  {
    if id in s.batch { RemovalShrinks(s.batch, id); }
  }

  /** While a batch lasts, its members only leave, and the count of completed ones grows by as many as left;
      only pausing or stopping drops members uncounted. */
  lemma EachMemberCountsOnce(s: State, step: Step)
    requires IsPending(s)
    requires !step.DoStop? && !(step.DoRead? && step.paused)
    ensures Leaves(s, Next(s, step))
  {
    match step
    case DoQueue(_) =>
    case DoQueueAll(_) =>
    case DoRead(valid, _) => UpdateLeaves(s, valid);
    case DoDispatch(_, _, _, _) => DispatchLeaves(s, step);
    case DoComplete(id, failed) => FinishLeaves(s, id, failed);
  }

  // ----- A batch ends -----

  /** Twice the waiting members plus the started ones. */
  function Rank(s: State): nat {
    |s.batch.Keys| + |Waiting(s.batch)|
  }

  lemma StartLowersRank(s: State, id: nat)
    requires IsWaiting(s.batch, id)
    ensures Rank(Started(s, id)) == Rank(s) - 1
  {
    var t := Started(s, id);
    assert t.batch.Keys == s.batch.Keys;
    assert Waiting(s.batch) == Waiting(t.batch) + {id};
  }

  lemma SmallerBatchLowersRank(small: State, big: State)
    requires small.batch.Keys <= big.batch.Keys
    requires forall id :: id in small.batch ==> small.batch[id] == big.batch[id]
    ensures Rank(small) <= Rank(big) && (small.batch != big.batch ==> Rank(small) < Rank(big))
  {
    SizeOfSubset(small.batch.Keys, big.batch.Keys);
    SizeOfSubset(Waiting(small.batch), Waiting(big.batch));
    if |small.batch.Keys| == |big.batch.Keys| {
      assert small.batch == big.batch;
    }
  }

  lemma {:induction false} DispatchLowersRank(s: State, candidates: seq<Server>, concurrency: nat, nextDue: map<nat, int>, now: int)
    ensures var t := Dispatched(s, candidates, concurrency, nextDue, now);
      Rank(t) <= Rank(s) && (t.batch != s.batch ==> Rank(t) < Rank(s))
    decreases |candidates|
  {
    if |candidates| > 0 && |s.inFlight| < concurrency {
      var c := candidates[0];
      if IsWanted(s, c, nextDue, now) {
        if IsWaiting(s.batch, c.id) { StartLowersRank(s, c.id); }
        hide Rank, Waiting;
        DispatchLowersRank(Started(s, c.id), candidates[1..], concurrency, nextDue, now);
      } else {
        DispatchLowersRank(s, candidates[1..], concurrency, nextDue, now);
      }
    }
  }

  /** Every step other than requesting a new batch lowers the rank if it touches the batch at all. */
  lemma StepsLowerRank(s: State, step: Step)
    requires Inv(s) && !(step.DoQueueAll? && !IsPending(s))
    ensures var t := Next(s, step);
      Rank(t) <= Rank(s) && (t.batch != s.batch ==> Rank(t) < Rank(s))
  {
    if step.DoDispatch? {
      if !s.stopped {
        DispatchLowersRank(s, step.candidates, step.concurrency, step.nextDue, step.now);
      }
    } else {
      if step.DoRead? { KeptIsSmaller(s.batch, step.valid); }
      SmallerBatchLowersRank(Next(s, step), s);
    }
  }

  /** No step of the run requests a new batch; requests that join a pending one are allowed. */
  ghost predicate NoNewBatch(s: State, steps: seq<Step>) {
    |steps| > 0 ==>
      && NoNewBatch(s, steps[..|steps| - 1])
      && !(steps[|steps| - 1].DoQueueAll? && !IsPending(Run(s, steps[..|steps| - 1])))
  }

  /** How many steps of the run touch the batch. */
  ghost function Touches(s: State, steps: seq<Step>): nat {
    if |steps| == 0 then 0
    else
      Touches(s, steps[..|steps| - 1])
      + if Run(s, steps).batch == Run(s, steps[..|steps| - 1]).batch then 0 else 1
  }

  /** However long a run is, at most as many of its steps touch the batch as its rank, and what they use up is gone:
      a batch of n servers has ended once 2 n steps have touched it. */
  lemma {:induction false} RunTouchesBounded(s: State, steps: seq<Step>)
    requires Inv(s) && NoNewBatch(s, steps)
    ensures Touches(s, steps) + Rank(Run(s, steps)) <= Rank(s) <= 2 * |s.batch.Keys|
    ensures Touches(s, steps) == 2 * |s.batch.Keys| ==> Run(s, steps).batch == map[]
  {
    WaitingIsPart(s.batch);
    if |steps| > 0 {
      var before := steps[..|steps| - 1];
      RunTouchesBounded(s, before);
      RunKeepsInv(s, before);
      hide Inv, Next;
      StepsLowerRank(Run(s, before), steps[|steps| - 1]);
    }
    hide Run, Next;
    var t := Run(s, steps);
    if |t.batch.Keys| == 0 { assert t.batch == map[]; }
  }

  lemma WaitingIsPart(batch: map<nat, bool>)
    ensures |Waiting(batch)| <= |batch.Keys|
  {
    assert Waiting(batch) + (batch.Keys - Waiting(batch)) == batch.Keys;
  }

  // ----- Who is started first -----

  /** The order candidates are sorted by: manual requests first, then the oldest deadline. */
  predicate IsBefore(s: State, nextDue: map<nat, int>, a: nat, b: nat) {
    if IsManual(s, a) != IsManual(s, b) then IsManual(s, a) else Due(nextDue, a) < Due(nextDue, b)
  }

  ghost predicate IsSorted(s: State, nextDue: map<nat, int>, candidates: seq<Server>) {
    forall i, j :: 0 <= i < j < |candidates| ==> !IsBefore(s, nextDue, candidates[j].id, candidates[i].id)
  }

  function WantedOf(s: State, candidates: seq<Server>, nextDue: map<nat, int>, now: int): set<nat> {
    set c | c in candidates && IsWanted(s, c, nextDue, now) :: c.id
  }

  /** Between the two states every wanted server among the first `k` candidates was started, and the rest
      was left only for want of capacity. */
  ghost predicate StartsPrefix(s: State, t: State, candidates: seq<Server>, k: nat, concurrency: nat, nextDue: map<nat, int>, now: int) {
    && k <= |candidates|
    && t.inFlight == s.inFlight + WantedOf(s, candidates[..k], nextDue, now)
    && (k < |candidates| ==> concurrency <= |t.inFlight|)
    && |t.inFlight| <= Max(|s.inFlight|, concurrency)
  }

  lemma {:induction false} DispatchStartsPrefix(s: State, candidates: seq<Server>, concurrency: nat, nextDue: map<nat, int>, now: int)
    returns (k: nat)
    ensures StartsPrefix(s, Dispatched(s, candidates, concurrency, nextDue, now), candidates, k, concurrency, nextDue, now)
    decreases |candidates|
  {
    var t := Dispatched(s, candidates, concurrency, nextDue, now);
    if |candidates| == 0 || concurrency <= |s.inFlight| {
      k := 0;
      assert t == s;
      NothingStarted(s, candidates, concurrency, nextDue, now);
    } else {
      var c, rest := candidates[0], candidates[1..];
      var u := if IsWanted(s, c, nextDue, now) then Started(s, c.id) else s;
      assert t == Dispatched(u, rest, concurrency, nextDue, now) && candidates == [c] + rest;
      hide *;
      var j := DispatchStartsPrefix(u, rest, concurrency, nextDue, now);
      PrefixGrows(s, t, c, rest, j, concurrency, nextDue, now);
      k := j + 1;
    }
  }

  lemma NothingStarted(s: State, candidates: seq<Server>, concurrency: nat, nextDue: map<nat, int>, now: int)
    requires |candidates| == 0 || concurrency <= |s.inFlight|
    ensures StartsPrefix(s, s, candidates, 0, concurrency, nextDue, now)
  {
    assert candidates[..0] == [];
  }

  lemma PrefixGrows(s: State, t: State, c: Server, rest: seq<Server>, j: nat, concurrency: nat, nextDue: map<nat, int>, now: int)
    requires |s.inFlight| < concurrency
    requires StartsPrefix(if IsWanted(s, c, nextDue, now) then Started(s, c.id) else s, t, rest, j, concurrency, nextDue, now)
    ensures StartsPrefix(s, t, [c] + rest, j + 1, concurrency, nextDue, now)
  {
    var u := if IsWanted(s, c, nextDue, now) then Started(s, c.id) else s;
    assert |u.inFlight| <= concurrency;
    assert ([c] + rest)[..j + 1] == [c] + rest[..j];
    WantedAfterOne(s, c, rest[..j], nextDue, now);
    hide IsWanted, Started, WantedOf;
  }

  lemma WantedAfterOne(s: State, c: Server, rest: seq<Server>, nextDue: map<nat, int>, now: int)
    ensures var u := if IsWanted(s, c, nextDue, now) then Started(s, c.id) else s;
      u.inFlight + WantedOf(u, rest, nextDue, now) == s.inFlight + WantedOf(s, [c] + rest, nextDue, now)
  {
    var u := if IsWanted(s, c, nextDue, now) then Started(s, c.id) else s;
    var all := [c] + rest;
    assert forall x :: x in all <==> x == c || x in rest;
    forall x | x in rest && x.id != c.id ensures IsWanted(u, x, nextDue, now) <==> IsWanted(s, x, nextDue, now) {
    }
    forall id ensures id in u.inFlight + WantedOf(u, rest, nextDue, now) <==> id in s.inFlight + WantedOf(s, all, nextDue, now) {
      if id in WantedOf(s, all, nextDue, now) && id != c.id {
        var x :| x in all && IsWanted(s, x, nextDue, now) && x.id == id;
        assert x in rest && IsWanted(u, x, nextDue, now);
      }
    }
  }

  /** No server is started while a strictly more urgent one that could be started is left waiting, and none is
      left waiting while there is capacity. */
  lemma UrgentFirst(s: State, candidates: seq<Server>, concurrency: nat, nextDue: map<nat, int>, now: int, a: Server, b: Server)
    requires IsSorted(s, nextDue, candidates)
    requires a in candidates && IsWanted(s, a, nextDue, now) && IsBefore(s, nextDue, a.id, b.id)
    requires b in candidates && b.id !in s.inFlight
    ensures var t := Dispatched(s, candidates, concurrency, nextDue, now);
      && (b.id in t.inFlight ==> a.id in t.inFlight)
      && (a.id !in t.inFlight ==> concurrency <= |t.inFlight|)
  {
    var t := Dispatched(s, candidates, concurrency, nextDue, now);
    var k := DispatchStartsPrefix(s, candidates, concurrency, nextDue, now);
    var i :| 0 <= i < |candidates| && candidates[i] == a;
    if i < k {
      assert candidates[..k][i] == a;
      assert a.id in WantedOf(s, candidates[..k], nextDue, now);
    } else {
      forall c | c in candidates[..k] ensures c.id != b.id {
        var j :| 0 <= j < k && candidates[..k][j] == c;
        assert candidates[j] == c && !IsBefore(s, nextDue, candidates[i].id, candidates[j].id);
      }
    }
  }

  // ----- A pending batch moves on -----

  lemma {:induction false} DispatchShrinksQueue(s: State, candidates: seq<Server>, concurrency: nat, nextDue: map<nat, int>, now: int)
    ensures Dispatched(s, candidates, concurrency, nextDue, now).queued <= s.queued
    decreases |candidates|
  {
    if |candidates| > 0 && |s.inFlight| < concurrency {
      DispatchShrinksQueue(if IsWanted(s, candidates[0], nextDue, now) then Started(s, candidates[0].id) else s,
                           candidates[1..], concurrency, nextDue, now);
    }
  }

  /** Progress for the batch: a member was started, or, short of that, a queued request was served. */
  ghost predicate Progress(s: State, t: State) {
    Rank(t) < Rank(s) || (Rank(t) == Rank(s) && t.queued < s.queued)
  }

  /** With room for one round, dispatching sorted candidates, one of them a waiting member that could be started, makes
      progress: only queued requests come before the members. */
  lemma {:induction false} DispatchProgresses(s: State, candidates: seq<Server>, concurrency: nat, nextDue: map<nat, int>, now: int, c: Server)
    requires IsSorted(s, nextDue, candidates) && |s.inFlight| < concurrency
    requires c in candidates && IsWaiting(s.batch, c.id) && IsWanted(s, c, nextDue, now)
    ensures Progress(s, Dispatched(s, candidates, concurrency, nextDue, now))
    decreases |candidates|
  {
    var d, rest := candidates[0], candidates[1..];
    var i :| 0 <= i < |candidates| && candidates[i] == c;
    assert i > 0 ==> !IsBefore(s, nextDue, candidates[i].id, candidates[0].id);
    if IsWanted(s, d, nextDue, now) {
      assert IsManual(s, d.id);
      FirstStartProgresses(s, d, rest, concurrency, nextDue, now);
    } else {
      assert rest[i - 1] == c;
      assert IsSorted(s, nextDue, rest) by {
        forall j, k | 0 <= j < k < |rest| ensures !IsBefore(s, nextDue, rest[k].id, rest[j].id) {
          assert rest[k] == candidates[k + 1] && rest[j] == candidates[j + 1];
        }
      }
      DispatchProgresses(s, rest, concurrency, nextDue, now, c);
    }
  }

  lemma FirstStartProgresses(s: State, d: Server, rest: seq<Server>, concurrency: nat, nextDue: map<nat, int>, now: int)
    requires IsManual(s, d.id)
    ensures Progress(s, Dispatched(Started(s, d.id), rest, concurrency, nextDue, now))
  {
    var u := Started(s, d.id);
    var t := Dispatched(u, rest, concurrency, nextDue, now);
    DispatchLowersRank(u, rest, concurrency, nextDue, now);
    DispatchShrinksQueue(u, rest, concurrency, nextDue, now);
    if IsWaiting(s.batch, d.id) {
      StartLowersRank(s, d.id);
    } else {
      assert u.batch == s.batch && d.id in s.queued && d.id !in t.queued;
    }
  }

  /** A pending batch is never stuck. With no round under way, either the next dispatch over sorted candidates starts a
      member, or serves a queued request before it; with nothing queued it starts a member. Or the next reading of the
      configuration drops a member that is no longer a candidate. */
  lemma PendingBatchMovesOn(s: State, candidates: seq<Server>, concurrency: nat, nextDue: map<nat, int>, now: int)
    requires Inv(s) && IsPending(s) && !s.stopped && concurrency > 0 && s.workers == map[]
    requires IsSorted(s, nextDue, candidates)
    ensures if s.batch.Keys <= EnabledOf(candidates)
            then var t := Dispatched(s, candidates, concurrency, nextDue, now);
                 Progress(s, t) && (s.queued == {} ==> exists id :: id in s.batch && !s.batch[id] && id in t.batch && t.batch[id])
            else Rank(Refreshed(s, EnabledOf(candidates), false)) < Rank(s)
  {
    if s.batch.Keys <= EnabledOf(candidates) {
      assert |s.batch| > 0 && |s.batch| == |s.batch.Keys|;
      var id :| id in s.batch.Keys;
      assert IsWaiting(s.batch, id);
      assert s.inFlight == {};
      var c :| c in candidates && c.enabled && c.id == id;
      DispatchProgresses(s, candidates, concurrency, nextDue, now, c);
      if s.queued == {} { LowerRankMeansStarted(s, candidates, concurrency, nextDue, now); }
    } else {
      var valid := EnabledOf(candidates);
      KeptIsSmaller(s.batch, valid);
      var t := Refreshed(s, valid, false);
      SmallerBatchLowersRank(t, s);
      assert !(t.batch.Keys >= s.batch.Keys);
    }
  }

  lemma LowerRankMeansStarted(s: State, candidates: seq<Server>, concurrency: nat, nextDue: map<nat, int>, now: int)
    requires Rank(Dispatched(s, candidates, concurrency, nextDue, now)) < Rank(s)
    ensures var t := Dispatched(s, candidates, concurrency, nextDue, now);
      exists id :: id in s.batch && !s.batch[id] && id in t.batch && t.batch[id]
  {
    var t := Dispatched(s, candidates, concurrency, nextDue, now);
    DispatchKeepsSequence(s, candidates, concurrency, nextDue, now);
    if forall id :: id in Waiting(s.batch) ==> id in Waiting(t.batch) {
      SizeOfSubset(Waiting(s.batch), Waiting(t.batch));
    } else {
      var id :| id in Waiting(s.batch) && id !in Waiting(t.batch);
      assert id in t.batch.Keys;
    }
  }
}
