/**
 What each critical section of the scheduler does to the queue, the batch and the rounds under way, in terms of the
 servers concerned.
 */
module BatchMeaning {
  import opened Tables
  import opened RefreshBatch

  // ----- Requesting -----

  /** A new request makes every enabled server a member that waits; while a batch is pending a request joins it. */
  lemma RequestMeaning(s: State, servers: seq<Server>)
    ensures var t := QueuedAll(s, servers);
      if s.refresh.Some? && s.refresh.value.pending then t == s
      else
        && t == s.(batch := t.batch, refresh := t.refresh, sequence := s.sequence + 1)
        && (forall id :: id in t.batch <==> exists c :: c in servers && c.enabled && c.id == id)
        && (forall id :: id in t.batch ==> !t.batch[id])
        && t.refresh == Some(Refresh(s.sequence + 1, |t.batch|, 0, t.batch != map[], None))
  {
    var batch := AllWaiting(EnabledOf(servers));
    assert |batch| > 0 <==> batch != map[] by { assert |batch| == |batch.Keys|; assert batch.Keys == {} ==> batch == map[]; }
  }

  // ----- Dispatching -----

  /** A server whose deadline has come; one without a deadline is due at once. */
  predicate IsDue(nextDue: map<nat, int>, id: nat, now: int) {
    0 <= now && (id !in nextDue || nextDue[id] <= now)
  }

  /** Someone asked for it: it is queued, or a member of the batch that waits. */
  predicate IsAsked(s: State, id: nat) {
    id in s.queued || (id in s.batch && !s.batch[id])
  }

  /** An enabled candidate of the given server has a reason to run. */
  ghost predicate HasReason(s: State, candidates: seq<Server>, nextDue: map<nat, int>, now: int, id: nat) {
    exists c :: c in candidates && c.enabled && c.id == id && (IsAsked(s, id) || IsDue(nextDue, id, now))
  }

  /** One more server runs: it leaves the queue, counts as started if it is a member, and is tagged with the batch then. */
  ghost predicate Runs(s: State, t: State, id: nat) {
    && t.inFlight == s.inFlight + {id} && t.queued == s.queued - {id}
    && t.refresh == s.refresh && t.sequence == s.sequence && t.stopped == s.stopped
    && t.batch.Keys == s.batch.Keys && (forall x :: x in s.batch ==> (t.batch[x] <==> s.batch[x] || x == id))
    && t.workers.Keys == s.workers.Keys + {id} && (forall x :: x in s.workers && x != id ==> t.workers[x] == s.workers[x])
    && t.workers[id] == if id in s.batch && !s.batch[id] && s.refresh.Some? then s.refresh.value.id else 0
  }

  lemma StartedRuns(s: State, id: nat)
    ensures Runs(s, Started(s, id), id)
  {
  }

  lemma WantedIff(s: State, c: Server, nextDue: map<nat, int>, now: int)
    requires 0 <= now
    ensures IsWanted(s, c, nextDue, now) <==> c.enabled && c.id !in s.inFlight && (IsAsked(s, c.id) || IsDue(nextDue, c.id, now))
  {
  }

  /** What has happened after some servers were started, each with a reason. */
  ghost predicate Dispatches(s: State, t: State, candidates: seq<Server>, nextDue: map<nat, int>, now: int) {
    && s.inFlight <= t.inFlight
    && (forall id :: id in t.inFlight && id !in s.inFlight ==> HasReason(s, candidates, nextDue, now, id))
    && (forall id :: id in t.queued <==> id in s.queued && (id in s.inFlight || id !in t.inFlight))
    && t.batch.Keys == s.batch.Keys
    && (forall id :: id in s.batch ==> (t.batch[id] <==> s.batch[id] || (id in t.inFlight && id !in s.inFlight)))
    && t.refresh == s.refresh && t.sequence == s.sequence && t.stopped == s.stopped
  }

  /** A dispatch starts only enabled candidates that were asked for or whose deadline has come, and takes them from the
      queue; and unless the configured number is reached it leaves no such candidate behind. */
  lemma {:induction false} DispatchMeaning(s: State, candidates: seq<Server>, concurrency: nat, nextDue: map<nat, int>, now: int)
    requires 0 <= now
    ensures var t := Dispatched(s, candidates, concurrency, nextDue, now);
      && Dispatches(s, t, candidates, nextDue, now)
      && |t.inFlight| <= Max(|s.inFlight|, concurrency)
      && forall id :: HasReason(s, candidates, nextDue, now, id) ==> id in t.inFlight || concurrency <= |t.inFlight|
    decreases |candidates|
  {
    hide Dispatches, HasReason, IsWanted, Started, IsDue, IsAsked;
    if |candidates| == 0 || concurrency <= |s.inFlight| {
      NothingDispatched(s, candidates, nextDue, now);
    } else {
      var c, rest := candidates[0], candidates[1..];
      assert candidates == [c] + rest;
      WantedIff(s, c, nextDue, now);
      var u := if IsWanted(s, c, nextDue, now) then Started(s, c.id) else s;
      DispatchMeaning(u, rest, concurrency, nextDue, now);
      if IsWanted(s, c, nextDue, now) {
        StartedRuns(s, c.id);
        StartThenRest(s, u, Dispatched(u, rest, concurrency, nextDue, now), c, rest, nextDue, now);
      } else {
        SkipThenRest(s, Dispatched(s, rest, concurrency, nextDue, now), c, rest, nextDue, now);
      }
      forall id | HasReason(s, candidates, nextDue, now, id)
        ensures id in Dispatched(u, rest, concurrency, nextDue, now).inFlight || HasReason(u, rest, nextDue, now, id)
      {
        ReasonMoves(s, u, Dispatched(u, rest, concurrency, nextDue, now), c, rest, nextDue, now, id);
      }
    }
  }

  lemma NothingDispatched(s: State, candidates: seq<Server>, nextDue: map<nat, int>, now: int)
    ensures Dispatches(s, s, candidates, nextDue, now)
    ensures candidates == [] ==> forall id :: !HasReason(s, candidates, nextDue, now, id)
  {
  }

  lemma StartThenRest(s: State, u: State, t: State, c: Server, rest: seq<Server>, nextDue: map<nat, int>, now: int)
    requires c.enabled && c.id !in s.inFlight && (IsAsked(s, c.id) || IsDue(nextDue, c.id, now))
    requires Runs(s, u, c.id) && Dispatches(u, t, rest, nextDue, now)
    ensures Dispatches(s, t, [c] + rest, nextDue, now)
  {
    hide IsDue;
    assert forall x :: x in [c] + rest <==> x == c || x in rest;
    forall id | id in t.inFlight && id !in s.inFlight ensures HasReason(s, [c] + rest, nextDue, now, id) {
      if id == c.id {
        assert c in [c] + rest;
      } else {
        var x :| x in rest && x.enabled && x.id == id && (IsAsked(u, id) || IsDue(nextDue, id, now));
        assert x in [c] + rest;
      }
    }
  }

  lemma SkipThenRest(s: State, t: State, c: Server, rest: seq<Server>, nextDue: map<nat, int>, now: int)
    requires Dispatches(s, t, rest, nextDue, now)
    ensures Dispatches(s, t, [c] + rest, nextDue, now)
  {
    hide IsDue, IsAsked;
    assert forall x :: x in rest ==> x in [c] + rest;
    forall id | id in t.inFlight && id !in s.inFlight ensures HasReason(s, [c] + rest, nextDue, now, id) {
      assert HasReason(s, rest, nextDue, now, id);
    }
  }

  lemma ReasonMoves(s: State, u: State, t: State, c: Server, rest: seq<Server>, nextDue: map<nat, int>, now: int, id: nat)
    requires HasReason(s, [c] + rest, nextDue, now, id) && Dispatches(u, t, rest, nextDue, now)
    requires if c.enabled && c.id !in s.inFlight && (IsAsked(s, c.id) || IsDue(nextDue, c.id, now)) then Runs(s, u, c.id) else u == s
    ensures id in t.inFlight || HasReason(u, rest, nextDue, now, id)
  {
    hide IsDue;
    var x :| x in [c] + rest && x.enabled && x.id == id && (IsAsked(s, id) || IsDue(nextDue, id, now));
    assert x == c || x in rest;
  }

  /** The candidates come with those asked for first, and otherwise by deadline; no deadline counts as 0. */
  ghost predicate ComesFirst(s: State, nextDue: map<nat, int>, a: nat, b: nat) {
    var due, other := if a in nextDue then nextDue[a] else 0, if b in nextDue then nextDue[b] else 0;
    if IsAsked(s, a) then !IsAsked(s, b) || due < other else !IsAsked(s, b) && due < other
  }

  /** Of two candidates the one that comes first is started first. */
  lemma FirstComesFirst(s: State, candidates: seq<Server>, concurrency: nat, nextDue: map<nat, int>, now: int, a: Server, b: Server)
    requires 0 <= now
    requires forall i, j :: 0 <= i < j < |candidates| ==> !ComesFirst(s, nextDue, candidates[j].id, candidates[i].id)
    requires a in candidates && b in candidates && a.enabled && a.id !in s.inFlight && b.id !in s.inFlight
    requires (IsAsked(s, a.id) || IsDue(nextDue, a.id, now)) && ComesFirst(s, nextDue, a.id, b.id)
    ensures b.id in Dispatched(s, candidates, concurrency, nextDue, now).inFlight
      ==> a.id in Dispatched(s, candidates, concurrency, nextDue, now).inFlight
  {
    forall x, y ensures ComesFirst(s, nextDue, x, y) <==> IsBefore(s, nextDue, x, y) {}
    WantedIff(s, a, nextDue, now);
    UrgentFirst(s, candidates, concurrency, nextDue, now, a, b);
  }

  // ----- Reading the configuration -----

  /** The members that are still candidates. */
  function Left(batch: map<nat, bool>, valid: set<nat>): map<nat, bool> {
    map id | id in batch && id in valid :: batch[id]
  }

  /** Members leave the pending batch, each counting as completed. It ends when none is left, or when probing is paused. */
  ghost predicate Leaves(s: State, t: State, left: map<nat, bool>, paused: bool) {
    && s.refresh.Some? && t.refresh.Some? && |left| <= |s.batch|
    && t.batch == (if paused then map[] else left)
    && t.refresh.value == Refresh(s.refresh.value.id, s.refresh.value.total, s.refresh.value.completed + (|s.batch| - |left|),
         left != map[] && !paused,
         if left != map[] && paused then Some(PausedMeanwhile)
         else if left != s.batch then Some(Skipped)
         else s.refresh.value.error)
  }

  /** Servers that are no longer candidates leave the queue and the batch. */
  lemma ReadMeaning(s: State, valid: set<nat>, paused: bool)
    requires Inv(s)
    ensures var t := Refreshed(s, valid, paused);
      && t == s.(queued := t.queued, batch := t.batch, refresh := t.refresh)
      && (forall id :: id in t.queued <==> id in s.queued && id in valid)
      && if s.refresh.Some? && s.refresh.value.pending then Leaves(s, t, Left(s.batch, valid), paused)
         else t.batch == s.batch && t.refresh == s.refresh
  {
    hide Inv, Thinned, Left, Leaves;
    if IsPending(s) {
      MembersLeave(s.(queued := s.queued * valid), valid);
      UpdateLeaves(s, s.(queued := s.queued * valid), valid, paused);
    }
  }

  lemma MembersLeave(s: State, valid: set<nat>)
    requires IsPending(s)
    ensures var left, t := Left(s.batch, valid), Thinned(s, valid);
      && |left| <= |s.batch| && (|left| == 0 <==> left == map[])
      && t == s.(batch := left, refresh := t.refresh)
      && t.refresh == Some(s.refresh.value.(completed := s.refresh.value.completed + (|s.batch| - |left|),
           error := if left != s.batch then Some(Skipped) else s.refresh.value.error))
  {
    LeftSize(s.batch, valid);
    hide Left, Kept;
  }

  lemma LeftSize(batch: map<nat, bool>, valid: set<nat>)
    ensures var left := Left(batch, valid);
      left == Kept(batch, valid) && |left| <= |batch| && (|left| == 0 <==> left == map[]) && (left == batch <==> |left| == |batch|)
  {
    var left := Left(batch, valid);
    assert |left| == |left.Keys| && |batch| == |batch.Keys|;
    assert left.Keys == {} <==> left == map[];
    if left != batch { Shrinks(left, batch); }
    KeptIsSmaller(batch, valid);
    assert left == Kept(batch, valid);
  }

  lemma UpdateLeaves(s: State, u: State, valid: set<nat>, paused: bool)
    requires IsPending(s) && u == s.(queued := u.queued) && |Left(s.batch, valid)| <= |s.batch|
    requires var left, t := Left(s.batch, valid), Thinned(u, valid);
      && (|left| == 0 <==> left == map[])
      && t == u.(batch := left, refresh := t.refresh)
      && t.refresh == Some(u.refresh.value.(completed := u.refresh.value.completed + (|u.batch| - |left|),
           error := if left != u.batch then Some(Skipped) else u.refresh.value.error))
    ensures var out := Updated(u, valid, paused); out == u.(batch := out.batch, refresh := out.refresh)
    ensures Leaves(s, Updated(u, valid, paused), Left(s.batch, valid), paused)
  {
    hide Thinned, Left;
  }

  lemma Shrinks(left: map<nat, bool>, all: map<nat, bool>)
    requires left.Keys <= all.Keys && left != all && forall id :: id in left ==> left[id] == all[id]
    ensures |left| < |all|
  {
    assert left.Keys != all.Keys;
    assert all.Keys == left.Keys + (all.Keys - left.Keys);
    assert |left| == |left.Keys| && |all| == |all.Keys|;
  }

  // ----- Reporting -----

  /** A round that reports frees its server. It counts for the batch only if it was started for the pending one as a member;
      then the member leaves, and the batch ends with the last one. */
  lemma ReportMeaning(s: State, id: nat, failed: bool)
    requires Inv(s) && id in s.workers
    ensures var t, counts := Finished(s, id, failed), IsPending(s) && id in s.batch && s.batch[id];
      && t == s.(inFlight := s.inFlight - {id}, workers := s.workers - {id}, batch := t.batch, refresh := t.refresh)
      && t.batch == (if counts then s.batch - {id} else s.batch)
      && (!counts ==> t.refresh == s.refresh)
      && (counts ==> t.refresh == Some(s.refresh.value.(completed := s.refresh.value.completed + 1, pending := t.batch != map[],
            error := if failed then Some(SaveFailed) else s.refresh.value.error)))
  {
    var batch := s.batch - {id};
    assert |batch| == |batch.Keys| && (batch.Keys == {} <==> batch == map[]);
    if IsPending(s) && id in s.batch && s.batch[id] { TagKnown(s, id); }
    hide SetsFit, TagsFit;
  }

  /** Batches are numbered from 1. */
  lemma TagKnown(s: State, id: nat)
    requires Inv(s) && IsPending(s) && id in s.batch && s.batch[id]
    ensures id in s.workers && s.workers[id] == s.refresh.value.id && s.workers[id] != 0
  {
    assert Tagged(s, id);
  }

  /** Shutdown ends a pending batch; no round reports any more. */
  lemma StopMeaning(s: State)
    ensures var t := Halted(s);
      && t.stopped && t.workers == map[] && t.queued == s.queued && t.inFlight == s.inFlight && t.sequence == s.sequence
      && if IsPending(s) then t.batch == map[] && t.refresh == Some(s.refresh.value.(pending := false, error := Some(Stopped)))
         else t.batch == s.batch && t.refresh == s.refresh
  {
  }
}
