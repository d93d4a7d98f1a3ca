/**
 The monitor's workers, as they interleave: slots, parking and waking, and the shared collection of references.
 Between two steps of a worker any others may run.
 */
module Probing {
  import opened Tables
  import opened SlotGate
  import C = Collections

  /** A collection a worker leads: its key, the channel it must close, and the cache generation it began in. */
  datatype Job = Job(key: C.Key, done: nat, generation: nat)

  /** Why a worker wants a slot: for its own target, or for a trusted source of the collection it leads. */
  datatype Purpose = ForTarget | ForSource(job: Job)

  /** What a worker reads the reference pool for: a key, under the history setting of its own configuration. */
  datatype View = View(key: C.Key, hours: real)

  /** Where a worker stands. `Between` is between two domains, or between a target's answer and its references; a worker
      that has `Saved` an observation of a key still holds its slot. */
  datatype Place =
    | Between
    | Acquiring(server: nat, purpose: Purpose)
    | Sleeping(server: nat, purpose: Purpose, channel: nat)
    | Holding(server: nat, purpose: Purpose)
    | Saved(server: nat, purpose: Purpose, saved: C.Key)
    | Consulting(view: View)
    | Subscribed(view: View, done: nat, channel: nat)
    | Awaiting(view: View, done: nat, channel: nat)
    | Collecting(job: Job)

  /** `usable` are the views under which the pool has a usable reference. */
  datatype State = State(slots: Slots, table: C.Table, generation: nat, cancelled: bool, usable: set<View>, workers: map<nat, Place>)

  function Initial(concurrency: nat): State {
    State(Slots(0, {}, concurrency, 0), C.Empty, 0, false, {}, map[])
  }

  datatype Step =
    | Spawn(worker: nat)
    | Finish(worker: nat)
    | PickTarget(worker: nat, server: nat)
    | NeedReferences(worker: nat, view: View)
    | TryAcquire(worker: nat)
    | WakeUp(worker: nat)
    /** A trusted probe saves its observation, which may make the pool usable under some settings. */
    | Save(worker: nat, key: C.Key, hours: set<real>)
    | Release(worker: nat)
    | FoundUsable(worker: nat)
    | ReadFails(worker: nat)
    | EnterCollection(worker: nat, fingerprint: string, now: int)
    | NothingUsable(worker: nat)
    | Resume(worker: nat)
    | PickSource(worker: nat, server: nat)
    | EndCollection(worker: nat, finished: int, failure: Option<string>)
    /** Observations age, are pruned, or are revoked with their source. */
    | Expire(views: set<View>)
    | Configure(concurrency: nat, allowed: set<C.Key>)
    | RefreshAll
    | Cancel

  function PlaceOf(s: State, w: nat): Option<Place> {
    if w in s.workers then Some(s.workers[w]) else None
  }

  function Moved(s: State, w: nat, place: Place): State {
    s.(workers := s.workers[w := place])
  }

  /** Where a worker continues when it gets no slot, or gives one back. */
  function After(purpose: Purpose): Place {
    match purpose
    case ForTarget => Between
    case ForSource(job) => Collecting(job)
  }

  predicate IsClosed(s: State, key: C.Key, done: nat) {
    !(key in s.table.entries && s.table.entries[key].done == Some(done))
  }

  /** A finished collection does not delay the next one when it was interrupted. */
  predicate IsExcused(s: State, job: Job) {
    s.cancelled || s.slots.concurrency == 0 || job.generation != s.generation
  }

  /** What is remembered of a collection: an interruption, or else its own failure. */
  function ErrorOf(s: State, job: Job, failure: Option<string>): Option<C.Failure> {
    if s.cancelled then Some(C.Cancelled)
    else if s.slots.concurrency == 0 then Some(C.Paused)
    else if job.generation != s.generation then Some(C.Superseded)
    else if failure.Some? then Some(C.Failed(failure.value))
    else None
  }

  function Acquired(s: State, w: nat, server: nat, purpose: Purpose): State {
    var (slots, attempt) := Attempted(s.slots, server);
    match attempt
    case Paused => Moved(s, w, After(purpose))
    case Admitted => Moved(s, w, Holding(server, purpose)).(slots := slots)
    case Parked(channel) => Moved(s, w, Sleeping(server, purpose, channel))
  }

  function Consulted(s: State, w: nat, view: View, fingerprint: string, now: int): State {
    var key := view.key;
    if s.slots.concurrency == 0 then Moved(s, w, Between)
    else
      var t := s.(table := C.Entered(s.table, key, fingerprint, now));
      match C.AnswerFor(s.table, key, fingerprint, now)
      case Join(done) => Moved(t, w, Subscribed(view, done, s.slots.channel))
      case TooSoon(_) => Moved(t, w, Between)
      case Lead(done) => Moved(t, w, Collecting(Job(key, done, s.generation)))
  }

  function Freed(s: State, w: nat, server: nat, purpose: Purpose): State {
    Moved(s, w, After(purpose)).(slots := Released(s.slots, server))
  }

  /** What one step does; a step that is not possible changes nothing. */
  function Next(s: State, step: Step): State {
    match step
    case Spawn(w) => if w in s.workers then s else Moved(s, w, Between)
    case Finish(w) => if PlaceOf(s, w) == Some(Between) then s.(workers := s.workers - {w}) else s
    case PickTarget(w, server) => if PlaceOf(s, w) == Some(Between) then Moved(s, w, Acquiring(server, ForTarget)) else s
    case NeedReferences(w, view) => if PlaceOf(s, w) == Some(Between) then Moved(s, w, Consulting(view)) else s
    case TryAcquire(w) =>
      (match PlaceOf(s, w)
       case Some(Acquiring(server, purpose)) => Acquired(s, w, server, purpose)
       case _ => s)
    case WakeUp(w) =>
      (match PlaceOf(s, w)
       case Some(Sleeping(server, purpose, channel)) =>
         if channel < s.slots.channel then Moved(s, w, Acquiring(server, purpose))
         else if s.cancelled then Moved(s, w, After(purpose)) else s
       case _ => s)
    case Save(w, key, hours) =>
      (match PlaceOf(s, w)
       case Some(Holding(server, purpose)) =>
         Moved(s, w, Saved(server, purpose, key)).(usable := s.usable + set h | h in hours :: View(key, h))
       case _ => s)
    case Release(w) =>
      (match PlaceOf(s, w)
       case Some(Holding(server, purpose)) => Freed(s, w, server, purpose)
       case Some(Saved(server, purpose, _)) => Freed(s, w, server, purpose)
       case _ => s)
    case FoundUsable(w) =>
      (match PlaceOf(s, w)
       case Some(Consulting(view)) => if view in s.usable then Moved(s, w, Between) else s
       case Some(Subscribed(view, _, _)) => if view in s.usable then Moved(s, w, Between) else s
       case _ => s)
    case ReadFails(w) =>
      (match PlaceOf(s, w)
       case Some(Consulting(_)) => Moved(s, w, Between)
       case Some(Subscribed(_, _, _)) => Moved(s, w, Between)
       case _ => s)
    case EnterCollection(w, fingerprint, now) =>
      (match PlaceOf(s, w)
       case Some(Consulting(view)) => Consulted(s, w, view, fingerprint, now)
       case _ => s)
    case NothingUsable(w) =>
      (match PlaceOf(s, w)
       case Some(Subscribed(view, done, channel)) => if view in s.usable then s else Moved(s, w, Awaiting(view, done, channel))
       case _ => s)
    case Resume(w) =>
      (match PlaceOf(s, w)
       case Some(Awaiting(view, done, channel)) =>
         if IsClosed(s, view.key, done) || channel < s.slots.channel then Moved(s, w, Consulting(view))
         else if s.cancelled then Moved(s, w, Between) else s
       case _ => s)
    case PickSource(w, server) =>
      (match PlaceOf(s, w)
       case Some(Collecting(job)) => Moved(s, w, Acquiring(server, ForSource(job)))
       case _ => s)
    case EndCollection(w, finished, failure) =>
      (match PlaceOf(s, w)
       case Some(Collecting(job)) =>
         if C.IsOpen(s.table.entries, job.key) then
           Moved(s, w, Between).(table := C.Closed(s.table, job.key, finished, IsExcused(s, job), ErrorOf(s, job, failure)))
         else s
       case _ => s)
    case Expire(views) => s.(usable := s.usable - views)
    case Configure(concurrency, allowed) =>
      s.(slots := Configured(s.slots, concurrency), table := C.Pruned(s.table, allowed))
    case RefreshAll => s.(generation := s.generation + 1, table := C.Forgotten(s.table))
    case Cancel => s.(cancelled := true)
  }

  function Run(s: State, steps: seq<Step>): State {
    if |steps| == 0 then s else Next(Run(s, steps[..|steps| - 1]), steps[|steps| - 1])
  }

  // ----- Who owns what -----

  /** Each thing held is owned by exactly one worker, and nothing else is owned. */
  ghost predicate Exclusive<R>(owners: map<nat, R>, held: set<R>) {
    && (forall w :: w in owners ==> owners[w] in held)
    && (forall v, w :: v in owners && w in owners && owners[v] == owners[w] ==> v == w)
    && (forall r :: r in held ==> exists w :: w in owners && owners[w] == r)
  }

  lemma OneMoreOwner<R>(owners: map<nat, R>, held: set<R>, w: nat, r: R)
    requires Exclusive(owners, held) && w !in owners && r !in held
    ensures Exclusive(owners[w := r], held + {r})
  {
    var more := owners[w := r];
    forall x | x in held + {r} ensures exists v :: v in more && more[v] == x {
      if x in held {
        var v :| v in owners && owners[v] == x;
        assert v in more && more[v] == x;
      } else {
        assert w in more && more[w] == x;
      }
    }
  }

  lemma OneOwnerLess<R>(owners: map<nat, R>, held: set<R>, w: nat)
    requires Exclusive(owners, held) && w in owners
    ensures Exclusive(owners - {w}, held - {owners[w]})
  {
    var fewer := owners - {w};
    forall x | x in held - {owners[w]} ensures exists v :: v in fewer && fewer[v] == x {
      var v :| v in owners && owners[v] == x;
      assert v in fewer && fewer[v] == x;
    }
  }

  function SlotOf(place: Place): Option<nat> {
    match place
    case Holding(server, _) => Some(server)
    case Saved(server, _, _) => Some(server)
    case _ => None
  }

  function JobIn(purpose: Purpose): Option<(C.Key, nat)> {
    match purpose
    case ForTarget => None
    case ForSource(job) => Some((job.key, job.done))
  }

  /** The collection a worker leads, wherever in it the worker stands. */
  function JobOf(place: Place): Option<(C.Key, nat)> {
    match place
    case Acquiring(_, purpose) => JobIn(purpose)
    case Sleeping(_, purpose, _) => JobIn(purpose)
    case Holding(_, purpose) => JobIn(purpose)
    case Saved(_, purpose, _) => JobIn(purpose)
    case Collecting(job) => Some((job.key, job.done))
    case _ => None
  }

  function Holders(workers: map<nat, Place>): map<nat, nat> {
    map w | w in workers && SlotOf(workers[w]).Some? :: SlotOf(workers[w]).value
  }

  function Leaders(workers: map<nat, Place>): map<nat, (C.Key, nat)> {
    map w | w in workers && JobOf(workers[w]).Some? :: JobOf(workers[w]).value
  }

  // ----- The invariant -----

  /** A worker asleep on the current channel could not have been let in since it fell asleep. */
  predicate SleepsForReason(slots: Slots, place: Place) {
    place.Sleeping? && place.channel == slots.channel ==> slots.concurrency != 0 && !Admits(slots, place.server)
  }

  ghost predicate NobodyOverslept(s: State) {
    forall w :: w in s.workers ==> SleepsForReason(s.slots, s.workers[w])
  }

  ghost predicate SlotsFit(s: State) {
    Exclusive(Holders(s.workers), s.slots.busy) && s.slots.active == |s.slots.busy|
  }

  ghost predicate JobsFit(s: State) {
    Exclusive(Leaders(s.workers), C.Open(s.table.entries))
  }

  predicate ChannelFits(slots: Slots, place: Place) {
    match place
    case Sleeping(_, _, channel) => channel <= slots.channel
    case Subscribed(_, _, channel) => channel <= slots.channel
    case Awaiting(_, _, channel) => channel <= slots.channel
    case _ => true
  }

  ghost predicate ChannelsFit(s: State) {
    forall w :: w in s.workers ==> ChannelFits(s.slots, s.workers[w])
  }

  /** Some worker has saved an observation of the key and not yet signalled. */
  ghost predicate IsAnnounced(workers: map<nat, Place>, key: C.Key) {
    exists w :: w in workers && workers[w].Saved? && workers[w].saved == key
  }

  /** A worker awaiting references on the current channel has nothing to read yet, or is about to be woken. */
  ghost predicate AwaitsForReason(channel: nat, usable: set<View>, workers: map<nat, Place>, place: Place) {
    place.Awaiting? && place.channel == channel && place.view in usable ==> IsAnnounced(workers, place.view.key)
  }

  ghost predicate NobodyMissed(channel: nat, usable: set<View>, workers: map<nat, Place>) {
    forall w :: w in workers ==> AwaitsForReason(channel, usable, workers, workers[w])
  }

  ghost predicate NobodyMissedReferences(s: State) {
    NobodyMissed(s.slots.channel, s.usable, s.workers)
  }

  ghost predicate Inv(s: State) {
    NobodyOverslept(s) && SlotsFit(s) && JobsFit(s) && ChannelsFit(s) && C.Inv(s.table)
  }

  // ----- One worker moves -----

  lemma HoldersAfterMove(workers: map<nat, Place>, w: nat, place: Place)
    ensures Holders(workers[w := place])
         == if SlotOf(place).Some? then Holders(workers)[w := SlotOf(place).value] else Holders(workers) - {w}
  {
  }

  lemma LeadersAfterMove(workers: map<nat, Place>, w: nat, place: Place)
    ensures Leaders(workers[w := place])
         == if JobOf(place).Some? then Leaders(workers)[w := JobOf(place).value] else Leaders(workers) - {w}
  {
  }

  lemma SameHolders(workers: map<nat, Place>, w: nat, place: Place)
    requires w in workers && SlotOf(workers[w]) == SlotOf(place)
    ensures Holders(workers[w := place]) == Holders(workers)
  {
  }

  lemma SameLeaders(workers: map<nat, Place>, w: nat, place: Place)
    requires w in workers && JobOf(workers[w]) == JobOf(place)
    ensures Leaders(workers[w := place]) == Leaders(workers)
  {
  }

  lemma MoveKeepsInv(s: State, w: nat, place: Place)
    requires Inv(s) && w in s.workers
    requires SlotOf(s.workers[w]) == SlotOf(place) && JobOf(s.workers[w]) == JobOf(place)
    requires SleepsForReason(s.slots, place) && ChannelFits(s.slots, place)
    ensures Inv(Moved(s, w, place))
  {
    SameHolders(s.workers, w, place);
    SameLeaders(s.workers, w, place);
    hide Exclusive, C.Inv, C.Open, Holders, Leaders;
  }

  lemma SpawnKeepsInv(s: State, w: nat)
    requires Inv(s) && w !in s.workers
    ensures Inv(Moved(s, w, Between))
  {
    HoldersAfterMove(s.workers, w, Between);
    LeadersAfterMove(s.workers, w, Between);
    assert Holders(s.workers) - {w} == Holders(s.workers) && Leaders(s.workers) - {w} == Leaders(s.workers);
    hide Exclusive, C.Inv, C.Open, Holders, Leaders;
  }

  lemma FinishKeepsInv(s: State, w: nat)
    requires Inv(s) && PlaceOf(s, w) == Some(Between)
    ensures Inv(s.(workers := s.workers - {w}))
  {
    assert Holders(s.workers - {w}) == Holders(s.workers) && Leaders(s.workers - {w}) == Leaders(s.workers);
    hide Exclusive, C.Inv, C.Open, Holders, Leaders;
  }

  lemma AdmissionKeepsInv(s: State, w: nat, server: nat, purpose: Purpose)
    requires Inv(s) && PlaceOf(s, w) == Some(Acquiring(server, purpose)) && Attempted(s.slots, server).1 == Admitted
    ensures Inv(Acquired(s, w, server, purpose))
  {
    var t := Acquired(s, w, server, purpose);
    var place := Holding(server, purpose);
    assert t.workers == s.workers[w := place] && t.table == s.table;
    assert w !in Holders(s.workers);
    OneMoreOwner(Holders(s.workers), s.slots.busy, w, server);
    HoldersAfterMove(s.workers, w, place);
    SameLeaders(s.workers, w, place);
    hide Exclusive, C.Inv, C.Open, Holders, Leaders;
  }

  lemma AcquireKeepsInv(s: State, w: nat, server: nat, purpose: Purpose)
    requires Inv(s) && PlaceOf(s, w) == Some(Acquiring(server, purpose))
    ensures Inv(Acquired(s, w, server, purpose))
  {
    var (_, attempt) := Attempted(s.slots, server);
    match attempt
    case Admitted => AdmissionKeepsInv(s, w, server, purpose);
    case Paused => MoveKeepsInv(s, w, After(purpose));
    case Parked(channel) => MoveKeepsInv(s, w, Sleeping(server, purpose, channel));
  }

  lemma ReleaseKeepsInv(s: State, w: nat, server: nat, purpose: Purpose)
    requires Inv(s) && w in s.workers && SlotOf(s.workers[w]) == Some(server) && JobOf(s.workers[w]) == JobIn(purpose)
    ensures Inv(Freed(s, w, server, purpose))
  {
    OneOwnerLess(Holders(s.workers), s.slots.busy, w);
    HoldersAfterMove(s.workers, w, After(purpose));
    assert server in s.slots.busy;
    hide Exclusive, C.Inv, C.Open, Holders, Leaders;
    SameLeaders(s.workers, w, After(purpose));
  }

  lemma UsableIsIndependent(s: State, usable: set<View>)
    requires Inv(s)
    ensures Inv(s.(usable := usable))
  {
    hide Exclusive, C.Inv, C.Open, Holders, Leaders;
  }

  lemma ConsultKeepsInv(s: State, w: nat, view: View, fingerprint: string, now: int)
    requires Inv(s) && PlaceOf(s, w) == Some(Consulting(view))
    ensures Inv(Consulted(s, w, view, fingerprint, now))
  {
    var key := view.key;
    if s.slots.concurrency == 0 {
      MoveKeepsInv(s, w, Between);
    } else {
      var t := s.(table := C.Entered(s.table, key, fingerprint, now));
      C.EnteringKeepsInv(s.table, key, fingerprint, now);
      C.EnteringOpens(s.table, key, fingerprint, now);
      hide C.Entered, C.Open, C.Inv;
      match C.AnswerFor(s.table, key, fingerprint, now)
      case Join(done) => MoveKeepsInv(t, w, Subscribed(view, done, s.slots.channel));
      case TooSoon(_) => MoveKeepsInv(t, w, Between);
      case Lead(done) => LeadKeepsInv(s, t, w, Job(key, done, s.generation));
    }
  }

  lemma LeadKeepsInv(s: State, t: State, w: nat, job: Job)
    requires Inv(s) && w in s.workers && JobOf(s.workers[w]).None? && SlotOf(s.workers[w]).None?
    requires t == s.(table := t.table) && C.Inv(t.table)
    requires C.Open(t.table.entries) == C.Open(s.table.entries) + {(job.key, job.done)} && !C.IsOpen(s.table.entries, job.key)
    ensures Inv(Moved(t, w, Collecting(job)))
  {
    var r := (job.key, job.done);
    C.OpenMeans(s.table.entries, r);
    assert w !in Leaders(s.workers);
    OneMoreOwner(Leaders(s.workers), C.Open(s.table.entries), w, r);
    LeadersAfterMove(s.workers, w, Collecting(job));
    SameHolders(s.workers, w, Collecting(job));
    hide Exclusive, C.Inv, C.Open, Holders, Leaders;
  }

  /** A collector always finds its own channel in the table. */
  lemma LeaderIsOpen(s: State, w: nat, job: Job)
    requires JobsFit(s) && PlaceOf(s, w) == Some(Collecting(job))
    ensures C.IsOpen(s.table.entries, job.key) && s.table.entries[job.key].done == Some(job.done)
  {
    assert Leaders(s.workers)[w] == (job.key, job.done);
    C.OpenMeans(s.table.entries, (job.key, job.done));
  }

  lemma EndKeepsInv(s: State, w: nat, job: Job, finished: int, failure: Option<string>)
    requires Inv(s) && PlaceOf(s, w) == Some(Collecting(job)) && C.IsOpen(s.table.entries, job.key)
    ensures Inv(Moved(s, w, Between).(table := C.Closed(s.table, job.key, finished, IsExcused(s, job), ErrorOf(s, job, failure))))
  {
    LeaderIsOpen(s, w, job);
    C.ClosingKeepsInv(s.table, job.key, finished, IsExcused(s, job), ErrorOf(s, job, failure));
    C.ClosingCloses(s.table, job.key, finished, IsExcused(s, job), ErrorOf(s, job, failure));
    assert Leaders(s.workers)[w] == (job.key, job.done);
    OneOwnerLess(Leaders(s.workers), C.Open(s.table.entries), w);
    LeadersAfterMove(s.workers, w, Between);
    SameHolders(s.workers, w, Between);
    hide Exclusive, C.Inv, C.Open, C.Closed, Holders, Leaders;
  }

  lemma ConfigureKeepsInv(s: State, concurrency: nat, allowed: set<C.Key>)
    requires Inv(s)
    ensures Inv(Next(s, Configure(concurrency, allowed)))
  {
    C.PruningKeepsInv(s.table, allowed);
    C.PruningOpensNothing(s.table, allowed);
    hide Exclusive, C.Inv, C.Open, C.Pruned, Holders, Leaders;
  }

  lemma RefreshKeepsInv(s: State)
    requires Inv(s)
    ensures Inv(Next(s, RefreshAll))
  {
    C.ForgettingKeepsInv(s.table);
    C.ForgettingOpensNothing(s.table);
    hide Exclusive, C.Inv, C.Open, C.Forgotten, Holders, Leaders;
  }

  lemma WaitingKeepsInv(s: State, step: Step)
    requires Inv(s) && (step.WakeUp? || step.FoundUsable? || step.ReadFails? || step.NothingUsable? || step.Resume?)
    ensures Inv(Next(s, step))
  {
    var t := Next(s, step);
    var w := step.worker;
    if t != s {
      assert w in s.workers && w in t.workers && t == Moved(s, w, t.workers[w]);
      MoveKeepsInv(s, w, t.workers[w]);
    }
  }

  lemma NextKeepsInv(s: State, step: Step)
    requires Inv(s)
    ensures Inv(Next(s, step))
  {
    hide Inv, Acquired, Consulted, C.Closed;
    match step
    case Spawn(w) => if w !in s.workers { SpawnKeepsInv(s, w); }
    case Finish(w) => if PlaceOf(s, w) == Some(Between) { FinishKeepsInv(s, w); }
    case PickTarget(w, server) => if PlaceOf(s, w) == Some(Between) { MoveKeepsInv(s, w, Acquiring(server, ForTarget)); }
    case NeedReferences(w, view) => if PlaceOf(s, w) == Some(Between) { MoveKeepsInv(s, w, Consulting(view)); }
    case TryAcquire(w) =>
      match PlaceOf(s, w) {
        case Some(Acquiring(server, purpose)) => AcquireKeepsInv(s, w, server, purpose);
        case _ =>
      }
    case WakeUp(w) => WaitingKeepsInv(s, step);
    case Save(w, key, hours) =>
      match PlaceOf(s, w) {
        case Some(Holding(server, purpose)) =>
          MoveKeepsInv(s, w, Saved(server, purpose, key));
          UsableIsIndependent(Moved(s, w, Saved(server, purpose, key)), Next(s, step).usable);
        case _ =>
      }
    case Release(w) =>
      match PlaceOf(s, w) {
        case Some(Holding(server, purpose)) => ReleaseKeepsInv(s, w, server, purpose);
        case Some(Saved(server, purpose, _)) => ReleaseKeepsInv(s, w, server, purpose);
        case _ =>
      }
    case FoundUsable(w) => WaitingKeepsInv(s, step);
    case ReadFails(w) => WaitingKeepsInv(s, step);
    case EnterCollection(w, fingerprint, now) =>
      match PlaceOf(s, w) {
        case Some(Consulting(view)) => ConsultKeepsInv(s, w, view, fingerprint, now);
        case _ =>
      }
    case NothingUsable(w) => WaitingKeepsInv(s, step);
    case Resume(w) => WaitingKeepsInv(s, step);
    case PickSource(w, server) =>
      match PlaceOf(s, w) {
        case Some(Collecting(job)) => MoveKeepsInv(s, w, Acquiring(server, ForSource(job)));
        case _ =>
      }
    case EndCollection(w, finished, failure) =>
      match PlaceOf(s, w) {
        case Some(Collecting(job)) => if C.IsOpen(s.table.entries, job.key) { EndKeepsInv(s, w, job, finished, failure); }
        case _ =>
      }
    case Expire(views) => UsableIsIndependent(s, s.usable - views);
    case Configure(concurrency, allowed) => ConfigureKeepsInv(s, concurrency, allowed);
    case RefreshAll => RefreshKeepsInv(s);
    case Cancel => CancelKeepsInv(s);
  }

  lemma CancelKeepsInv(s: State)
    requires Inv(s)
    ensures Inv(Next(s, Cancel))
  {
  }

  lemma InitialIsInv(concurrency: nat)
    ensures Inv(Initial(concurrency))
  {
  }

  lemma {:induction false} RunKeepsInv(s: State, steps: seq<Step>)
    requires Inv(s)
    ensures Inv(Run(s, steps))
  {
    hide Inv, Next;
    if |steps| > 0 {
      RunKeepsInv(s, steps[..|steps| - 1]);
      NextKeepsInv(Run(s, steps[..|steps| - 1]), steps[|steps| - 1]);
    }
  }

  // ----- Nobody misses references -----

  lemma AnnouncedAfterMove(workers: map<nat, Place>, w: nat, place: Place, key: C.Key)
    requires w in workers ==> !workers[w].Saved?
    ensures IsAnnounced(workers, key) ==> IsAnnounced(workers[w := place], key)
  {
    if IsAnnounced(workers, key) {
      var v :| v in workers && workers[v].Saved? && workers[v].saved == key;
      assert v != w && workers[w := place][v] == workers[v];
    }
  }

  /** A worker that was not about to signal moves somewhere where it misses nothing; less may be usable than before. */
  lemma MoveMissesNothing(channel: nat, usable: set<View>, workers: map<nat, Place>, w: nat, place: Place)
    requires NobodyMissed(channel, usable, workers) && (w in workers ==> !workers[w].Saved?)
    requires place.Awaiting? && place.channel == channel ==> place.view !in usable
    ensures NobodyMissed(channel, usable, workers[w := place])
  {
    hide IsAnnounced;
    var moved := workers[w := place];
    forall v | v in moved ensures AwaitsForReason(channel, usable, moved, moved[v]) {
      if v != w {
        assert AwaitsForReason(channel, usable, workers, workers[v]);
        if workers[v].Awaiting? { AnnouncedAfterMove(workers, w, place, workers[v].view.key); }
      }
    }
  }

  lemma SaveMissesNothing(s: State, w: nat, server: nat, purpose: Purpose, key: C.Key, hours: set<real>)
    requires NobodyMissedReferences(s) && PlaceOf(s, w) == Some(Holding(server, purpose))
    ensures NobodyMissedReferences(Next(s, Save(w, key, hours)))
  {
    var t := Next(s, Save(w, key, hours));
    var place := Saved(server, purpose, key);
    MoveMissesNothing(s.slots.channel, s.usable, s.workers, w, place);
    assert t.workers == s.workers[w := place];
    forall v | v in t.workers ensures AwaitsForReason(t.slots.channel, t.usable, t.workers, t.workers[v]) {
      assert AwaitsForReason(s.slots.channel, s.usable, t.workers, t.workers[v]);
      assert t.workers[w].Saved? && t.workers[w].saved == key;
      assert IsAnnounced(t.workers, key);
    }
  }

  /** A signal wakes everyone who awaits references. */
  lemma SignalMissesNothing(s: State, t: State)
    requires ChannelsFit(s) && s.slots.channel < t.slots.channel
    requires forall v :: v in t.workers && t.workers[v].Awaiting? ==> v in s.workers && s.workers[v] == t.workers[v]
    ensures NobodyMissedReferences(t)
  {
    forall v | v in t.workers ensures AwaitsForReason(t.slots.channel, t.usable, t.workers, t.workers[v]) {
      if t.workers[v].Awaiting? { assert ChannelFits(s.slots, s.workers[v]); }
    }
  }

  lemma ReleaseMissesNothing(s: State, w: nat, server: nat, purpose: Purpose)
    requires ChannelsFit(s) && w in s.workers
    ensures NobodyMissedReferences(Freed(s, w, server, purpose))
  {
    SignalMissesNothing(s, Freed(s, w, server, purpose));
  }

  lemma ExpiryMissesNothing(s: State, usable: set<View>)
    requires NobodyMissedReferences(s) && usable <= s.usable
    ensures NobodyMissedReferences(s.(usable := usable))
  {
    hide IsAnnounced;
    forall v | v in s.workers ensures AwaitsForReason(s.slots.channel, usable, s.workers, s.workers[v]) {
      assert AwaitsForReason(s.slots.channel, s.usable, s.workers, s.workers[v]);
    }
  }

  lemma FinishMissesNothing(s: State, w: nat)
    requires NobodyMissedReferences(s) && PlaceOf(s, w) == Some(Between)
    ensures NobodyMissedReferences(s.(workers := s.workers - {w}))
  {
    var fewer := s.workers - {w};
    forall v | v in fewer ensures AwaitsForReason(s.slots.channel, s.usable, fewer, fewer[v]) {
      assert AwaitsForReason(s.slots.channel, s.usable, s.workers, s.workers[v]);
      if fewer[v].Awaiting? && IsAnnounced(s.workers, fewer[v].view.key) {
        var u :| u in s.workers && s.workers[u].Saved? && s.workers[u].saved == fewer[v].view.key;
        assert u in fewer;
      }
    }
  }

  /** Every other step moves at most one worker, which was not about to signal and does not settle down to wait where
      there is something to read. */
  lemma OtherStepsMissNothing(s: State, step: Step)
    requires NobodyMissedReferences(s)
    requires !step.Save? && !step.Release? && !step.Expire? && !step.Finish? && !step.Configure?
    ensures NobodyMissedReferences(Next(s, step))
  {
    hide NobodyMissed, C.Entered, C.Closed, C.Forgotten, C.IsOpen;
    var t := Next(s, step);
    if t.workers != s.workers {
      var w := step.worker;
      assert w in t.workers && t.workers == s.workers[w := t.workers[w]] && t.slots.channel == s.slots.channel && t.usable == s.usable;
      MoveMissesNothing(s.slots.channel, s.usable, s.workers, w, t.workers[w]);
    } else {
      assert t.slots.channel == s.slots.channel && t.usable == s.usable;
    }
  }

  lemma NextMissesNothing(s: State, step: Step)
    requires Inv(s) && NobodyMissedReferences(s)
    ensures NobodyMissedReferences(Next(s, step))
  {
    match step
    case Save(w, key, hours) =>
      match PlaceOf(s, w) {
        case Some(Holding(server, purpose)) => SaveMissesNothing(s, w, server, purpose, key, hours);
        case _ =>
      }
    case Release(w) =>
      match PlaceOf(s, w) {
        case Some(Holding(server, purpose)) => ReleaseMissesNothing(s, w, server, purpose);
        case Some(Saved(server, purpose, _)) => ReleaseMissesNothing(s, w, server, purpose);
        case _ =>
      }
    case Expire(views) => ExpiryMissesNothing(s, s.usable - views);
    case Finish(w) => if PlaceOf(s, w) == Some(Between) { FinishMissesNothing(s, w); }
    case Configure(_, _) => SignalMissesNothing(s, Next(s, step));
    case _ => OtherStepsMissNothing(s, step);
  }

  lemma {:induction false} RunMissesNothing(s: State, steps: seq<Step>)
    requires Inv(s) && NobodyMissedReferences(s)
    ensures NobodyMissedReferences(Run(s, steps))
  {
    hide Inv, Next, NobodyMissedReferences;
    if |steps| > 0 {
      RunMissesNothing(s, steps[..|steps| - 1]);
      RunKeepsInv(s, steps[..|steps| - 1]);
      NextMissesNothing(Run(s, steps[..|steps| - 1]), steps[|steps| - 1]);
    }
  }

  /** In every reachable state, a worker that awaits references on the current channel has none to read, unless a trusted
      probe has just saved one and is about to release its slot, which signals. */
  lemma NoLostReferences(concurrency: nat, steps: seq<Step>, w: nat)
    ensures var s := Run(Initial(concurrency), steps);
      w in s.workers && s.workers[w].Awaiting? && s.workers[w].channel == s.slots.channel && s.workers[w].view in s.usable
      ==> IsAnnounced(s.workers, s.workers[w].view.key)
  {
    InitialIsInv(concurrency);
    RunMissesNothing(Initial(concurrency), steps);
    var s := Run(Initial(concurrency), steps);
    hide Run;
    assert w in s.workers ==> AwaitsForReason(s.slots.channel, s.usable, s.workers, s.workers[w]);
  }

  // ----- What holds in every reachable state -----

  /** As many slots are counted as there are workers holding one, no two of them probe the same server, and a
      worker asleep on the current channel has nothing to wake up for. */
  lemma SlotsAreSound(concurrency: nat, steps: seq<Step>)
    ensures var s := Run(Initial(concurrency), steps);
      && s.slots.active == |s.slots.busy| == |Holders(s.workers)|
      && (forall v, w | v in s.workers && w in s.workers && SlotOf(s.workers[v]).Some? :: SlotOf(s.workers[v]) == SlotOf(s.workers[w]) ==> v == w)
      && (forall w | w in s.workers && s.workers[w].Sleeping? && s.workers[w].channel == s.slots.channel ::
            s.slots.concurrency != 0 && (s.slots.concurrency <= s.slots.active || s.workers[w].server in s.slots.busy))
  {
    InitialIsInv(concurrency);
    RunKeepsInv(Initial(concurrency), steps);
    var s := Run(Initial(concurrency), steps);
    hide Run;
    AsManyOwners(Holders(s.workers), s.slots.busy);
    forall v, w | v in s.workers && w in s.workers && SlotOf(s.workers[v]).Some? && SlotOf(s.workers[v]) == SlotOf(s.workers[w])
      ensures v == w
    {
      assert Holders(s.workers)[v] == Holders(s.workers)[w];
    }
    forall w | w in s.workers && s.workers[w].Sleeping? && s.workers[w].channel == s.slots.channel
      ensures s.slots.concurrency != 0 && (s.slots.concurrency <= s.slots.active || s.workers[w].server in s.slots.busy)
    {
      assert SleepsForReason(s.slots, s.workers[w]);
    }
  }

  lemma {:induction false} AsManyOwners<R>(owners: map<nat, R>, held: set<R>)
    requires Exclusive(owners, held)
    ensures |owners| == |held|
    decreases |owners.Keys|
  {
    assert |owners| == |owners.Keys|;
    if |owners| == 0 {
      assert owners.Keys == {};
      assert held == {};
    } else {
      var w :| w in owners.Keys;
      OneOwnerLess(owners, held, w);
      var fewer := owners - {w};
      assert fewer.Keys == owners.Keys - {w};
      AsManyOwners(fewer, held - {owners[w]});
      assert |fewer| == |fewer.Keys|;
    }
  }

  /** A step that takes a slot leaves no more slots taken than are configured. */
  lemma NeverPastConcurrency(s: State, step: Step)
    requires Inv(s) && s.slots.active < Next(s, step).slots.active
    ensures Next(s, step).slots.active <= s.slots.concurrency == Next(s, step).slots.concurrency
  {
    hide Inv, C.Entered;
  }

  /** No two workers collect references for the same domain and type. */
  lemma OneCollectorPerKey(concurrency: nat, steps: seq<Step>, v: nat, w: nat)
    requires var s := Run(Initial(concurrency), steps);
      v in s.workers && w in s.workers && JobOf(s.workers[v]).Some? && JobOf(s.workers[w]).Some?
      && JobOf(s.workers[v]).value.0 == JobOf(s.workers[w]).value.0
    ensures v == w
  {
    InitialIsInv(concurrency);
    RunKeepsInv(Initial(concurrency), steps);
    var s := Run(Initial(concurrency), steps);
    hide Run;
    var p, q := Leaders(s.workers)[v], Leaders(s.workers)[w];
    C.OpenMeans(s.table.entries, p);
    C.OpenMeans(s.table.entries, q);
    assert p == (p.0, p.1) && q == (q.0, q.1);
  }

  /** Over every run, collections from the same sources keep the pause, unless it is lifted. */
  lemma CollectionsAreSpaced(concurrency: nat, steps: seq<Step>)
    ensures C.Spaced(Run(Initial(concurrency), steps).table.log)
  {
    InitialIsInv(concurrency);
    RunKeepsInv(Initial(concurrency), steps);
  }

  // ----- Nobody is stuck -----

  /** A worker that can do nothing until another moves. */
  predicate IsBlocked(s: State, place: Place) {
    match place
    case Sleeping(_, _, channel) => channel == s.slots.channel && !s.cancelled
    case Awaiting(view, done, channel) => !IsClosed(s, view.key, done) && channel == s.slots.channel && !s.cancelled
    case _ => false
  }

  /** A step of the worker itself. */
  function OwnStep(s: State, w: nat): Step
    requires w in s.workers
  {
    match s.workers[w]
    case Between => Finish(w)
    case Acquiring(_, _) => TryAcquire(w)
    case Sleeping(_, _, _) => WakeUp(w)
    case Holding(_, _) => Release(w)
    case Saved(_, _, _) => Release(w)
    case Consulting(_) => EnterCollection(w, "", 0)
    case Subscribed(view, _, _) => if view in s.usable then FoundUsable(w) else NothingUsable(w)
    case Awaiting(_, _, _) => Resume(w)
    case Collecting(_) => EndCollection(w, 0, None)
  }

  lemma UnblockedMoves(s: State, w: nat)
    requires Inv(s) && w in s.workers && !IsBlocked(s, s.workers[w])
    ensures PlaceOf(Next(s, OwnStep(s, w)), w) != PlaceOf(s, w)
  {
    hide Exclusive, C.Inv, C.Open, C.Closed;
    match s.workers[w]
    case Between =>
    case Acquiring(_, _) =>
    case Sleeping(_, _, _) => assert ChannelFits(s.slots, s.workers[w]);
    case Holding(_, _) =>
    case Saved(_, _, _) =>
    case Consulting(_) =>
    case Subscribed(_, _, _) =>
    case Awaiting(_, _, _) => assert ChannelFits(s.slots, s.workers[w]);
    case Collecting(job) => LeaderIsOpen(s, w, job);
  }

  lemma SomebodyLeads(s: State, key: C.Key, done: nat) returns (v: nat)
    requires JobsFit(s) && !IsClosed(s, key, done)
    ensures v in s.workers && JobOf(s.workers[v]) == Some((key, done))
  {
    C.OpenMeans(s.table.entries, (key, done));
    v :| v in Leaders(s.workers) && Leaders(s.workers)[v] == (key, done);
  }

  /** With no probe under way the slots are all free, so whoever sleeps has been woken. */
  lemma NobodySleeps(s: State, w: nat)
    requires Inv(s) && w in s.workers && s.workers[w].Sleeping?
    requires forall v :: v in s.workers ==> SlotOf(s.workers[v]).None?
    ensures s.workers[w].channel != s.slots.channel
  {
    assert SleepsForReason(s.slots, s.workers[w]);
    assert Holders(s.workers) == map[];
    assert s.slots.busy == {};
  }

  /** No reachable state is stuck: unless some worker is inside a probe, some worker can move. */
  lemma NoDeadlock(s: State)
    requires Inv(s) && |s.workers| > 0
    requires forall w :: w in s.workers ==> !s.workers[w].Holding?
    ensures exists w :: w in s.workers && PlaceOf(Next(s, OwnStep(s, w)), w) != PlaceOf(s, w)
  {
    assert |s.workers| == |s.workers.Keys|;
    var w :| w in s.workers.Keys;
    if u :| u in s.workers && s.workers[u].Saved? {
      UnblockedMoves(s, u);
    } else if IsBlocked(s, s.workers[w]) {
      var v := UnblocksWaiter(s, w);
      UnblockedMoves(s, v);
    } else {
      UnblockedMoves(s, w);
    }
  }

  lemma UnblocksWaiter(s: State, w: nat) returns (v: nat)
    requires Inv(s) && w in s.workers && IsBlocked(s, s.workers[w])
    requires forall u :: u in s.workers ==> SlotOf(s.workers[u]).None?
    ensures v in s.workers && !IsBlocked(s, s.workers[v])
  {
    forall u | u in s.workers && s.workers[u].Sleeping? ensures s.workers[u].channel != s.slots.channel {
      NobodySleeps(s, u);
    }
    v := SomebodyLeads(s, s.workers[w].view.key, s.workers[w].done);
  }
}
