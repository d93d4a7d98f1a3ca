/**
 The slots that bound how many probes run at once and keep two probes off one server. Each method of `Gate` is
 one critical section; waiters are woken by closing the current channel and opening the next.
 */
module SlotGate {
  /** Channels are numbered; those below `channel` are closed, `channel` is the one waiters park on. */
  datatype Slots = Slots(active: int, busy: set<nat>, concurrency: nat, channel: nat)

  datatype Attempt = Paused | Admitted | Parked(channel: nat)

  predicate Admits(s: Slots, server: nat) {
    s.active < s.concurrency && server !in s.busy
  }

  function Attempted(s: Slots, server: nat): (Slots, Attempt) {
    if s.concurrency == 0 then (s, Paused)
    else if Admits(s, server) then (s.(active := s.active + 1, busy := s.busy + {server}), Admitted)
    else (s, Parked(s.channel))
  }

  function Released(s: Slots, server: nat): Slots {
    Slots(s.active - 1, s.busy - {server}, s.concurrency, s.channel + 1)
  }

  function Configured(s: Slots, concurrency: nat): Slots {
    s.(concurrency := concurrency, channel := s.channel + 1)
  }

  class Gate {
    var active: int
    var busy: set<nat>
    var concurrency: nat
    var channel: nat

    ghost function Value(): Slots
      reads this
    {
      Slots(active, busy, concurrency, channel)
    }

    /** The active count is the number of busy servers. */
    ghost predicate Valid()
      reads this
    {
      active == |busy|
    }

    /** Channels handed out earlier are closed once they are below the current one. */
    predicate IsClosed(c: nat)
      reads this
    {
      c < channel
    }

    constructor (n: nat)
      ensures Valid() && Value() == Slots(0, {}, n, 0)
    {
      active, busy, concurrency, channel := 0, {}, n, 0;
    }

    /** One turn of the loop around the lock. */
    method TryAcquire(server: nat) returns (attempt: Attempt)
      requires Valid()
      modifies this`active, this`busy
      ensures Valid() && (attempt == Admitted ==> active <= concurrency)
      ensures (Value(), attempt) == Attempted(old(Value()), server)
    {
      if concurrency == 0 { return Paused; }
      if active < concurrency && server !in busy {
        active := active + 1;
        busy := busy + {server};
        return Admitted;
      }
      return Parked(channel);
    }

    /** Wakes everyone: whatever channel a waiter parked on is closed now, and only those are. */
    method Signal()
      modifies this`channel
      ensures forall c: nat :: IsClosed(c) <==> c <= old(channel)
    {
      channel := channel + 1;
    }

    method Release(server: nat)
      requires Valid() && server in busy
      modifies this`active, this`busy, this`channel
      ensures Valid() && IsClosed(old(channel))
      ensures Value() == Released(old(Value()), server)
    {
      active := active - 1;
      busy := busy - {server};
      ghost var was := channel;
      Signal();
      assert IsClosed(was) && !IsClosed(was + 1);
    }

    method Configure(n: nat)
      requires Valid()
      modifies this`concurrency, this`channel
      ensures Valid() && IsClosed(old(channel))
      ensures Value() == Configured(old(Value()), n)
    {
      concurrency := n;
      ghost var was := channel;
      Signal();
      assert IsClosed(was) && !IsClosed(was + 1);
    }
  }

  // ----- Who gets a slot -----

  /** Nobody gets one while paused. Otherwise a server gets one exactly when one is free and it holds none, and whoever does
      not parks on the current channel. */
  lemma AttemptMeaning(s: Slots, server: nat)
    ensures var (t, attempt) := Attempted(s, server);
      && (attempt == Paused <==> s.concurrency == 0)
      && (attempt == Admitted <==> 0 < s.concurrency && s.active < s.concurrency && server !in s.busy)
      && (attempt != Paused && attempt != Admitted ==> attempt == Parked(s.channel))
      && t == if attempt == Admitted then Slots(s.active + 1, s.busy + {server}, s.concurrency, s.channel) else s
  {
  }

  /** Giving a slot back undoes taking it, except that a new channel replaces the one the waiters parked on; and whoever
      gives one back can take one again. */
  lemma SlotComesBack(s: Slots, server: nat)
    requires Attempted(s, server).1 == Admitted
    ensures Released(Attempted(s, server).0, server) == s.(channel := s.channel + 1)
    ensures Attempted(Released(Attempted(s, server).0, server), server).1 == Admitted
  {
    assert s.busy + {server} - {server} == s.busy;
  }
}
