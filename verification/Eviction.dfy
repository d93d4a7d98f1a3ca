/**
 What both limits of the pool evict: the least recently observed rows, and only when the limit is reached.
 */
module Eviction {
  import opened Ranking
  import opened TrustedPool

  lemma {:induction false} KeyOrder(a: Key, b: Key)
    ensures !(KeyLess(a, b) && KeyLess(b, a))
    ensures a == b || KeyLess(a, b) || KeyLess(b, a)
    ensures !KeyLess(a, a)
  {
    TextTotal(a.domain, b.domain);
    TextTotal(a.value, b.value);
    TextTotal(a.domain, a.domain);
    TextTotal(a.value, a.value);
  }

  lemma KeyTransitive(a: Key, b: Key, c: Key)
    requires KeyLess(a, b) && KeyLess(b, c)
    ensures KeyLess(a, c)
  {
    hide TextLess;
    if a.server == b.server == c.server {
      if TextLess(a.domain, b.domain) && TextLess(b.domain, c.domain) {
        TextTransitive(a.domain, b.domain, c.domain);
      }
      if TextLess(a.value, b.value) && TextLess(b.value, c.value) {
        TextTransitive(a.value, b.value, c.value);
      }
    }
  }

  lemma PrecedesIsOrder(pool: map<Key, Entry>, keys: set<Key>)
    requires keys <= pool.Keys
    ensures StrictTotalOrder(keys, (a: Key, b: Key) => Precedes(pool, a, b))
  {
    hide KeyLess;
    forall a, b | a in keys && b in keys
      ensures !Precedes(pool, a, a) && (a != b ==> Precedes(pool, a, b) || Precedes(pool, b, a))
    {
      KeyOrder(a, b);
    }
    forall a, b, c | a in keys && b in keys && c in keys && Precedes(pool, a, b) && Precedes(pool, b, c)
      ensures Precedes(pool, a, c)
    {
      if KeyLess(a, b) && KeyLess(b, c) { KeyTransitive(a, b, c); }
    }
  }

  /** Trimming keeps at most the limit, drops only when the limit is reached, and drops the least
      recently observed. */
  lemma TrimmingEvictsOldest(pool: map<Key, Entry>, keys: set<Key>, limit: nat)
    requires keys <= pool.Keys
    ensures var out := TrimmedTo(pool, keys, limit);
            && out.Keys <= pool.Keys && (forall k :: k in out ==> out[k] == pool[k])
            && |out.Keys * keys| <= limit
            && (forall k :: k in pool && k !in keys ==> k in out)
            && (forall gone :: gone in pool && gone !in out ==>
                  |out.Keys * keys| == limit
                  && forall kept :: kept in out && kept in keys ==> Precedes(pool, kept, gone))
  {
    hide FirstRows, Precedes;
    var less := (a: Key, b: Key) => Precedes(pool, a, b);
    PrecedesIsOrder(pool, keys);
    FirstRowsAreFirst(keys, less, limit);
    var out := TrimmedTo(pool, keys, limit);
    assert out.Keys * keys == FirstRows(keys, less, limit);
  }
}
