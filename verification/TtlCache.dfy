/** The in-memory cache with a uniform time to live. */
module TtlCache {
  import opened Wrappers

  datatype Entry<V> = Entry(val: V, expiresAt: int)

  /** What a lookup at clock reading now returns. */
  function Peek<K, V>(items: map<K, Entry<V>>, k: K, now: int): Option<V> {
    if k !in items || now > items[k].expiresAt then None else Some(items[k].val)
  }

  function Swept<K, V>(items: map<K, Entry<V>>, now: int): map<K, Entry<V>> {
    map k | k in items && !(now > items[k].expiresAt) :: items[k]
  }

  /** A sweep is invisible to every later lookup. */
  lemma SweepInvisible<K, V>(items: map<K, Entry<V>>, k: K, swept: int, now: int)
    requires swept <= now
    ensures Peek(Swept(items, swept), k, now) == Peek(items, k, now)
  {
  }

  class TTL<K(==), V> {
    var items: map<K, Entry<V>>
    const ttl: int

    constructor (ttl: int)
      ensures this.ttl == ttl && items == map[]
    {
      this.ttl := ttl;
      items := map[];
    }

    method Get(k: K, now: int) returns (v: Option<V>)
      ensures v == Peek(items, k, now)
      ensures v.Some? <==> k in items && now <= items[k].expiresAt
      ensures v.Some? ==> v.value == items[k].val
    {
      if k !in items || now > items[k].expiresAt {
        return None;
      }
      return Some(items[k].val);
    }

    method Set(k: K, v: V, now: int)
      modifies this
      ensures items == old(items)[k := Entry(v, now + ttl)]
    {
      items := items[k := Entry(v, now + ttl)];
    }

    method Delete(k: K)
      modifies this
      ensures items == old(items) - {k}
    {
      items := items - {k};
    }

    method Purge()
      modifies this
      ensures items == map[]
    {
      items := map[];
    }

    /** One pass of the janitor. */
    method Sweep(now: int)
      modifies this
      ensures items == Swept(old(items), now)
      ensures items == map k | k in old(items) && now <= old(items)[k].expiresAt :: old(items)[k]
    {
      var todo := items.Keys;
      while todo != {}
        invariant todo <= items.Keys <= old(items).Keys
        invariant forall k | k in items :: items[k] == old(items)[k]
        invariant forall k | k in old(items) && k !in todo :: k in items <==> !(now > old(items)[k].expiresAt)
        decreases todo
      {
        var k :| k in todo;
        todo := todo - {k};
        if now > items[k].expiresAt {
          items := items - {k};
        }
      }
    }
  }
}
