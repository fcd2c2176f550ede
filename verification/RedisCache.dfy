/** The key-value store with expiry times, on a clock of whole seconds. */
module RedisCache {
  import opened Wrappers
  import opened Text

  datatype Entry = Entry(text: string, expiresAt: Option<int>)

  datatype Cache = Cache(entries: map<string, Entry>, now: nat)

  predicate Live(c: Cache, key: string) {
    key in c.entries && (c.entries[key].expiresAt.Some? ==> c.now < c.entries[key].expiresAt.value)
  }

  function Found(c: Cache, key: string): Option<string> {
    if Live(c, key) then Some(c.entries[key].text) else None
  }

  /** A time to live that is not positive sets no expiry. */
  function Stored(c: Cache, key: string, text: string, ttl: int): Cache {
    c.(entries := c.entries[key := Entry(text, if ttl > 0 then Some(c.now + ttl) else None)])
  }

  /** The number a key holds, 0 where it holds none. */
  function Number(c: Cache, key: string): nat {
    if Live(c, key) then Value(c.entries[key].text) else 0
  }

  /** Counting up keeps the expiry of a live key and sets none on a new one. */
  function Incremented(c: Cache, key: string): Cache {
    c.(entries := c.entries[key := Entry(Decimal(Number(c, key) + 1),
                                         if Live(c, key) then c.entries[key].expiresAt else None)])
  }

  /** An expiry that is not in the future removes the key. */
  function Expiring(c: Cache, key: string, ttl: int): Cache {
    if !Live(c, key) then c
    else if ttl <= 0 then c.(entries := c.entries - {key})
    else c.(entries := c.entries[key := c.entries[key].(expiresAt := Some(c.now + ttl))])
  }

  /** The client. While the server cannot be reached every call is an error and changes nothing. */
  class Redis {
    var entries: map<string, Entry>
    var now: nat
    var available: bool

    ghost function View(): Cache
      reads this
    {
      Cache(entries, now)
    }

    constructor (now: nat)
      ensures View() == Cache(map[], now) && available
    {
      entries := map[];
      this.now := now;
      available := true;
    }

    /** None for a missing key and for an error alike: no caller tells them apart. */
    method Get(key: string) returns (text: Option<string>)
      ensures text == if available then Found(View(), key) else None
    {
      if !available || key !in entries || (entries[key].expiresAt.Some? && now >= entries[key].expiresAt.value) {
        return None;
      }
      return Some(entries[key].text);
    }

    method Set(key: string, text: string, ttl: int)
      modifies this`entries
      ensures View() == if available then Stored(old(View()), key, text, ttl) else old(View())
    {
      if available {
        var expiresAt := if ttl > 0 then Some(now + ttl) else None;
        entries := entries[key := Entry(text, expiresAt)];
      }
    }

    /** None for an error. */
    method Incr(key: string) returns (count: Option<nat>)
      modifies this`entries
      ensures View() == if available then Incremented(old(View()), key) else old(View())
      ensures count == if available then Some(Number(old(View()), key) + 1) else None
    {
      if !available {
        return None;
      }
      var text := Get(key);
      if text.Some? {
        count := Some(Value(text.value) + 1);
        entries := entries[key := entries[key].(text := Decimal(count.value))];
      } else {
        count := Some(1);
        entries := entries[key := Entry(Decimal(1), None)];
      }
    }

    method Expire(key: string, ttl: int)
      modifies this`entries
      ensures View() == if available then Expiring(old(View()), key, ttl) else old(View())
    {
      var text := Get(key);
      if text.Some? {
        if ttl <= 0 {
          entries := entries - {key};
        } else {
          entries := entries[key := entries[key].(expiresAt := Some(now + ttl))];
        }
      }
    }
  }
}
