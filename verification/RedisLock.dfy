module RedisLock {
  /** Locks in one Redis: keys with a token and a time to live, and the scripts that compare before they act. */

  import opened Wrappers

  datatype Entry = Entry(token: string, expiresAt: nat)

  type Keys = map<string, Entry>

  predicate Alive(keys: Keys, key: string, now: nat) {
    key in keys && now < keys[key].expiresAt
  }

  predicate HeldBy(keys: Keys, key: string, token: string, now: nat) {
    Alive(keys, key, now) && keys[key].token == token
  }

  class Redis {
    var now: nat
    var keys: Keys

    /** SET key token PX ttl NX. */
    method SetIfAbsent(key: string, token: string, ttlMs: nat) returns (ok: bool)
      modifies this`keys
      ensures ok <==> !Alive(old(keys), key, now)
      ensures keys == if ok then old(keys)[key := Entry(token, now + ttlMs)] else old(keys)
    {
      ok := !Alive(keys, key, now);
      if ok { keys := keys[key := Entry(token, now + ttlMs)]; }
    }

    /** Deletes the key if it is still this token's. */
    method ReleaseScript(key: string, token: string) returns (released: bool)
      modifies this`keys
      ensures released <==> HeldBy(old(keys), key, token, now)
      ensures keys == if released then old(keys) - {key} else old(keys)
    {
      released := Alive(keys, key, now) && keys[key].token == token;
      if released { keys := keys - {key}; }
    }

    method ExtendScript(key: string, token: string, ttlMs: nat) returns (extended: bool)
      modifies this`keys
      ensures extended <==> HeldBy(old(keys), key, token, now)
      ensures keys == if extended then old(keys)[key := Entry(token, now + ttlMs)] else old(keys)
    {
      extended := Alive(keys, key, now) && keys[key].token == token;
      if extended { keys := keys[key := Entry(token, now + ttlMs)]; }
    }

    /** Time passes, a millisecond at least and up to so many late, and other clients do whatever they do. */
    method Sleep(ms: nat, late: nat)
      modifies this
      ensures old(now) + ms <= now && old(now) < now <= old(now) + (if ms > 0 then ms else 1) + late
    {
      var shortest := now + if ms > 0 then ms else 1;
      var later :| shortest <= later <= shortest + late;
      now := later;
      keys := *;
    }
  }

  datatype LockOptions = LockOptions(ttlMs: nat, waitMs: nat, retryDelayMs: nat)

  class RedisLocks {
    const client: Redis
    const namespace: string

    constructor (client: Redis, namespace: string)
      ensures this.client == client && this.namespace == namespace
    {
      this.client, this.namespace := client, namespace;
    }

    function Key(name: string): string { namespace + ":" + name }

    /**
     Takes the key when it is free, or gives up: only at the deadline or later, and no
     later than one timer is late, with the key found another's on the last attempt.
     */
    method Acquire(name: string, options: LockOptions, token: string, late: nat) returns (acquired: bool)
      modifies client
      ensures old(client.now) <= client.now <= old(client.now) + options.waitMs + late
      ensures acquired ==> client.keys[Key(name) := Entry(token, client.now + options.ttlMs)] == client.keys
      ensures !acquired ==> client.now >= old(client.now) + options.waitMs && Alive(client.keys, Key(name), client.now)
      ensures options.waitMs == 0 ==>
                && client.now == old(client.now) && (acquired <==> !Alive(old(client.keys), Key(name), client.now))
                && client.keys == if acquired then old(client.keys)[Key(name) := Entry(token, client.now + options.ttlMs)] else old(client.keys)
    {
      var key := Key(name);
      var deadline := client.now + options.waitMs;
      while true
        invariant options.waitMs == 0 ==> client.now == old(client.now) && client.keys == old(client.keys)
        invariant options.waitMs > 0 || client.now == old(client.now)
        invariant old(client.now) <= client.now <= deadline + late
        decreases deadline - client.now
      {
        acquired := client.SetIfAbsent(key, token, options.ttlMs);
        if acquired { return; }
        if client.now >= deadline { return; }
        var left := deadline - client.now;
        client.Sleep(if options.retryDelayMs < left then options.retryDelayMs else left, late);
      }
    }
  }
}
