/** Redis string keys with a time to live, on one clock. */
module KeyValue {
  import opened Bank

  /** A value and the time its key expires. */
  datatype Slot = Slot(value: string, deadline: int)

  type Kv = map<string, Slot>

  function Live(kv: Kv, key: string, now: int): Option<string> {
    if key in kv && now < kv[key].deadline then Some(kv[key].value) else None
  }

  /** SET with an expiration replaces both the value and the time to live. */
  function Put(kv: Kv, key: string, value: string, now: int, ttl: int): Kv {
    kv[key := Slot(value, now + ttl)]
  }

  function Remove(kv: Kv, key: string): Kv {
    kv - {key}
  }

  class Store {
    var kv: Kv

    constructor ()
      ensures kv == map[]
    {
      kv := map[];
    }

    method Set(key: string, value: string, now: int, ttl: int)
      modifies this
      ensures kv == Put(old(kv), key, value, now, ttl)
    {
      kv := kv[key := Slot(value, now + ttl)];
    }

    method Get(key: string, now: int) returns (value: Option<string>)
      ensures value == Live(kv, key, now)
    {
      if key !in kv { return None; }
      if kv[key].deadline <= now { return None; }
      return Some(kv[key].value);
    }

    method Exists(key: string, now: int) returns (n: int)
      ensures n == if Live(kv, key, now).Some? then 1 else 0
    {
      n := if key in kv && now < kv[key].deadline then 1 else 0;
    }

    method Del(key: string)
      modifies this
      ensures kv == Remove(old(kv), key)
    {
      kv := map k | k in kv && k != key :: kv[k];
    }
  }
}
