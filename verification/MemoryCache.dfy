/** The in-memory cache (cache/driver/memory/memory.go:74-233). The clock is given in
    nanoseconds; values are strings of bytes. */
module MemoryCache {
  import opened Options
  import opened Sequences

  datatype Config = Config(keyPrefix: string, maxSize: int, maxKeys: int, defaultTTL: int)

  // An expiration of 0 is none.
  datatype Item = Item(value: string, expiration: int, size: int)

  datatype State = State(items: map<string, Item>, currentSize: int)

  const EMPTY: State := State(map[], 0)

  predicate Expired(item: Item, now: int) {
    item.expiration > 0 && now > item.expiration
  }

  // ---- the operations on values ----

  function Live(c: Config, s: State, key: string, now: int): Option<string> {
    var k := c.keyPrefix + key;
    if k !in s.items || Expired(s.items[k], now) then None else Some(s.items[k].value)
  }

  function NewItem(c: Config, value: string, ttl: int, now: int): Item {
    var t := if ttl == 0 then c.defaultTTL else ttl;
    Item(value, if t > 0 then now + t else 0, |value|)
  }

  predicate TooManyKeys(c: Config, s: State, k: string) {
    c.maxKeys > 0 && |s.items| >= c.maxKeys && k !in s.items
  }

  // The size counter as Set leaves it before the new item is counted.
  function Discounted(c: Config, s: State, k: string): int {
    if c.maxSize > 0 && k in s.items then s.currentSize - s.items[k].size else s.currentSize
  }

  predicate Fits(c: Config, s: State, k: string, value: string) {
    c.maxSize <= 0 || Discounted(c, s, k) + |value| <= c.maxSize
  }

  // The new state, and whether the value was accepted.
  function SetStep(c: Config, s: State, key: string, value: string, ttl: int, now: int): (State, bool) {
    var k := c.keyPrefix + key;
    if TooManyKeys(c, s, k) then (s, false)
    else if !Fits(c, s, k, value) then (s.(currentSize := Discounted(c, s, k)), false)
    else (State(s.items[k := NewItem(c, value, ttl, now)], Discounted(c, s, k) + |value|), true)
  }

  function DeleteStep(c: Config, s: State, key: string): State {
    var k := c.keyPrefix + key;
    if k in s.items then State(s.items - {k}, s.currentSize - s.items[k].size) else s
  }

  function ClearStep(c: Config, s: State): State {
    State(map k | k in s.items && !HasPrefix(k, c.keyPrefix) :: s.items[k], 0)
  }

  // ---- sizes ----

  ghost function Sum(m: map<string, Item>): int
    decreases |m|
  {
    if m == map[] then 0
    else
      var k :| k in m;
      m[k].size + Sum(m - {k})
  }

  lemma {:induction false} SumWithout(m: map<string, Item>, k: string)
    requires k in m
    ensures Sum(m) == m[k].size + Sum(m - {k})
    decreases |m|
  {
    var x :| x in m && Sum(m) == m[x].size + Sum(m - {x});
    if x != k {
      SumWithout(m - {x}, k);
      SumWithout(m - {k}, x);
      assert m - {x} - {k} == m - {k} - {x};
    }
  }

  lemma {:induction false} SumWith(m: map<string, Item>, k: string, item: Item)
    ensures Sum(m[k := item]) == Sum(m - {k}) + item.size
  {
    SumWithout(m[k := item], k);
    assert m[k := item] - {k} == m - {k};
  }

  function Unexpired(m: map<string, Item>, now: int): map<string, Item> {
    map k | k in m && !Expired(m[k], now) :: m[k]
  }

  // removeExpired
  ghost function SweepStep(s: State, now: int): State {
    var kept := Unexpired(s.items, now);
    State(kept, s.currentSize - (Sum(s.items) - Sum(kept)))
  }

  class Cache {
    var items: map<string, Item>
    var currentSize: int
    const config: Config

    ghost function Value(): State
      reads this
    {
      State(items, currentSize)
    }

    constructor (config: Config)
      ensures this.config == config && Value() == EMPTY
    {
      this.config := config;
      items, currentSize := map[], 0;
    }

    method Get(key: string, now: int) returns (r: Option<string>)
      ensures r == Live(config, Value(), key, now)
    {
      var fullKey := config.keyPrefix + key;
      if fullKey !in items {
        return None;
      }
      var item := items[fullKey];
      if item.expiration > 0 && now > item.expiration {
        return None;
      }
      return Some(item.value);
    }

    method Exists(key: string, now: int) returns (r: bool)
      ensures r == Live(config, Value(), key, now).Some?
    {
      var fullKey := config.keyPrefix + key;
      if fullKey !in items {
        return false;
      }
      var item := items[fullKey];
      return !(item.expiration > 0 && now > item.expiration);
    }

    method Set(key: string, value: string, ttl: int, now: int) returns (ok: bool)
      modifies this
      ensures (Value(), ok) == SetStep(config, old(Value()), key, value, ttl, now)
    {
      var fullKey := config.keyPrefix + key;
      var size := |value|;
      if config.maxKeys > 0 && |items| >= config.maxKeys {
        if fullKey !in items {
          return false;
        }
      }
      if config.maxSize > 0 {
        if fullKey in items {
          currentSize := currentSize - items[fullKey].size;
        }
        if currentSize + size > config.maxSize {
          return false;
        }
      }
      var t := ttl;
      if t == 0 {
        t := config.defaultTTL;
      }
      var expiration := 0;
      if t > 0 {
        expiration := now + t;
      }
      items := items[fullKey := Item(value, expiration, size)];
      currentSize := currentSize + size;
      return true;
    }

    method Delete(key: string)
      modifies this
      ensures Value() == DeleteStep(config, old(Value()), key)
    {
      var fullKey := config.keyPrefix + key;
      if fullKey in items {
        currentSize := currentSize - items[fullKey].size;
        items := items - {fullKey};
      }
    }

    method Clear()
      modifies this
      ensures Value() == ClearStep(config, old(Value()))
    {
      if config.keyPrefix != "" {
        var pending := items.Keys;
        while pending != {}
          invariant pending <= items.Keys
          invariant forall k :: k in items <==> k in old(items) && (k in pending || !HasPrefix(k, config.keyPrefix))
          invariant forall k :: k in items ==> items[k] == old(items)[k]
          decreases |pending|
        {
          var key :| key in pending;
          pending := pending - {key};
          if |key| >= |config.keyPrefix| && key[..|config.keyPrefix|] == config.keyPrefix {
            items := items - {key};
          }
        }
      } else {
        items := map[];
      }
      currentSize := 0;
    }

    method RemoveExpired(now: int)
      modifies this
      ensures Value() == SweepStep(old(Value()), now)
    {
      var pending := items.Keys;
      while pending != {}
        invariant pending <= items.Keys
        invariant forall k :: k in items <==> k in old(items) && (k in pending || !Expired(old(items)[k], now))
        invariant forall k :: k in items ==> items[k] == old(items)[k]
        invariant currentSize == old(currentSize) - (Sum(old(items)) - Sum(items))
        decreases |pending|
      {
        var key :| key in pending;
        pending := pending - {key};
        var item := items[key];
        if item.expiration > 0 && now > item.expiration {
          SumWithout(items, key);
          currentSize := currentSize - item.size;
          items := items - {key};
        }
      }
      assert items == Unexpired(old(items), now);
    }
  }
}
