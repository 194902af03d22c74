/** The dictionary whose keys are meant to time out (`DefaultDictWithTimeout`); the push trigger keeps its counters and
    conditions in two of them. The clock is a parameter of every operation. */
module TimeoutDict {
  import opened PyText

  datatype Settings<V> = Settings(ttl: Option<int>, interval: int, touchOnGet: bool, default: Option<V>)

  datatype Store<K, V> = Store(items: map<K, V>, times: map<K, int>, lastRefresh: int)

  /** A store made at a time is given a last refresh one interval earlier. */
  function Made<K, V>(cfg: Settings<V>, now: int): Store<K, V> { Store(map[], map[], now - cfg.interval) }

  function Expired<K, V>(s: Store<K, V>, ttl: int, now: int): set<K> { set k | k in s.times && now - s.times[k] > ttl }

  /** A sweep is due, by the guard as written: the last refresh is no more than an interval ago. */
  predicate Due<K, V>(cfg: Settings<V>, s: Store<K, V>, now: int) {
    cfg.ttl.Some? && now - s.lastRefresh <= cfg.interval
  }

  /** A sweep meets an expired key that is not stored: deleting it raises KeyError. */
  ghost predicate SweepFails<K, V>(cfg: Settings<V>, s: Store<K, V>, now: int) {
    Due(cfg, s, now) && !(Expired(s, cfg.ttl.value, now) <= s.items.Keys)
  }

  /** What a sweep leaves that got through the keys `done` and failed at `key`, of which the time is already gone. */
  function Stopped<K, V>(s: Store<K, V>, done: set<K>, key: K): Store<K, V> {
    Store(s.items - done, s.times - done - {key}, s.lastRefresh)
  }

  ghost predicate HalfSwept<K(!new), V>(s: Store<K, V>, gone: set<K>, left: Store<K, V>) {
    exists done, key :: left == Stopped(s, done, key) && done <= gone && done <= s.items.Keys && key in gone && key !in s.items
  }

  /** `__refresh`: expired keys are deleted if a sweep is due. */
  function Refreshed<K, V>(cfg: Settings<V>, s: Store<K, V>, now: int): Store<K, V> {
    if !Due(cfg, s, now) then s
    else
      var gone := Expired(s, cfg.ttl.value, now);
      Store(s.items - gone, s.times - gone, now)
  }

  datatype Op<K, V> = Get(key: K, now: int) | Put(key: K, value: V, now: int) | SetDefault(key: K, value: V, now: int)

  function Touched<K, V>(cfg: Settings<V>, s: Store<K, V>, key: K, now: int): Store<K, V> {
    if cfg.touchOnGet then s.(times := s.times[key := now]) else s
  }

  /** What an operation leaves, unless it reads and its sweep fails. */
  function After<K, V>(cfg: Settings<V>, s: Store<K, V>, op: Op<K, V>): Store<K, V> {
    match op
    case Get(k, now) =>
      var swept := Refreshed(cfg, Touched(cfg, s, k, now), now);
      if k in swept.items || cfg.default.None? then swept
      else swept.(items := swept.items[k := cfg.default.value], times := swept.times[k := now])
    case Put(k, v, now) => s.(items := s.items[k := v], times := s.times[k := now])
    case SetDefault(k, v, now) => if k in s.items then s else s.(items := s.items[k := v])
  }

  /** The class, with the store in its fields. */
  class TimedDict<K(==, !new), V> {
    const cfg: Settings<V>
    var items: map<K, V>
    var times: map<K, int>
    var lastRefresh: int

    ghost function View(): Store<K, V>
      reads this
    {
      Store(items, times, lastRefresh)
    }

    constructor (cfg: Settings<V>, now: int)
      ensures this.cfg == cfg && View() == Made(cfg, now)
    {
      this.cfg := cfg;
      items, times, lastRefresh := map[], map[], now - cfg.interval;
    }

    /** `__refresh`; it fails where KeyError is raised. */
    method Refresh(now: int) returns (failed: bool)
      modifies this
      ensures failed <==> SweepFails(cfg, old(View()), now)
      ensures if failed then HalfSwept(old(View()), Expired(old(View()), cfg.ttl.value, now), View())
              else View() == Refreshed(cfg, old(View()), now)
    {
      if cfg.ttl.None? {
        return false;
      }
      if now - lastRefresh > cfg.interval {
        return false;
      }
      var toDelete := set k | k in times && now - times[k] > cfg.ttl.value;
      ghost var before := View();
      var left := toDelete;
      while left != {}
        invariant left <= toDelete && toDelete - left <= before.items.Keys
        invariant items == before.items - (toDelete - left) && times == before.times - (toDelete - left)
        invariant lastRefresh == before.lastRefresh
        decreases left
      {
        var k :| k in left;
        times := times - {k};
        if k !in items {
          assert View() == Stopped(before, toDelete - left, k);
          return true;
        }
        items := items - {k};
        left := left - {k};
      }
      lastRefresh := now;
      return false;
    }

    /** `self[key]`; nothing where KeyError is raised, by the sweep or for want of the key. */
    method GetItem(key: K, now: int) returns (value: Option<V>)
      modifies this
      ensures var touched := Touched(cfg, old(View()), key, now);
              if SweepFails(cfg, touched, now) then value == None && HalfSwept(touched, Expired(touched, cfg.ttl.value, now), View())
              else
                && View() == After(cfg, old(View()), Get(key, now))
                && value == if key in items then Some(items[key]) else None
      ensures !Due(cfg, old(View()), now) ==>
                && lastRefresh == old(lastRefresh)
                && items == (if key in old(items) || cfg.default.None? then old(items) else old(items)[key := cfg.default.value])
                && value == if key in items then Some(items[key]) else None
    {
      if cfg.touchOnGet {
        times := times[key := now];
      }
      var failed := Refresh(now);
      if failed {
        value := None;
      } else if key in items {
        value := Some(items[key]);
      } else if cfg.default.Some? {
        SetItem(key, cfg.default.value, now);
        value := cfg.default;
      } else {
        value := None;
      }
    }

    method SetItem(key: K, value: V, now: int)
      modifies this
      ensures View() == After(cfg, old(View()), Put(key, value, now))
    {
      times := times[key := now];
      items := items[key := value];
    }

    /** `setdefault` does not go through the class: no time is kept. */
    method SetDefaultItem(key: K, value: V, now: int) returns (current: V)
      modifies this
      ensures View() == After(cfg, old(View()), SetDefault(key, value, now))
      ensures key in items && current == items[key]
    {
      if key !in items {
        items := items[key := value];
      }
      current := items[key];
    }
  }

  function RunOps<K, V>(cfg: Settings<V>, s: Store<K, V>, ops: seq<Op<K, V>>): Store<K, V> {
    if ops == [] then s else After(cfg, RunOps(cfg, s, ops[..|ops| - 1]), ops[|ops| - 1])
  }

  /** An operation that sweeps. */
  predicate Sweeps<K, V>(cfg: Settings<V>, s: Store<K, V>, op: Op<K, V>) {
    op.Get? && Due(cfg, s, op.now)
  }

  ghost predicate SweptBy<K, V>(cfg: Settings<V>, made: int, ops: seq<Op<K, V>>, i: int) {
    0 <= i < |ops| && Sweeps(cfg, RunOps(cfg, Made(cfg, made), ops[..i]), ops[i])
  }

  lemma {:induction false} SweptEarlier<K, V>(cfg: Settings<V>, made: int, ops: seq<Op<K, V>>, n: nat, i: int)
    requires n <= |ops|
    ensures SweptBy(cfg, made, ops[..n], i) <==> SweptBy(cfg, made, ops, i) && i < n
  {
    if 0 <= i < n {
      assert ops[..n][..i] == ops[..i];
    }
  }

  /** Until the first sweep the last refresh stays where it was set. */
  lemma {:induction false} BeforeSweep<K, V>(cfg: Settings<V>, made: int, ops: seq<Op<K, V>>)
    requires forall i :: !SweptBy(cfg, made, ops, i)
    ensures RunOps(cfg, Made(cfg, made), ops).lastRefresh == made - cfg.interval
  {
    if ops != [] {
      var n := |ops| - 1;
      forall i ensures !SweptBy(cfg, made, ops[..n], i) {
        SweptEarlier(cfg, made, ops, n, i);
      }
      BeforeSweep(cfg, made, ops[..n]);
      assert !SweptBy(cfg, made, ops, n);
    }
  }

  /** A run sweeps at all exactly if keys time out and something is read no later than the store was made: with a clock
      that never goes back, in that very instant. */
  lemma {:induction false} SweptExactly<K, V>(cfg: Settings<V>, made: int, ops: seq<Op<K, V>>)
    ensures (exists i :: SweptBy(cfg, made, ops, i)) <==>
            cfg.ttl.Some? && exists i :: 0 <= i < |ops| && ops[i].Get? && ops[i].now <= made
  {
    if ops != [] {
      var n := |ops| - 1;
      var init := ops[..n];
      SweptExactly(cfg, made, init);
      forall i ensures SweptBy(cfg, made, init, i) <==> SweptBy(cfg, made, ops, i) && i < n {
        SweptEarlier(cfg, made, ops, n, i);
      }
      if forall i :: !SweptBy(cfg, made, init, i) {
        BeforeSweep(cfg, made, init);
        assert SweptBy(cfg, made, ops, n) <==> ops[n].Get? && cfg.ttl.Some? && ops[n].now <= made;
      } else {
        var i :| SweptBy(cfg, made, init, i);
        assert SweptBy(cfg, made, ops, i);
      }
    }
  }

  /** If the clock has moved on since the store was made, whenever it is read, then it is never swept. */
  lemma {:induction false} NeverSwept<K, V>(cfg: Settings<V>, made: int, ops: seq<Op<K, V>>)
    requires forall i :: 0 <= i < |ops| && ops[i].Get? ==> ops[i].now > made
    ensures var s := RunOps(cfg, Made(cfg, made), ops);
            s.lastRefresh == made - cfg.interval && forall now :: now > made ==> Refreshed(cfg, s, now) == s
  {
    SweptExactly(cfg, made, ops);
    BeforeSweep(cfg, made, ops);
  }

  /** Unless something is read at once, a key that is stored at some point of a run stays, however long ago it was used:
      the counters and conditions of the push trigger are there as long as its tasks need them. */
  lemma {:induction false} KeysStay<K, V>(cfg: Settings<V>, made: int, ops: seq<Op<K, V>>, n: nat, k: K)
    requires n <= |ops| && forall i :: 0 <= i < |ops| && ops[i].Get? ==> ops[i].now > made
    requires k in RunOps(cfg, Made(cfg, made), ops[..n]).items
    ensures k in RunOps(cfg, Made(cfg, made), ops).items
  {
    if n == |ops| {
      assert ops[..n] == ops;
    } else {
      var init := ops[..|ops| - 1];
      assert init[..n] == ops[..n];
      KeysStay(cfg, made, init, n, k);
      NeverSwept(cfg, made, init);
    }
  }

  lemma {:induction false} TwoMoreOps<K, V>(cfg: Settings<V>, s: Store<K, V>, ops: seq<Op<K, V>>, a: Op<K, V>,
                                            b: Op<K, V>)
    ensures RunOps(cfg, s, ops + [a, b]) == After(cfg, After(cfg, RunOps(cfg, s, ops), a), b)
  {
    var one, two := ops + [a], ops + [a, b];
    assert two[..|two| - 1] == one && two[|two| - 1] == b;
  }

  lemma {:induction false} FourOps<K, V>(cfg: Settings<V>, s: Store<K, V>, o1: Op<K, V>, o2: Op<K, V>, o3: Op<K, V>,
                                         o4: Op<K, V>)
    ensures RunOps(cfg, s, [o1, o2, o3, o4]) == After(cfg, After(cfg, After(cfg, After(cfg, s, o1), o2), o3), o4)
  {
    TwoMoreOps(cfg, s, [], o1, o2);
    TwoMoreOps(cfg, s, [o1, o2], o3, o4);
    assert [] + [o1, o2] == [o1, o2] && [o1, o2] + [o3, o4] == [o1, o2, o3, o4];
  }

  /** One use at the very time of construction is enough to start the sweeping: a key can then be lost. */
  lemma {:induction false} SweptAfterUseAtOnce()
    ensures var cfg: Settings<int> := Settings(Some(300), 600, true, None);
            var ops: seq<Op<string, int>> := [Put("a", 1, 0), Get("a", 0), Put("b", 1, 10), Get("b", 500)];
            "a" !in RunOps(cfg, Made(cfg, 0), ops).items
  {
    var cfg: Settings<int> := Settings(Some(300), 600, true, None);
    var d: Store<string, int> := Made(cfg, 0);
    FourOps(cfg, d, Put("a", 1, 0), Get("a", 0), Put("b", 1, 10), Get("b", 500));
    var s1 := After(cfg, d, Put("a", 1, 0));
    var s2 := After(cfg, s1, Get("a", 0));
    assert s1.times["a"] == 0 && s1.lastRefresh == -600;
    assert s2.lastRefresh == 0 && s2.times["a"] == 0;
  }
}
