/** Exactly when the timing of the dictionary does harm: when a sweep raises KeyError, and when a stored key is lost. */
module ExpiryExact {
  import opened PyText
  import opened TimeoutDict

  /** The clock starts when the store is made, and never goes back. */
  ghost predicate Ticks<K, V>(made: int, ops: seq<Op<K, V>>) {
    && (forall i :: 0 <= i < |ops| ==> made <= ops[i].now)
    && (forall i, j :: 0 <= i < j < |ops| ==> ops[i].now <= ops[j].now)
  }

  /** A read whose sweep raises KeyError. */
  ghost predicate Fails<K, V>(cfg: Settings<V>, s: Store<K, V>, op: Op<K, V>) {
    op.Get? && SweepFails(cfg, Touched(cfg, s, op.key, op.now), op.now)
  }

  ghost predicate FailsAt<K, V>(cfg: Settings<V>, made: int, ops: seq<Op<K, V>>, i: int) {
    0 <= i < |ops| && Fails(cfg, RunOps(cfg, Made(cfg, made), ops[..i]), ops[i])
  }

  ghost predicate SomeReadFails<K(!new), V(!new)>(cfg: Settings<V>, made: int, ops: seq<Op<K, V>>) {
    exists i :: FailsAt(cfg, made, ops, i)
  }

  lemma {:induction false} RunSnoc<K, V>(cfg: Settings<V>, s: Store<K, V>, ops: seq<Op<K, V>>, op: Op<K, V>)
    ensures RunOps(cfg, s, ops + [op]) == After(cfg, RunOps(cfg, s, ops), op)
  {
    assert (ops + [op])[..|ops|] == ops;
  }

  // ---------- settings that do no harm ----------

  ghost predicate TimedAreStored<K, V>(s: Store<K, V>) { s.times.Keys <= s.items.Keys }

  lemma {:induction false} StoredStep<K, V>(cfg: Settings<V>, s: Store<K, V>, op: Op<K, V>)
    requires TimedAreStored(s)
    requires !cfg.touchOnGet || (cfg.default.Some? && (cfg.ttl.Some? ==> cfg.ttl.value >= 0))
    ensures TimedAreStored(After(cfg, s, op)) && !Fails(cfg, s, op)
  {
  }

  lemma {:induction false} StoredInRuns<K, V>(cfg: Settings<V>, made: int, ops: seq<Op<K, V>>)
    requires !cfg.touchOnGet || (cfg.default.Some? && (cfg.ttl.Some? ==> cfg.ttl.value >= 0))
    ensures TimedAreStored(RunOps(cfg, Made(cfg, made), ops))
  {
    if ops != [] {
      StoredInRuns(cfg, made, ops[..|ops| - 1]);
      StoredStep(cfg, RunOps(cfg, Made(cfg, made), ops[..|ops| - 1]), ops[|ops| - 1]);
    }
  }

  /** Sweeps are due only in the instant the store was made, and no key is timed before it. */
  ghost predicate Early<K, V>(cfg: Settings<V>, made: int, s: Store<K, V>) {
    s.lastRefresh + cfg.interval <= made && forall k :: k in s.times ==> made <= s.times[k]
  }

  lemma {:induction false} EarlyStep<K, V>(cfg: Settings<V>, made: int, s: Store<K, V>, op: Op<K, V>)
    requires Early(cfg, made, s) && made <= op.now
    requires cfg.ttl.None? || (cfg.ttl.value >= 0 && cfg.interval <= 0)
    ensures Early(cfg, made, After(cfg, s, op)) && !Fails(cfg, s, op)
    ensures s.items.Keys <= After(cfg, s, op).items.Keys
  {
    if op.Get? && cfg.ttl.Some? && Due(cfg, s, op.now) {
      assert Expired(Touched(cfg, s, op.key, op.now), cfg.ttl.value, op.now) == {};
    }
  }

  lemma {:induction false} EarlyInRuns<K, V>(cfg: Settings<V>, made: int, ops: seq<Op<K, V>>)
    requires forall i :: 0 <= i < |ops| ==> made <= ops[i].now
    requires cfg.ttl.None? || (cfg.ttl.value >= 0 && cfg.interval <= 0)
    ensures Early(cfg, made, RunOps(cfg, Made(cfg, made), ops))
  {
    if ops != [] {
      EarlyInRuns(cfg, made, ops[..|ops| - 1]);
      EarlyStep(cfg, made, RunOps(cfg, Made(cfg, made), ops[..|ops| - 1]), ops[|ops| - 1]);
    }
  }

  lemma {:induction false} EarlyKeysStay<K, V>(cfg: Settings<V>, made: int, ops: seq<Op<K, V>>, n: nat)
    requires n <= |ops| && forall i :: 0 <= i < |ops| ==> made <= ops[i].now
    requires cfg.ttl.None? || (cfg.ttl.value >= 0 && cfg.interval <= 0)
    ensures RunOps(cfg, Made(cfg, made), ops[..n]).items.Keys <= RunOps(cfg, Made(cfg, made), ops).items.Keys
  {
    if n == |ops| {
      assert ops[..n] == ops;
    } else {
      var init := ops[..|ops| - 1];
      assert init[..n] == ops[..n];
      EarlyKeysStay(cfg, made, init, n);
      EarlyInRuns(cfg, made, init);
      EarlyStep(cfg, made, RunOps(cfg, Made(cfg, made), init), ops[|ops| - 1]);
    }
  }

  // ---------- a run that does harm: one key is left alone while another is read at every moment ----------

  function Reads<K, V>(b: K, made: int, n: nat): (ops: seq<Op<K, V>>)
    ensures |ops| == n
  {
    seq(n, i requires 0 <= i < n => Get(b, made + 1 + i))
  }

  /** Every moment has been swept, and neither key is older than the store. */
  ghost predicate Kept<K, V>(s: Store<K, V>, a: K, b: K, made: int, n: int, stored: bool) {
    && s.lastRefresh == made + n && a in s.times && s.times[a] == made && (b in s.times ==> s.times[b] >= made)
    && s.times.Keys <= {a, b} && (a in s.items <==> stored) && (stored ==> b in s.items)
  }

  lemma {:induction false} ReadOnTime<K, V>(cfg: Settings<V>, s: Store<K, V>, a: K, b: K, made: int, n: int,
                                            stored: bool)
    requires a != b && cfg.ttl.Some? && cfg.interval >= 1 && 1 <= n <= cfg.ttl.value && Kept(s, a, b, made, n - 1, stored)
    ensures Kept(After(cfg, s, Get(b, made + n)), a, b, made, n, stored) && !Fails(cfg, s, Get(b, made + n))
  {
    var touched := Touched(cfg, s, b, made + n);
    assert Due(cfg, touched, made + n) && Expired(touched, cfg.ttl.value, made + n) == {};
    assert touched.items - {} == touched.items && touched.times - {} == touched.times;
  }

  lemma {:induction false} WhileReading<K, V>(cfg: Settings<V>, start: seq<Op<K, V>>, a: K, b: K, made: int, n: nat,
                                              stored: bool)
    requires a != b && cfg.ttl.Some? && cfg.interval >= 1 && n <= cfg.ttl.value
    requires Kept(RunOps(cfg, Made(cfg, made), start), a, b, made, 0, stored)
    ensures Kept(RunOps(cfg, Made(cfg, made), start + Reads(b, made, n)), a, b, made, n, stored)
  {
    if n == 0 {
      assert start + Reads(b, made, 0) == start;
    } else {
      var before, op: Op<K, V> := start + Reads(b, made, n - 1), Get(b, made + n);
      WhileReading(cfg, start, a, b, made, n - 1, stored);
      assert start + Reads(b, made, n) == before + [op];
      RunSnoc(cfg, Made(cfg, made), before, op);
      ReadOnTime(cfg, RunOps(cfg, Made(cfg, made), before), a, b, made, n, stored);
    }
  }

  /** Reading goes on until the time of the first key is up. */
  function UntilOver<K, V>(start: seq<Op<K, V>>, b: K, made: int, ttl: nat): seq<Op<K, V>> {
    start + Reads(b, made, ttl + 1)
  }

  /** Just before the last read, and what the last read finds. */
  lemma {:induction false} LastRead<K, V>(cfg: Settings<V>, start: seq<Op<K, V>>, a: K, b: K, made: int, stored: bool)
    requires a != b && cfg.ttl.Some? && cfg.ttl.value >= 0 && cfg.interval >= 1
    requires Kept(RunOps(cfg, Made(cfg, made), start), a, b, made, 0, stored)
    ensures var ops, last := UntilOver(start, b, made, cfg.ttl.value), |start| + cfg.ttl.value;
            var s := RunOps(cfg, Made(cfg, made), ops[..last]);
            && |ops| == last + 1 && ops[last] == Get(b, made + cfg.ttl.value + 1) && Kept(s, a, b, made, cfg.ttl.value, stored)
            && RunOps(cfg, Made(cfg, made), ops) == After(cfg, s, ops[last])
  {
    var n: nat := cfg.ttl.value;
    var ops, last := UntilOver(start, b, made, n), |start| + n;
    WhileReading(cfg, start, a, b, made, n, stored);
    assert ops[..last] == start + Reads(b, made, n) && ops[..|ops| - 1] == ops[..last];
  }

  lemma {:induction false} OverTicks<K, V>(start: seq<Op<K, V>>, b: K, made: int, ttl: nat)
    requires forall i :: 0 <= i < |start| ==> start[i].now == made
    ensures Ticks(made, UntilOver(start, b, made, ttl))
  {
  }

  // ---------- KeyError ----------

  /** A read in vain keeps the time of a key that is not stored. */
  lemma {:induction false} ReadInVain<K, V>(cfg: Settings<V>, made: int, a: K, b: K)
    requires a != b && cfg.touchOnGet && cfg.default.None? && cfg.ttl.Some? && cfg.ttl.value >= 0
    ensures Kept(RunOps(cfg, Made(cfg, made), [Get(a, made)]), a, b, made, 0, false)
  {
    var s: Store<K, V>, op: Op<K, V> := Made(cfg, made), Get(a, made);
    RunSnoc(cfg, s, [], op);
    assert [] + [op] == [op];
    var touched := Touched(cfg, s, a, made);
    assert Expired(touched, cfg.ttl.value, made) == {} && touched.times - {} == touched.times;
  }

  lemma {:induction false} FailsInTheEnd<K(!new), V(!new)>(cfg: Settings<V>, made: int, a: K, b: K) returns (ops: seq<Op<K, V>>)
    requires a != b && cfg.touchOnGet && cfg.ttl.Some? && (cfg.ttl.value < 0 || (cfg.default.None? && cfg.interval >= 1))
    ensures Ticks(made, ops) && SomeReadFails(cfg, made, ops)
  {
    if cfg.ttl.value < 0 {
      ops := [Get(a, made)];
      var touched := Touched(cfg, Made(cfg, made), a, made);
      assert ops[..0] == [] && a in Expired(touched, cfg.ttl.value, made);
      assert FailsAt(cfg, made, ops, 0);
    } else {
      var start: seq<Op<K, V>>, n: nat := [Get(a, made)], cfg.ttl.value;
      ReadInVain(cfg, made, a, b);
      ops := UntilOver(start, b, made, n);
      LastRead(cfg, start, a, b, made, false);
      OverTicks(start, b, made, n);
      var s := RunOps(cfg, Made(cfg, made), ops[..1 + n]);
      assert a in Expired(Touched(cfg, s, b, made + n + 1), n, made + n + 1);
      assert FailsAt(cfg, made, ops, 1 + n);
    }
  }

  lemma {:induction false} NeverFails<K(!new), V(!new)>(cfg: Settings<V>, made: int, ops: seq<Op<K, V>>)
    requires Ticks(made, ops)
    requires cfg.ttl.None? || !cfg.touchOnGet || (cfg.ttl.value >= 0 && (cfg.default.Some? || cfg.interval <= 0))
    ensures !SomeReadFails(cfg, made, ops)
  {
    forall i | 0 <= i < |ops| ensures !FailsAt(cfg, made, ops, i) {
      if !cfg.touchOnGet || (cfg.default.Some? && (cfg.ttl.Some? ==> cfg.ttl.value >= 0)) {
        StoredInRuns(cfg, made, ops[..i]);
        StoredStep(cfg, RunOps(cfg, Made(cfg, made), ops[..i]), ops[i]);
      } else {
        EarlyInRuns(cfg, made, ops[..i]);
        EarlyStep(cfg, made, RunOps(cfg, Made(cfg, made), ops[..i]), ops[i]);
      }
    }
  }

  /** No read in any run raises KeyError from its sweep exactly if keys do not time out, or reading does not touch them, or
      the time to live is not negative and there is a default or no interval to sweep in. */
  lemma {:induction false} NoSweepFailsExactly<K(!new), V(!new)>(cfg: Settings<V>, made: int, a: K, b: K)
    requires a != b
    ensures (forall ops: seq<Op<K, V>> :: Ticks(made, ops) ==> !SomeReadFails(cfg, made, ops)) <==>
            cfg.ttl.None? || !cfg.touchOnGet || (cfg.ttl.value >= 0 && (cfg.default.Some? || cfg.interval <= 0))
  {
    if cfg.ttl.None? || !cfg.touchOnGet || (cfg.ttl.value >= 0 && (cfg.default.Some? || cfg.interval <= 0)) {
      forall ops: seq<Op<K, V>> | Ticks(made, ops) ensures !SomeReadFails(cfg, made, ops) {
        NeverFails(cfg, made, ops);
      }
    } else {
      var ops := FailsInTheEnd<K, V>(cfg, made, a, b);
    }
  }

  /** What is read is stored, or there is a default for it. */
  predicate ReadsStored<K, V>(cfg: Settings<V>, s: Store<K, V>, op: Op<K, V>) {
    op.Get? ==> cfg.default.Some? || op.key in s.items
  }

  lemma {:induction false} StoredByReads<K, V>(cfg: Settings<V>, made: int, ops: seq<Op<K, V>>)
    requires cfg.ttl.Some? ==> cfg.ttl.value >= 0
    requires forall i :: 0 <= i < |ops| ==> ReadsStored(cfg, RunOps(cfg, Made(cfg, made), ops[..i]), ops[i])
    ensures TimedAreStored(RunOps(cfg, Made(cfg, made), ops))
  {
    if ops != [] {
      var init := ops[..|ops| - 1];
      forall i | 0 <= i < |init| ensures ReadsStored(cfg, RunOps(cfg, Made(cfg, made), init[..i]), init[i]) {
        assert init[..i] == ops[..i];
      }
      StoredByReads(cfg, made, init);
    }
  }

  /** Whatever the settings but a negative time to live, a run that reads only what is stored goes well: so the counters of
      the push trigger, which have no default, can be read once they are set. */
  lemma {:induction false} StoredReadsNeverFail<K, V>(cfg: Settings<V>, made: int, ops: seq<Op<K, V>>, i: nat)
    requires cfg.ttl.Some? ==> cfg.ttl.value >= 0
    requires forall j :: 0 <= j < |ops| ==> ReadsStored(cfg, RunOps(cfg, Made(cfg, made), ops[..j]), ops[j])
    requires i < |ops|
    ensures !FailsAt(cfg, made, ops, i)
  {
    forall j | 0 <= j < i ensures ReadsStored(cfg, RunOps(cfg, Made(cfg, made), ops[..i][..j]), ops[..i][j]) {
      assert ops[..i][..j] == ops[..j];
    }
    StoredByReads(cfg, made, ops[..i]);
  }

  // ---------- lost keys ----------

  /** A key that is stored after the first n operations is not there at the end, and no read fails on the way. */
  ghost predicate Loses<K(!new), V(!new)>(cfg: Settings<V>, made: int, ops: seq<Op<K, V>>, n: nat, k: K) {
    && Ticks(made, ops) && !SomeReadFails(cfg, made, ops) && n <= |ops|
    && k in RunOps(cfg, Made(cfg, made), ops[..n]).items && k !in RunOps(cfg, Made(cfg, made), ops).items
  }

  /** Two keys are stored, and one of them is read. */
  function TwoKeys<K, V>(made: int, a: K, b: K, v: V)
    : seq<Op<K, V>> { [Put(a, v, made), Put(b, v, made), Get(b, made)] }

  lemma {:induction false} AfterTwoKeys<K, V>(cfg: Settings<V>, made: int, a: K, b: K, v: V)
    requires a != b && cfg.ttl.Some?
    ensures var ops, d := TwoKeys(made, a, b, v), Made<K, V>(cfg, made);
            && RunOps(cfg, d, ops[..0]) == d && RunOps(cfg, d, ops[..1]) == After(cfg, d, ops[0])
            && RunOps(cfg, d, ops[..2]) == Store(map[a := v, b := v], map[a := made, b := made], made - cfg.interval)
            && RunOps(cfg, d, ops) == After(cfg, RunOps(cfg, d, ops[..2]), ops[2])
  {
    var ops, d := TwoKeys(made, a, b, v), Made<K, V>(cfg, made);
    assert ops[..0] == [] && ops[..1] == [] + [ops[0]] && ops[..2] == ops[..1] + [ops[1]] && ops == ops[..2] + [ops[2]];
    RunSnoc(cfg, d, [], ops[0]);
    RunSnoc(cfg, d, ops[..1], ops[1]);
    RunSnoc(cfg, d, ops[..2], ops[2]);
  }

  lemma {:induction false} KeptIsStored<K, V>(cfg: Settings<V>, s: Store<K, V>, a: K, b: K, made: int, n: int, now: int)
    requires Kept(s, a, b, made, n, true)
    ensures !Fails(cfg, s, Get(b, now))
  {
  }

  lemma {:induction false} TwoKeysRun<K(!new), V(!new)>(cfg: Settings<V>, made: int, a: K, b: K, v: V, i: int)
    requires a != b && cfg.ttl.Some?
    ensures !FailsAt(cfg, made, TwoKeys(made, a, b, v), i)
    ensures cfg.ttl.value >= 0 ==> Kept(RunOps(cfg, Made(cfg, made), TwoKeys(made, a, b, v)), a, b, made, 0, true)
    ensures cfg.ttl.value < 0 ==> a !in RunOps(cfg, Made(cfg, made), TwoKeys(made, a, b, v)).items
  {
    AfterTwoKeys(cfg, made, a, b, v);
    var s: Store<K, V> := Store(map[a := v, b := v], map[a := made, b := made], made - cfg.interval);
    var touched := Touched(cfg, s, b, made);
    assert touched.times == s.times && Due(cfg, touched, made);
    if cfg.ttl.value >= 0 {
      assert Expired(touched, cfg.ttl.value, made) == {};
      assert touched.items - {} == touched.items && touched.times - {} == touched.times;
    } else {
      assert Expired(touched, cfg.ttl.value, made) == {a, b};
    }
  }

  lemma {:induction false} OverGoesWell<K(!new), V(!new)>(cfg: Settings<V>, made: int, a: K, b: K, v: V, i: int)
    requires a != b && cfg.ttl.Some? && cfg.ttl.value >= 0 && cfg.interval >= 1
    ensures !FailsAt(cfg, made, UntilOver(TwoKeys(made, a, b, v), b, made, cfg.ttl.value), i)
  {
    var start, n: nat := TwoKeys(made, a, b, v), cfg.ttl.value;
    var ops := UntilOver(start, b, made, n);
    if 0 <= i < 3 {
      assert ops[..i] == start[..i] && ops[i] == start[i];
      TwoKeysRun(cfg, made, a, b, v, i);
    } else if 3 <= i < |ops| {
      assert ops[..i] == start + Reads(b, made, i - 3) && ops[i] == Get(b, made + i - 2);
      TwoKeysRun(cfg, made, a, b, v, 0);
      WhileReading(cfg, start, a, b, made, i - 3, true);
      KeptIsStored(cfg, RunOps(cfg, Made(cfg, made), ops[..i]), a, b, made, i - 3, made + i - 2);
    }
  }

  lemma {:induction false} LosesInTheEnd<K(!new), V(!new)>(cfg: Settings<V>, made: int, a: K, b: K, v: V) returns (ops: seq<Op<K, V>>)
    requires a != b && cfg.ttl.Some? && (cfg.ttl.value < 0 || cfg.interval >= 1)
    ensures Loses(cfg, made, ops, 2, a)
  {
    var start := TwoKeys(made, a, b, v);
    AfterTwoKeys(cfg, made, a, b, v);
    TwoKeysRun(cfg, made, a, b, v, 0);
    if cfg.ttl.value < 0 {
      ops := start;
      forall i ensures !FailsAt(cfg, made, ops, i) {
        TwoKeysRun(cfg, made, a, b, v, i);
      }
    } else {
      var n: nat := cfg.ttl.value;
      ops := UntilOver(start, b, made, n);
      OverTicks(start, b, made, n);
      LastRead(cfg, start, a, b, made, true);
      forall i ensures !FailsAt(cfg, made, ops, i) {
        OverGoesWell(cfg, made, a, b, v, i);
      }
      assert ops[..2] == start[..2];
      LostAtLast(cfg, RunOps(cfg, Made(cfg, made), ops[..3 + n]), a, b, made, n);
    }
  }

  lemma {:induction false} LostAtLast<K, V>(cfg: Settings<V>, s: Store<K, V>, a: K, b: K, made: int, n: nat)
    requires a != b && cfg.ttl == Some(n) && cfg.interval >= 1 && Kept(s, a, b, made, n, true)
    ensures a !in After(cfg, s, Get(b, made + n + 1)).items
  {
    assert a in Expired(Touched(cfg, s, b, made + n + 1), n, made + n + 1);
  }

  /** A stored key is lost in some run exactly if keys time out and the time to live is negative or there is an interval to
      sweep in. */
  lemma {:induction false} KeyLostExactly<K(!new), V(!new)>(cfg: Settings<V>, made: int, a: K, b: K, v: V)
    requires a != b
    ensures (exists ops: seq<Op<K, V>>, n: nat, k: K :: Loses(cfg, made, ops, n, k)) <==>
            cfg.ttl.Some? && (cfg.ttl.value < 0 || cfg.interval >= 1)
  {
    if cfg.ttl.Some? && (cfg.ttl.value < 0 || cfg.interval >= 1) {
      var ops := LosesInTheEnd(cfg, made, a, b, v);
    } else {
      forall ops: seq<Op<K, V>>, n: nat, k: K ensures !Loses(cfg, made, ops, n, k) {
        if Ticks(made, ops) && n <= |ops| {
          EarlyKeysStay(cfg, made, ops, n);
        }
      }
    }
  }
}
