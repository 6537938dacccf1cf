/** What the limiter promises over whole runs. */
module LimiterTheorems {
  import opened LimiterModel
  import opened LimiterLevels
  import opened LimiterRuns

  /** Below the caps, nobody can tell from the replies whether and when the limiter was swept. */
  ghost predicate SweepsInvisible(c: Config)
    requires ValidConfig(c)
  {
    forall calls: seq<Call> | InOrder(calls) && BelowCap(c, calls) :: Replies(c, calls) == Replies(c, WithoutSweeps(calls))
  }

  predicate OnSlot(call: Call, ip: Ip, cat: Category) {
    (call.CheckIp? && call.ip == ip && call.cat == cat) || (call.AuthFailed? && call.ip == ip && cat == AuthFail)
  }

  predicate OnKey(call: Call, k: KeyId) {
    call.IssueKey? && call.key == k
  }

  /** How many calls from index `from` on were allowed a token of this (address, category) slot. */
  function Granted(c: Config, calls: seq<Call>, from: nat, ip: Ip, cat: Category): nat
    requires ValidConfig(c)
  {
    if |calls| <= from then 0
    else
      var init, last := calls[..|calls| - 1], calls[|calls| - 1];
      Granted(c, init, from, ip, cat) + if OnSlot(last, ip, cat) && Apply(c, After(c, init), last).1.Allowed? then 1 else 0
  }

  function GrantedKey(c: Config, calls: seq<Call>, from: nat, k: KeyId): nat
    requires ValidConfig(c)
  {
    if |calls| <= from then 0
    else
      var init, last := calls[..|calls| - 1], calls[|calls| - 1];
      GrantedKey(c, init, from, k) + if OnKey(last, k) && Apply(c, After(c, init), last).1.Allowed? then 1 else 0
  }

  /** In every window of every run a slot grants at most its burst plus what it earns meanwhile. */
  ghost predicate RateBounded(c: Config)
    requires ValidConfig(c)
  {
    forall calls: seq<Call>, from: nat, ip: Ip, cat: Category | InOrder(calls) && from < |calls| ::
      Granted(c, calls, from, ip, cat) as real
        <= Get(c.rpm, cat) as real + Gain(calls[|calls| - 1].at - calls[from].at, Get(c.rpm, cat))
  }

  // ---------- reachable limiters are sound ----------

  lemma {:induction false} ReachableSound(c: Config, calls: seq<Call>, t: real)
    requires ValidConfig(c) && InOrder(calls)
    requires forall i | 0 <= i < |calls| :: calls[i].at <= t
    ensures SoundAt(c, After(c, calls), t)
  {
    hide ValidConfig, Apply, SoundAt;
    if calls == [] {
      EmptyAlike(c, t, {}, {});
    } else {
      var init, last := calls[..|calls| - 1], calls[|calls| - 1];
      ReachableSound(c, init, last.at);
      ApplyByLevel(c, After(c, init), last);
      SoundLater(c, After(c, calls), last.at, t);
    }
  }

  /** No bucket ever goes below empty or above its rate, and memory stays below the cap. */
  lemma TokensBounded(c: Config, calls: seq<Call>, ip: Ip, cat: Category, k: KeyId)
    requires ValidConfig(c) && InOrder(calls)
    ensures |After(c, calls).ips| <= c.maxIps && |After(c, calls).keys| <= c.maxIps
    ensures ip in After(c, calls).ips ==>
      0.0 <= Get(After(c, calls).ips[ip].buckets, cat).tokens <= Get(After(c, calls).ips[ip].buckets, cat).capacity
        == Get(c.rpm, cat) as real
    ensures k in After(c, calls).keys ==>
      0.0 <= After(c, calls).keys[k].bucket.tokens <= After(c, calls).keys[k].bucket.capacity == KeyRpm(c, k, true) as real
  {
    var t := if calls == [] then 0.0 else calls[|calls| - 1].at;
    ReachableSound(c, calls, t);
    hide After, ValidConfig, KeyRpm;
    if ip in After(c, calls).ips { assert SoundEntry(c, After(c, calls).ips[ip], t); }
    if k in After(c, calls).keys { assert SoundKey(c, k, After(c, calls).keys[k], t); }
  }

  // ---------- the rate bound ----------

  /** The potential: tokens granted since the window opened plus the tokens left. */
  lemma {:induction false} GrantedPlusLevel(c: Config, calls: seq<Call>, from: nat, ip: Ip, cat: Category, t: real)
    requires ValidConfig(c) && InOrder(calls) && from <= |calls| && c.idleSweepSec >= 60
    requires forall i | 0 <= i < |calls| :: calls[i].at <= t
    ensures SoundAt(c, After(c, calls), t)
    ensures
      var start := if from == |calls| then t else calls[from].at;
      Granted(c, calls, from, ip, cat) as real + IpLevel(c, After(c, calls), ip, cat, t)
        <= Get(c.rpm, cat) as real + Gain(t - start, Get(c.rpm, cat))
    decreases |calls|
  {
    var rpm := Get(c.rpm, cat);
    hide ValidConfig, Apply, SoundAt, Gain, IpLevel, Get, Admits;
    ReachableSound(c, calls, t);
    if from == |calls| {
      IpLevelLater(c, After(c, calls), ip, cat, t, t);
      GainFacts(0.0, 0.0, rpm);
      assert t - t == 0.0;
    } else {
      var init, last := calls[..|calls| - 1], calls[|calls| - 1];
      GrantedPlusLevel(c, init, from, ip, cat, last.at);
      GrantStep(c, After(c, init), last, ip, cat, t);
      var start := calls[from].at;
      GainFacts(last.at - start, t - last.at, rpm);
      assert last.at - start + (t - last.at) == t - start;
    }
  }

  /** One call pays for what it grants, and waiting earns no faster than the rate. */
  lemma GrantStep(c: Config, s: Limiter, call: Call, ip: Ip, cat: Category, t: real)
    requires ValidConfig(c) && SoundAt(c, s, call.at) && call.at <= t && c.idleSweepSec >= 60
    ensures
      var (s', reply) := Apply(c, s, call);
      (if OnSlot(call, ip, cat) && reply.Allowed? then 1.0 else 0.0) + IpLevel(c, s', ip, cat, t)
        <= IpLevel(c, s, ip, cat, call.at) + Gain(t - call.at, Get(c.rpm, cat))
  {
    hide ValidConfig, SoundAt, Gain, IpLevel, KeyLevel, RetrySec, FullSec;
    var (s', reply) := Apply(c, s, call);
    ApplyByLevel(c, s, call);
    if !Admitted(c, s, call) && OnSlot(call, ip, cat) { DeniedAtCap(c, s, call); }
    hide Apply;
    IpLevelLater(c, s', ip, cat, call.at, t);
  }

  lemma DeniedAtCap(c: Config, s: Limiter, call: Call)
    requires ValidConfig(c) && !Admitted(c, s, call) && (call.CheckIp? || call.AuthFailed?)
    ensures Apply(c, s, call).0 == s && !Apply(c, s, call).1.Allowed?
  {}

  lemma {:induction false} GrantedKeyPlusLevel(c: Config, calls: seq<Call>, from: nat, k: KeyId, t: real)
    requires ValidConfig(c) && InOrder(calls) && from <= |calls| && c.idleSweepSec >= 60
    requires forall i | 0 <= i < |calls| :: calls[i].at <= t
    ensures SoundAt(c, After(c, calls), t)
    ensures
      var start := if from == |calls| then t else calls[from].at;
      GrantedKey(c, calls, from, k) as real + KeyLevel(c, After(c, calls), k, t)
        <= Limit(c, k) as real + Gain(t - start, Limit(c, k))
    decreases |calls|
  {
    var rpm := Limit(c, k);
    hide ValidConfig, Apply, SoundAt, Gain, KeyLevel, Limit;
    ReachableSound(c, calls, t);
    if from == |calls| {
      KeyLevelLater(c, After(c, calls), k, t, t);
      GainFacts(0.0, 0.0, rpm);
      assert t - t == 0.0;
    } else {
      var init, last := calls[..|calls| - 1], calls[|calls| - 1];
      GrantedKeyPlusLevel(c, init, from, k, last.at);
      GrantKeyStep(c, After(c, init), last, k, t);
      var start := calls[from].at;
      GainFacts(last.at - start, t - last.at, rpm);
      assert last.at - start + (t - last.at) == t - start;
    }
  }

  lemma GrantKeyStep(c: Config, s: Limiter, call: Call, k: KeyId, t: real)
    requires ValidConfig(c) && SoundAt(c, s, call.at) && call.at <= t && c.idleSweepSec >= 60
    ensures
      var (s', reply) := Apply(c, s, call);
      (if OnKey(call, k) && reply.Allowed? then 1.0 else 0.0) + KeyLevel(c, s', k, t)
        <= KeyLevel(c, s, k, call.at) + Gain(t - call.at, Limit(c, k))
  {
    hide ValidConfig, SoundAt, Gain, IpLevel, KeyLevel, RetrySec, FullSec, KeyRpm;
    var (s', reply) := Apply(c, s, call);
    ApplyByLevel(c, s, call);
    if OnKey(call, k) && !Admitted(c, s, call) { CheckKeyIdle(c, s, k, call.issue, call.at); }
    hide Apply;
    KeyLevelLater(c, s', k, call.at, t);
  }

  /** A key is granted at most its burst plus what it earns in the window. */
  lemma KeyRateBound(c: Config, calls: seq<Call>, from: nat, k: KeyId)
    requires ValidConfig(c) && InOrder(calls) && from < |calls| && c.idleSweepSec >= 60
    ensures GrantedKey(c, calls, from, k) as real
         <= Limit(c, k) as real + Gain(calls[|calls| - 1].at - calls[from].at, Limit(c, k))
  {
    hide ValidConfig, After, GrantedKey, Gain, KeyLevel, Limit, SoundAt;
    var t := calls[|calls| - 1].at;
    GrantedKeyPlusLevel(c, calls, from, k, t);
    KeyLevelLater(c, After(c, calls), k, t, t);
  }

  lemma SlotRateBound(c: Config, calls: seq<Call>, from: nat, ip: Ip, cat: Category)
    requires ValidConfig(c) && InOrder(calls) && from < |calls| && c.idleSweepSec >= 60
    ensures Granted(c, calls, from, ip, cat) as real
         <= Get(c.rpm, cat) as real + Gain(calls[|calls| - 1].at - calls[from].at, Get(c.rpm, cat))
  {
    hide ValidConfig, After, Granted, Gain, IpLevel, Get, SoundAt;
    var t := calls[|calls| - 1].at;
    GrantedPlusLevel(c, calls, from, ip, cat, t);
    IpLevelLater(c, After(c, calls), ip, cat, t, t);
  }

  // ---------- why the sweep window must be a minute ----------

  function Drain(n: nat, t: real): seq<Call> {
    seq(n, _ => AuthFailed("", t))
  }

  lemma DrainSnoc(n: nat, t: real)
    ensures Drain(n, t) == if n == 0 then [] else Drain(n - 1, t) + [AuthFailed("", t)]
  {}

  /** The address slot "" of a limiter that knows no other address and no key. */
  predicate Drained(c: Config, s: Limiter, level: int, t: real) {
    SoundAt(c, s, t) && Within(s, {""}, {}) && IpLevel(c, s, "", AuthFail, t) == level as real
  }

  lemma {:induction false} DrainFrom(c: Config, pre: seq<Call>, n: nat, t: real)
    requires ValidConfig(c) && c.maxIps >= 1 && n <= c.rpm.authFail
    requires Drained(c, After(c, pre), c.rpm.authFail, t)
    ensures Drained(c, After(c, pre + Drain(n, t)), c.rpm.authFail - n, t)
    ensures Granted(c, pre + Drain(n, t), 0, "", AuthFail) == Granted(c, pre, 0, "", AuthFail) + n
  {
    hide ValidConfig, Apply, Drained, After, Drain, Granted;
    DrainSnoc(n, t);
    if n == 0 {
      assert pre + Drain(0, t) == pre;
    } else {
      DrainFrom(c, pre, n - 1, t);
      var calls, call := pre + Drain(n - 1, t), AuthFailed("", t);
      assert pre + Drain(n, t) == calls + [call];
      AfterSnoc(c, calls, call);
      GrantedSnoc(c, calls, call, "", AuthFail);
      TakeOne(c, After(c, calls), c.rpm.authFail - n + 1, t);
    }
  }

  lemma GrantedSnoc(c: Config, calls: seq<Call>, call: Call, ip: Ip, cat: Category)
    requires ValidConfig(c)
    ensures Granted(c, calls + [call], 0, ip, cat)
         == Granted(c, calls, 0, ip, cat) + if OnSlot(call, ip, cat) && Apply(c, After(c, calls), call).1.Allowed? then 1 else 0
  {
    assert (calls + [call])[..|calls|] == calls;
  }

  lemma TakeOne(c: Config, s: Limiter, level: int, t: real)
    requires ValidConfig(c) && c.maxIps >= 1 && Drained(c, s, level, t) && level >= 1
    ensures Drained(c, Apply(c, s, AuthFailed("", t)).0, level - 1, t)
    ensures Apply(c, s, AuthFailed("", t)).1.Allowed?
  {
    var call := AuthFailed("", t);
    StaysWithin(c, s, call, {""}, {});
    hide ValidConfig, Apply, SoundAt, IpLevel, RetrySec, FullSec, Within;
    ApplyByLevel(c, s, call);
    assert Draws(c, s, call, "", AuthFail);
  }

  /** Drain the slot, and let a sweep forget it less than a minute later. */
  lemma SweptEarly(c: Config) returns (calls: seq<Call>, t: real)
    requires ValidConfig(c) && c.maxIps >= 1 && c.idleSweepSec < 60
    ensures calls == Drain(c.rpm.authFail, 0.0) && 0.0 < t < MINUTE
    ensures Drained(c, After(c, calls), 0, 0.0)
    ensures Granted(c, calls, 0, "", AuthFail) == c.rpm.authFail
    ensures After(c, calls + [SweepAt(t)]) == Empty
  {
    var n := c.rpm.authFail;
    calls, t := Drain(n, 0.0), (c.idleSweepSec * 1000) as real + 1.0;
    EmptyAlike(c, 0.0, {""}, {});
    assert [] + calls == calls && Drained(c, Empty, n, 0.0);
    DrainFrom(c, [], n, 0.0);
    ForgetAll(c, After(c, calls), t);
    AfterSnoc(c, calls, SweepAt(t));
  }

  lemma ForgetAll(c: Config, s: Limiter, t: real)
    requires SoundAt(c, s, 0.0) && Within(s, {""}, {}) && Cutoff(c, t) > 0.0
    ensures Sweep(c, s, t) == Empty
  {
    hide Sound;
    assert s.keys == map[];
    forall ip | ip in s.ips ensures s.ips[ip].lastSeen < Cutoff(c, t) {
      assert SoundEntry(c, s.ips[ip], 0.0);
    }
  }

  lemma {:induction false} UnsweptDrain(n: nat, t: real)
    ensures WithoutSweeps(Drain(n, t)) == Drain(n, t)
  {
    if n > 0 {
      DrainSnoc(n, t);
      assert Drain(n, t)[..n - 1] == Drain(n - 1, t);
      UnsweptDrain(n - 1, t);
    }
  }

  /** After an early sweep the drained slot answers as if it were full; unswept, it cannot. */
  lemma EarlySweepSeen(c: Config)
    requires ValidConfig(c) && c.maxIps >= 1 && c.idleSweepSec < 60
    ensures !SweepsInvisible(c)
  {
    var calls, t := SweptEarly(c);
    var call: Call := AuthFailed("", t);
    var swept := calls + [SweepAt(t)];
    var run := swept + [call];
    hide InOrder, BelowCap, WithoutSweeps, Apply, Drain, After, Drained, ValidConfig, Replies, Granted;
    EarlyRun(c, c.rpm.authFail, t);
    AfterSnoc(c, calls, call);
    AfterSnoc(c, swept, call);
    AfterSnoc(c, calls, SweepAt(t));
    EarlyReplies(c, After(c, calls), t);
    var common := Replies(c, calls);
    assert Replies(c, run)[|common|] != Replies(c, WithoutSweeps(run))[|common|];
  }

  lemma EarlyRun(c: Config, n: nat, t: real)
    requires c.maxIps >= 1 && t > 0.0
    ensures
      var calls, call := Drain(n, 0.0), AuthFailed("", t);
      var run := calls + [SweepAt(t)] + [call];
      InOrder(run) && BelowCap(c, run) && WithoutSweeps(run) == calls + [call]
  {
    var calls, call := Drain(n, 0.0), AuthFailed("", t);
    var swept := calls + [SweepAt(t)];
    var run := swept + [call];
    assert InOrder(run) && forall i | 0 <= i < |run| :: Names(run[i], {""}, {});
    hide InOrder, Drain, Names;
    OneAddress(run);
    UnsweptDrain(n, 0.0);
    assert run[..|swept|] == swept && swept[..|calls|] == calls;
  }

  lemma OneAddress(calls: seq<Call>)
    requires forall i | 0 <= i < |calls| :: Names(calls[i], {""}, {})
    ensures |Ips(calls)| <= 1 && |Keys(calls)| == 0
  {
    Smaller(Ips(calls), {""});
    Smaller(Keys(calls), {});
  }

  lemma EarlyReplies(c: Config, s: Limiter, t: real)
    requires ValidConfig(c) && c.maxIps >= 1 && 0.0 < t < MINUTE
    requires Drained(c, s, 0, 0.0)
    ensures Apply(c, s, AuthFailed("", t)).1 != Apply(c, Empty, AuthFailed("", t)).1
  {
    var call, n := AuthFailed("", t), c.rpm.authFail;
    var level := IpLevel(c, s, "", AuthFail, t);
    NotFullYet(c, s, t);
    EmptyAlike(c, t, {""}, {});
    StaysWithin(c, s, call, {""}, {});
    StaysWithin(c, Empty, call, {""}, {});
    assert IpLevel(c, Empty, "", AuthFail, t) == n as real;
    hide Apply, SoundAt, IpLevel, RetrySec, FullSec, Within, ValidConfig, Gain, Drained, LevelsMove;
    ApplyByLevel(c, s, call);
    ApplyByLevel(c, Empty, call);
    assert ReplyAt(c, call, n as real) == Allowed(n - 1, n, 0);
    assert level >= 1.0 ==> (level - 1.0).Floor < n - 1;
  }

  lemma NotFullYet(c: Config, s: Limiter, t: real)
    requires ValidConfig(c) && 0.0 < t < MINUTE && Drained(c, s, 0, 0.0)
    ensures SoundAt(c, s, t) && IpLevel(c, s, "", AuthFail, t) < c.rpm.authFail as real && c.rpm.authFail > 0
  {
    hide Level, SoundAt, Within;
    SoundLater(c, s, 0.0, t);
    IpLevelLater(c, s, "", AuthFail, 0.0, t);
    GainFacts(t, 0.0, c.rpm.authFail);
    assert t - 0.0 == t && Get(c.rpm, AuthFail) == c.rpm.authFail;
  }

  /** Sweeping cannot be seen exactly when the idle window is at least the minute a bucket takes to fill. */
  lemma SweepsInvisibleIff(c: Config)
    requires ValidConfig(c)
    ensures SweepsInvisible(c) <==> c.idleSweepSec >= 60 || c.maxIps == 0
  {
    if c.idleSweepSec >= 60 || c.maxIps == 0 {
      forall calls: seq<Call> | InOrder(calls) && BelowCap(c, calls) ensures Replies(c, calls) == Replies(c, WithoutSweeps(calls)) {
        if c.idleSweepSec >= 60 {
          var t := if calls == [] then 0.0 else calls[|calls| - 1].at;
          SweptRunAlike(c, calls, t, Ips(calls), Keys(calls));
        } else {
          OnlySweeps(c, calls);
        }
      }
    } else {
      EarlySweepSeen(c);
    }
  }

  lemma NamesOwn(calls: seq<Call>, i: nat)
    requires i < |calls|
    ensures Names(calls[i], Ips(calls), Keys(calls))
  {}

  lemma OnlySweeps(c: Config, calls: seq<Call>)
    requires ValidConfig(c) && |Ips(calls)| == 0 && |Keys(calls)| == 0
    ensures Replies(c, calls) == [] == Replies(c, WithoutSweeps(calls))
  {
    forall i | 0 <= i < |calls| ensures calls[i].SweepAt? {
      NamesOwn(calls, i);
    }
    NothingLeft(c, calls);
  }

  lemma {:induction false} NothingLeft(c: Config, calls: seq<Call>)
    requires ValidConfig(c) && forall i | 0 <= i < |calls| :: calls[i].SweepAt?
    ensures Replies(c, calls) == [] && WithoutSweeps(calls) == []
  {
    if calls != [] { NothingLeft(c, calls[..|calls| - 1]); }
  }

  /** The rate bound holds exactly for the same windows: an early sweep hands out a second burst. */
  lemma RateBoundedIff(c: Config)
    requires ValidConfig(c)
    ensures RateBounded(c) <==> c.idleSweepSec >= 60 || c.maxIps == 0
  {
    if c.idleSweepSec >= 60 {
      forall calls: seq<Call>, from: nat, ip: Ip, cat: Category | InOrder(calls) && from < |calls|
        ensures Granted(c, calls, from, ip, cat) as real
             <= Get(c.rpm, cat) as real + Gain(calls[|calls| - 1].at - calls[from].at, Get(c.rpm, cat))
      {
        SlotRateBound(c, calls, from, ip, cat);
      }
    } else if c.maxIps == 0 {
      hide Gain;
      forall calls: seq<Call>, from: nat, ip: Ip, cat: Category | InOrder(calls) && from < |calls|
        ensures Granted(c, calls, from, ip, cat) as real
             <= Get(c.rpm, cat) as real + Gain(calls[|calls| - 1].at - calls[from].at, Get(c.rpm, cat))
      {
        NothingGranted(c, calls, from, ip, cat);
        GainFacts(calls[|calls| - 1].at - calls[from].at, 0.0, Get(c.rpm, cat));
      }
    } else {
      SecondBurst(c);
    }
  }

  lemma {:induction false} NothingGranted(c: Config, calls: seq<Call>, from: nat, ip: Ip, cat: Category)
    requires ValidConfig(c) && c.maxIps == 0
    ensures Granted(c, calls, from, ip, cat) == 0 && After(c, calls).ips == map[]
  {
    if calls != [] {
      var init, last := calls[..|calls| - 1], calls[|calls| - 1];
      NothingGranted(c, init, from, ip, cat);
      hide Draw, FreshEntry, KeyEntryAt, KeyRpm;
    }
  }

  lemma BurstsInOrder(n: nat, t: real)
    requires n > 0 && t > 0.0
    ensures var run := Drain(n, 0.0) + [SweepAt(t)] + Drain(n, t);
      InOrder(run) && run[|run| - 1].at == t && run[0].at == 0.0
  {}

  lemma FreshSlot(c: Config, t: real)
    requires ValidConfig(c)
    ensures Drained(c, Empty, c.rpm.authFail, t) && Get(c.rpm, AuthFail) == c.rpm.authFail > 0
  {
    EmptyAlike(c, t, {""}, {});
  }

  lemma SecondBurst(c: Config)
    requires ValidConfig(c) && c.maxIps >= 1 && c.idleSweepSec < 60
    ensures !RateBounded(c)
  {
    hide Apply, Drained, Gain, Granted, Drain, After, Get, InOrder, RateBounded, ValidConfig;
    var calls, t := SweptEarly(c);
    var n, swept := c.rpm.authFail, calls + [SweepAt(t)];
    var run := swept + Drain(n, t);
    FreshSlot(c, t);
    BurstsInOrder(n, t);
    GrantedSnoc(c, calls, SweepAt(t), "", AuthFail);
    DrainFrom(c, swept, n, t);
    GainFacts(t, 0.0, n);
    Exceeded(c, run, n, t);
  }

  lemma Exceeded(c: Config, run: seq<Call>, n: nat, t: real)
    requires ValidConfig(c) && InOrder(run) && run != [] && run[|run| - 1].at == t && run[0].at == 0.0
    requires Get(c.rpm, AuthFail) == n && Gain(t, n) < n as real && Granted(c, run, 0, "", AuthFail) == 2 * n
    ensures !RateBounded(c)
  {
    hide Gain, Granted, InOrder, Get;
    assert t - 0.0 == t;
  }

  // ---------- the answers are exact ----------

  /** The clock `n` seconds after `t`, in milliseconds. */
  function InSeconds(t: real, n: int): real {
    t + 1000.0 * n as real
  }

  lemma WaitIp(c: Config, s: Limiter, ip: Ip, cat: Category, t: real, wait: int)
    requires SoundAt(c, s, t) && wait >= 0
    ensures SoundAt(c, s, InSeconds(t, wait))
    ensures IpLevel(c, s, ip, cat, InSeconds(t, wait))
         == Min(Get(c.rpm, cat) as real, IpLevel(c, s, ip, cat, t) + Earned(wait, Get(c.rpm, cat)))
  {
    hide Gain, IpLevel, SoundAt, Get, Earned;
    var u := InSeconds(t, wait);
    SoundLater(c, s, t, u);
    IpLevelLater(c, s, ip, cat, t, u);
    WholeSeconds(wait, Get(c.rpm, cat));
    assert u - t == 1000.0 * wait as real;
  }

  lemma ScaledOrder(missing: real, x: real, q: real, y: real)
    requires x > 0.0 && q * x == missing * 60.0
    ensures y < q <==> y * x / 60.0 < missing
    ensures missing > 0.0 ==> q > 0.0
  {
    assert (q - y) * x == q * x - y * x;
  }

  /** Seconds of waiting against the ceiling: `r` is enough, `r - 1` is not. */
  lemma WaitEnough(missing: real, rpm: nat, r: int)
    requires rpm > 0 && r == Ceil(missing * 60.0 / (rpm as real))
    ensures Earned(r, rpm) >= missing > Earned(r - 1, rpm)
    ensures missing > 0.0 ==> r >= 1
  {
    var x, q := rpm as real, missing * 60.0 / (rpm as real);
    CeilFacts(q);
    ScaledOrder(missing, x, q, r as real);
    ScaledOrder(missing, x, q, (r - 1) as real);
  }

  lemma RetryEnough(level: real, rpm: nat)
    requires rpm > 0 && level < 1.0
    ensures var r := RetrySec(level, rpm);
            r >= 1 && level + Earned(r, rpm) >= 1.0 && level + Earned(r - 1, rpm) < 1.0
  {
    hide Earned, Ceil;
    WaitEnough(1.0 - level, rpm, Ceil((1.0 - level) * 60.0 / (rpm as real)));
  }

  lemma FullEnough(level: real, rpm: nat)
    requires rpm > 0 && level <= rpm as real - 1.0
    ensures var r := FullSec(level, rpm);
            r >= 1 && level + Earned(r, rpm) >= rpm as real > level + Earned(r - 1, rpm)
  {
    hide Earned, Ceil;
    var missing := rpm as real - level;
    assert (missing / (rpm as real)) * 60.0 == missing * 60.0 / (rpm as real);
    WaitEnough(missing, rpm, FullSec(level, rpm));
  }

  lemma CheckAnswers(c: Config, s: Limiter, ip: Ip, cat: Category, t: real)
    requires ValidConfig(c) && !c.disabled && SoundAt(c, s, t) && Admits(s.ips, ip, c.maxIps)
    ensures Check(c, s, ip, cat, t).1 == Answer(IpLevel(c, s, ip, cat, t), Get(c.rpm, cat))
  {
    DrawIpByLevel(c, s, ip, cat, t);
  }

  /** When a check some seconds later is served, by the level now. */
  lemma ServedLater(c: Config, s: Limiter, ip: Ip, cat: Category, t: real, wait: int)
    requires ValidConfig(c) && !c.disabled && SoundAt(c, s, t) && Admits(s.ips, ip, c.maxIps) && wait >= 0
    ensures
      var reply := Check(c, s, ip, cat, InSeconds(t, wait)).1;
      var enough := IpLevel(c, s, ip, cat, t) + Earned(wait, Get(c.rpm, cat)) >= 1.0;
      (enough ==> reply.Allowed?) && (!enough ==> reply.Denied? && reply.reason == Rate)
  {
    assert Get(c.rpm, cat) >= 1;
    hide Check, IpLevel, SoundAt, Get, RetrySec, FullSec, Earned, InSeconds, ValidConfig, Admits;
    WaitIp(c, s, ip, cat, t, wait);
    CheckAnswers(c, s, ip, cat, InSeconds(t, wait));
  }

  /** What a check says about its slot, by the level it leaves. */
  lemma CheckSays(c: Config, s: Limiter, ip: Ip, cat: Category, t: real)
    requires ValidConfig(c) && SoundAt(c, s, t)
    requires var reply := Check(c, s, ip, cat, t).1; reply.Allowed? || (reply.Denied? && reply.reason == Rate)
    ensures
      var (s', reply) := Check(c, s, ip, cat, t);
      var level := IpLevel(c, s', ip, cat, t);
      && !c.disabled && SoundAt(c, s', t) && Admits(s'.ips, ip, c.maxIps)
      && level <= Get(c.rpm, cat) as real && (reply.Allowed? ==> level <= Get(c.rpm, cat) as real - 1.0)
      && (reply.Denied? ==> level < 1.0 && reply.resetSec == RetrySec(level, Get(c.rpm, cat)))
      && (reply.Allowed? ==> reply.remaining == level.Floor && reply.resetSec == FullSec(level, Get(c.rpm, cat)))
  {
    assert Get(c.rpm, cat) > 0;
    if !Admits(s.ips, ip, c.maxIps) { DrawIpAtCap(c, s, ip, cat, t); }
    hide DrawIp, IpLevel, SoundAt, Get, RetrySec, FullSec, ValidConfig;
    DrawIpByLevel(c, s, ip, cat, t);
    IpLevelLater(c, s, ip, cat, t, t);
  }

  /** A denied caller who waits the announced seconds is served, and no shorter wait would do. */
  lemma RetryIsExact(c: Config, s: Limiter, ip: Ip, cat: Category, t: real)
    requires ValidConfig(c) && SoundAt(c, s, t)
    requires Check(c, s, ip, cat, t).1.Denied? && Check(c, s, ip, cat, t).1.reason == Rate
    ensures
      var (s', denied) := Check(c, s, ip, cat, t);
      && denied.resetSec >= 1
      && Check(c, s', ip, cat, InSeconds(t, denied.resetSec)).1.Allowed?
      && (denied.resetSec > 1 ==>
            var early := Check(c, s', ip, cat, InSeconds(t, denied.resetSec - 1)).1;
            early.Denied? && early.reason == Rate)
  {
    assert Get(c.rpm, cat) > 0;
    CheckSays(c, s, ip, cat, t);
    hide Check, IpLevel, SoundAt, Get, RetrySec, FullSec, Earned, InSeconds, ValidConfig, Admits;
    var (s', denied) := Check(c, s, ip, cat, t);
    var r := denied.resetSec;
    RetryEnough(IpLevel(c, s', ip, cat, t), Get(c.rpm, cat));
    ServedLater(c, s', ip, cat, t, r);
    if r > 1 { ServedLater(c, s', ip, cat, t, r - 1); }
  }

  /** An allowed caller's announced seconds are the least whole number after which the slot is full. */
  lemma ResetIsExact(c: Config, s: Limiter, ip: Ip, cat: Category, t: real)
    requires ValidConfig(c) && SoundAt(c, s, t) && Check(c, s, ip, cat, t).1.Allowed?
    ensures
      var (s', allowed) := Check(c, s, ip, cat, t);
      && allowed.resetSec >= 1
      && IpLevel(c, s', ip, cat, InSeconds(t, allowed.resetSec)) == Get(c.rpm, cat) as real
      && IpLevel(c, s', ip, cat, InSeconds(t, allowed.resetSec - 1)) < Get(c.rpm, cat) as real
  {
    assert Get(c.rpm, cat) > 0;
    CheckSays(c, s, ip, cat, t);
    hide Check, IpLevel, SoundAt, Get, RetrySec, FullSec, Earned, InSeconds, ValidConfig, Admits;
    var (s', allowed) := Check(c, s, ip, cat, t);
    var r := allowed.resetSec;
    FullEnough(IpLevel(c, s', ip, cat, t), Get(c.rpm, cat));
    WaitIp(c, s', ip, cat, t, r);
    WaitIp(c, s', ip, cat, t, r - 1);
  }

  // The same two facts for a key's bucket.

  lemma WaitKey(c: Config, s: Limiter, k: KeyId, t: real, wait: int)
    requires SoundAt(c, s, t) && wait >= 0
    ensures SoundAt(c, s, InSeconds(t, wait))
    ensures KeyLevel(c, s, k, InSeconds(t, wait)) == Min(Limit(c, k) as real, KeyLevel(c, s, k, t) + Earned(wait, Limit(c, k)))
  {
    hide Gain, KeyLevel, SoundAt, Limit, Earned;
    var u := InSeconds(t, wait);
    SoundLater(c, s, t, u);
    KeyLevelLater(c, s, k, t, u);
    WholeSeconds(wait, Limit(c, k));
    assert u - t == 1000.0 * wait as real;
  }

  lemma CheckKeyAnswers(c: Config, s: Limiter, k: KeyId, t: real)
    requires !c.disabled && SoundAt(c, s, t) && Admits(s.keys, k, c.maxIps) && Limit(c, k) > 0
    ensures CheckKey(c, s, k, true, t).1 == Answer(KeyLevel(c, s, k, t), Limit(c, k))
  {
    CheckKeyByLevel(c, s, k, true, t);
  }

  lemma KeyServedLater(c: Config, s: Limiter, k: KeyId, t: real, wait: int)
    requires !c.disabled && SoundAt(c, s, t) && Admits(s.keys, k, c.maxIps) && Limit(c, k) > 0 && wait >= 0
    ensures
      var reply := CheckKey(c, s, k, true, InSeconds(t, wait)).1;
      var enough := KeyLevel(c, s, k, t) + Earned(wait, Limit(c, k)) >= 1.0;
      (enough ==> reply.Allowed?) && (!enough ==> reply.Denied? && reply.reason == Rate)
  {
    hide CheckKey, KeyLevel, SoundAt, Limit, RetrySec, FullSec, Earned, InSeconds, Admits;
    WaitKey(c, s, k, t, wait);
    CheckKeyAnswers(c, s, k, InSeconds(t, wait));
  }

  lemma CheckKeySays(c: Config, s: Limiter, k: KeyId, t: real)
    requires SoundAt(c, s, t)
    requires var reply := CheckKey(c, s, k, true, t).1; reply.Allowed? || (reply.Denied? && reply.reason == Rate)
    ensures
      var (s', reply) := CheckKey(c, s, k, true, t);
      var level := KeyLevel(c, s', k, t);
      && !c.disabled && SoundAt(c, s', t) && Admits(s'.keys, k, c.maxIps) && Limit(c, k) > 0
      && level <= Limit(c, k) as real && (reply.Allowed? ==> level <= Limit(c, k) as real - 1.0)
      && (reply.Denied? ==> level < 1.0 && reply.resetSec == RetrySec(level, Limit(c, k)))
      && (reply.Allowed? ==> reply.remaining == level.Floor && reply.resetSec == FullSec(level, Limit(c, k)))
  {
    assert Limit(c, k) == KeyRpm(c, k, true);
    hide CheckKey, KeyLevel, SoundAt, Limit, KeyRpm, RetrySec, FullSec;
    if c.disabled || KeyRpm(c, k, true) == 0 || !Admits(s.keys, k, c.maxIps) {
      CheckKeyIdle(c, s, k, true, t);
    } else {
      CheckKeyByLevel(c, s, k, true, t);
      KeyLevelLater(c, s, k, t, t);
    }
  }

  lemma KeyRetryIsExact(c: Config, s: Limiter, k: KeyId, t: real)
    requires SoundAt(c, s, t)
    requires CheckKey(c, s, k, true, t).1.Denied? && CheckKey(c, s, k, true, t).1.reason == Rate
    ensures
      var (s', denied) := CheckKey(c, s, k, true, t);
      && denied.resetSec >= 1
      && CheckKey(c, s', k, true, InSeconds(t, denied.resetSec)).1.Allowed?
      && (denied.resetSec > 1 ==> CheckKey(c, s', k, true, InSeconds(t, denied.resetSec - 1)).1.Denied?)
  {
    CheckKeySays(c, s, k, t);
    hide CheckKey, KeyLevel, SoundAt, Limit, RetrySec, FullSec, Earned, InSeconds, Admits, KeyRpm;
    var (s', denied) := CheckKey(c, s, k, true, t);
    var r := denied.resetSec;
    RetryEnough(KeyLevel(c, s', k, t), Limit(c, k));
    KeyServedLater(c, s', k, t, r);
    if r > 1 { KeyServedLater(c, s', k, t, r - 1); }
  }

  lemma KeyResetIsExact(c: Config, s: Limiter, k: KeyId, t: real)
    requires SoundAt(c, s, t) && CheckKey(c, s, k, true, t).1.Allowed?
    ensures
      var (s', allowed) := CheckKey(c, s, k, true, t);
      && allowed.resetSec >= 1
      && KeyLevel(c, s', k, InSeconds(t, allowed.resetSec)) == Limit(c, k) as real
      && KeyLevel(c, s', k, InSeconds(t, allowed.resetSec - 1)) < Limit(c, k) as real
  {
    CheckKeySays(c, s, k, t);
    hide CheckKey, KeyLevel, SoundAt, Limit, RetrySec, FullSec, Earned, InSeconds, Admits, KeyRpm;
    var (s', allowed) := CheckKey(c, s, k, true, t);
    var r := allowed.resetSec;
    FullEnough(KeyLevel(c, s', k, t), Limit(c, k));
    WaitKey(c, s', k, t, r);
    WaitKey(c, s', k, t, r - 1);
  }

  /** The limiter after `n` calls for one key at the same moment. */
  function Burst(c: Config, s: Limiter, k: KeyId, issue: bool, t: real, n: nat): Limiter {
    if n == 0 then s else CheckKey(c, Burst(c, s, k, issue, t, n - 1), k, issue, t).0
  }

  lemma {:induction false} BurstLevel(c: Config, s: Limiter, k: KeyId, issue: bool, t: real, n: nat)
    requires SoundAt(c, s, t) && Admits(s.keys, k, c.maxIps) && !c.disabled && KeyRpm(c, k, issue) > 0
    requires n as real <= KeyLevel(c, s, k, t)
    ensures SoundAt(c, Burst(c, s, k, issue, t, n), t) && Admits(Burst(c, s, k, issue, t, n).keys, k, c.maxIps)
    ensures KeyLevel(c, Burst(c, s, k, issue, t, n), k, t) == KeyLevel(c, s, k, t) - n as real
  {
    hide CheckKey, SoundAt, KeyLevel, KeyRpm;
    if n > 0 {
      BurstLevel(c, s, k, issue, t, n - 1);
      CheckKeyByLevel(c, Burst(c, s, k, issue, t, n - 1), k, issue, t);
    }
  }

  /** A snapshot of `q` tokens means that exactly the next `q` immediate calls are served. */
  lemma QuotaIsExact(c: Config, s: Limiter, k: KeyId, issue: bool, t: real, n: nat)
    requires SoundAt(c, s, t) && Admits(s.keys, k, c.maxIps)
    requires QuotaSnapshot(c, s, k, issue, t).Quota? && n <= QuotaSnapshot(c, s, k, issue, t).tokens
    ensures CheckKey(c, Burst(c, s, k, issue, t, n), k, issue, t).1.Allowed?
       <==> n < QuotaSnapshot(c, s, k, issue, t).tokens
  {
    SnapshotByLevel(c, s, k, issue, t);
    BurstLevel(c, s, k, issue, t, n);
    hide CheckKey, SoundAt, KeyLevel, KeyRpm, QuotaSnapshot, Burst;
    CheckKeyByLevel(c, Burst(c, s, k, issue, t, n), k, issue, t);
  }

  /** The snapshot tells the truth about the next call exactly when the key is known or there is room for it. */
  lemma QuotaHonestIff(c: Config, s: Limiter, k: KeyId, issue: bool, t: real)
    requires SoundAt(c, s, t) && QuotaSnapshot(c, s, k, issue, t).Quota?
    ensures (CheckKey(c, s, k, issue, t).1.Allowed? <==> QuotaSnapshot(c, s, k, issue, t).tokens >= 1)
       <==> Admits(s.keys, k, c.maxIps)
  {
    if Admits(s.keys, k, c.maxIps) {
      SnapshotByLevel(c, s, k, issue, t);
      KeyLevelLater(c, s, k, t, t);
      QuotaIsExact(c, s, k, issue, t, 0);
    } else {
      CheckKeyIdle(c, s, k, issue, t);
    }
  }
}
