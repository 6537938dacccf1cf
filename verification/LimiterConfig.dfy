/** What the limiter promises in terms of the fields of its configuration. */
module LimiterConfig {
  import opened LimiterModel
  import opened LimiterLevels
  import opened LimiterRuns
  import opened LimiterTheorems

  // ---------- keys ----------

  /** The configuration limits this operation on this key to `r` a minute: by the key's override, or by the issue default. */
  predicate LimitedTo(c: Config, k: KeyId, issue: bool, r: nat) {
    r > 0 && if k in c.overrides then c.overrides[k] == r else issue && c.issueRpm == r
  }

  /** An override of 0, no override and another operation than issuing, or no override and no default. */
  predicate Unlimited(c: Config, k: KeyId, issue: bool) {
    if k in c.overrides then c.overrides[k] == 0 else !issue || c.issueRpm == 0
  }

  predicate Names(reply: Reply, limit: nat) {
    (reply.Allowed? || reply.Denied?) && reply.limit == limit
  }

  /**
   A key call is waved through, leaving no trace, if and only if the limiter is off or the configuration sets no limit for
   it; the snapshot then has no quota. Otherwise its verdict names the configured limit, and the snapshot has it as capacity.
   */
  lemma KeyCallsFollowConfig(c: Config, s: Limiter, k: KeyId, issue: bool, r: nat, t: real)
    requires SoundAt(c, s, t)
    ensures var (s', reply), quota := CheckKey(c, s, k, issue, t), QuotaSnapshot(c, s, k, issue, t);
      && (reply.Bypass? <==> c.disabled || Unlimited(c, k, issue))
      && (quota.NoQuota? <==> c.disabled || Unlimited(c, k, issue))
      && (reply.Bypass? ==> s' == s)
      && (!c.disabled && LimitedTo(c, k, issue, r) ==> Names(reply, r) && quota.Quota? && quota.capacity == r as real)
  {
    hide Refill, Ceil, Gain;
  }

  /** `r` for each minute, of 60000 milliseconds, from `t` to `u`. */
  function PerMinutes(r: nat, t: real, u: real): real {
    r as real * ((u - t) / 60000.0)
  }

  lemma PerMinutesGained(r: nat, t: real, u: real)
    ensures Gain(u - t, r) == PerMinutes(r, t, u)
  {
  }

  /**
   In every window of every run a key with a limit is granted at most that limit, plus that limit for each minute; which
   limit, its override says, or the issue default if it has none.
   */
  lemma KeyGrantsFollowConfig(c: Config, calls: seq<Call>, from: nat, k: KeyId, r: nat)
    requires ValidConfig(c) && InOrder(calls) && from < |calls| && c.idleSweepSec >= 60
    requires if k in c.overrides then c.overrides[k] == r else c.issueRpm == r
    ensures GrantedKey(c, calls, from, k) as real
         <= r as real + PerMinutes(r, calls[from].at, calls[|calls| - 1].at)
  {
    assert Limit(c, k) == r;
    hide GrantedKey, InOrder, Gain, Limit, KeyRpm, PerMinutes, ValidConfig;
    KeyRateBound(c, calls, from, k);
    PerMinutesGained(r, calls[from].at, calls[|calls| - 1].at);
  }

  /** A key that no operation limits is never refused, never counted, and never has an entry. */
  lemma {:induction false} UnlimitedKeysLeaveNoEntry(c: Config, calls: seq<Call>, from: nat, k: KeyId)
    requires ValidConfig(c) && Unlimited(c, k, true)
    ensures k !in After(c, calls).keys && GrantedKey(c, calls, from, k) == 0
  {
    if calls != [] {
      var init, last := calls[..|calls| - 1], calls[|calls| - 1];
      UnlimitedKeysLeaveNoEntry(c, init, from, k);
      UnlimitedStep(c, After(c, init), last, k);
    }
  }

  lemma UnlimitedStep(c: Config, s: Limiter, call: Call, k: KeyId)
    requires ValidConfig(c) && Unlimited(c, k, true) && k !in s.keys
    ensures k !in Apply(c, s, call).0.keys && (OnKey(call, k) ==> Apply(c, s, call).1.Bypass?)
  {
    hide Draw, Refill;
  }

  /** A key not seen before gets exactly its limit of calls at one moment; the next one is told to wait 60/r seconds, rounded up. */
  lemma FirstBurstFollowsConfig(c: Config, s: Limiter, k: KeyId, issue: bool, r: nat, t: real, n: nat)
    requires SoundAt(c, s, t) && !c.disabled && LimitedTo(c, k, issue, r)
    requires k !in s.keys && |s.keys| < c.maxIps && n <= r
    ensures var reply := CheckKey(c, Burst(c, s, k, issue, t, n), k, issue, t).1;
      && (reply.Allowed? <==> n < r)
      && (n == r ==> reply.Denied? && reply.reason == Rate && 60 <= reply.resetSec * r < 60 + r)
  {
    FreshQuota(c, s, k, issue, r, t);
    QuotaIsExact(c, s, k, issue, t, n);
    if n == r {
      BurstLevel(c, s, k, issue, t, n);
      hide SoundAt, KeyLevel;
      CheckKeyByLevel(c, Burst(c, s, k, issue, t, n), k, issue, t);
      EmptyRetry(r);
    }
  }

  lemma FreshQuota(c: Config, s: Limiter, k: KeyId, issue: bool, r: nat, t: real)
    requires !c.disabled && LimitedTo(c, k, issue, r) && k !in s.keys
    ensures QuotaSnapshot(c, s, k, issue, t) == Quota(r, r as real) && KeyLevel(c, s, k, t) == r as real
    ensures KeyRpm(c, k, issue) == Limit(c, k) == r
  {
  }

  lemma EmptyRetry(r: nat)
    requires r > 0
    ensures 60 <= RetrySec(0.0, r) * r < 60 + r
  {
    var x, y := (1.0 - 0.0) * 60.0 / (r as real), r as real;
    var n := RetrySec(0.0, r);
    CeilFacts(x);
    assert x * y == 60.0;
    hide Ceil, RetrySec;
    WholeWait(x, n as real, y);
    Product(n, r);
  }

  lemma WholeWait(x: real, z: real, y: real)
    requires y >= 1.0 && x * y == 60.0 && x <= z && (z < x + 1.0 || z == 1.0)
    ensures 60.0 <= z * y < 60.0 + y
  {
    Scaled(x, z, y);
    Scaled(z, x + 1.0, y);
    PlusOne(x, y);
  }

  lemma PlusOne(x: real, y: real)
    ensures (x + 1.0) * y == x * y + y
  {
  }

  lemma Product(n: int, r: nat)
    ensures (n * r) as real == n as real * r as real
  {
  }

  lemma Scaled(a: real, b: real, r: real)
    requires r > 0.0
    ensures a <= b ==> a * r <= b * r
    ensures a < b ==> a * r < b * r
  {
  }

  /**
   A limit that has changed since the last call: the bucket is cut down to the new limit if it holds more and gains nothing
   by the change; the verdict goes by what is left.
   */
  lemma ChangedLimit(c: Config, s: Limiter, k: KeyId, issue: bool, r: nat, t: real)
    requires !c.disabled && LimitedTo(c, k, issue, r)
    requires k in s.keys && s.keys[k].rpm != r && s.keys[k].bucket.lastRefill == t
    ensures var (s', reply) := CheckKey(c, s, k, issue, t);
      var left := if s.keys[k].bucket.tokens < r as real then s.keys[k].bucket.tokens else r as real;
      && Names(reply, r) && (reply.Allowed? <==> left >= 1.0)
      && s'.ips == s.ips && s'.keys.Keys == s.keys.Keys
      && s'.keys[k] == KeyEntry(Bucket(if reply.Allowed? then left - 1.0 else left, t, r as real), t, r)
  {
    hide RetrySec, ResetSec;
  }

  const STRICT := Config(false, PerCategory(600, 120, 60, 10), 60, map["k" := 1], 100000, 300)

  /** A limit of 1 a minute overrides the default of 60: the second call is refused for a minute, to the millisecond. */
  lemma OverrideBeatsDefault(s: Limiter)
    requires s == Empty
    ensures var (s1, first) := CheckKey(STRICT, s, "k", true, 0.0);
      && first == Allowed(0, 1, 60)
      && CheckKey(STRICT, s1, "k", true, 0.0).1 == Denied(Rate, 1, 60)
      && QuotaSnapshot(STRICT, s1, "k", true, 0.0) == Quota(0, 1.0)
      && CheckKey(STRICT, s1, "k", true, 59999.0).1.Denied?
      && CheckKey(STRICT, s1, "k", true, 60000.0).1 == Allowed(0, 1, 60)
    ensures var other := CheckKey(STRICT, s, "other", true, 0.0).1; other.Allowed? && other.limit == 60 && other.remaining == 59
    ensures CheckKey(STRICT, s, "other", false, 0.0).1 == Bypass
  {
    FirstOfOne(s);
    OthersGetDefault(s);
    var s1 := CheckKey(STRICT, s, "k", true, 0.0).0;
    hide CheckKey;
    SecondOfOne(s1);
  }

  lemma FirstOfOne(s: Limiter)
    requires s == Empty
    ensures CheckKey(STRICT, s, "k", true, 0.0)
         == (Limiter(map[], map["k" := KeyEntry(Bucket(0.0, 0.0, 1.0), 0.0, 1)]), Allowed(0, 1, 60))
  {
  }

  lemma SecondOfOne(s: Limiter)
    requires s == Limiter(map[], map["k" := KeyEntry(Bucket(0.0, 0.0, 1.0), 0.0, 1)])
    ensures CheckKey(STRICT, s, "k", true, 0.0).1 == Denied(Rate, 1, 60)
    ensures QuotaSnapshot(STRICT, s, "k", true, 0.0) == Quota(0, 1.0)
    ensures CheckKey(STRICT, s, "k", true, 59999.0).1.Denied?
    ensures CheckKey(STRICT, s, "k", true, 60000.0).1 == Allowed(0, 1, 60)
  {
  }

  lemma OthersGetDefault(s: Limiter)
    requires s == Empty
    ensures var other := CheckKey(STRICT, s, "other", true, 0.0).1; other.Allowed? && other.limit == 60 && other.remaining == 59
    ensures CheckKey(STRICT, s, "other", false, 0.0).1 == Bypass
  {
    hide ResetSec;
  }

  // ---------- addresses ----------

  /**
   An address check names its own category's limit, with the limits off it is waved through and leaves no trace; at the
   cap a new address is refused for a minute and leaves none either. A failed authentication is counted even then.
   */
  lemma AddressCallsFollowConfig(c: Config, s: Limiter, ip: Ip, cat: Category, t: real)
    requires ValidConfig(c)
    ensures var (s', reply) := Check(c, s, ip, cat, t);
      && (reply.Bypass? <==> c.disabled) && (reply.Bypass? ==> s' == s)
      && (!c.disabled && cat == Public ==> Names(reply, c.rpm.public))
      && (!c.disabled && cat == Verify ==> Names(reply, c.rpm.verify))
      && (!c.disabled && cat == Admin ==> Names(reply, c.rpm.admin))
      && (!c.disabled && cat == AuthFail ==> Names(reply, c.rpm.authFail))
      && (!c.disabled && ip !in s.ips && |s.ips| >= c.maxIps ==> s' == s && reply.Denied? && reply.resetSec == 60 && reply.reason == Cap)
    ensures var (s', reply) := RecordAuthFail(c, s, ip, t);
      && Names(reply, c.rpm.authFail) && (reply.Allowed? ==> reply.resetSec == 0)
      && (ip !in s.ips && |s.ips| >= c.maxIps ==> s' == s && reply.Denied? && reply.resetSec == 60 && reply.reason == Cap)
  {
    hide Refill, Ceil;
  }

  /** The limit of a category, as the configuration names it. */
  predicate CategoryLimit(c: Config, cat: Category, r: nat) {
    && (cat == Public ==> r == c.rpm.public) && (cat == Verify ==> r == c.rpm.verify)
    && (cat == Admin ==> r == c.rpm.admin) && (cat == AuthFail ==> r == c.rpm.authFail)
  }

  /** In every window of every run an address is granted at most its category's limit, plus that limit for each minute. */
  lemma AddressGrantsFollowConfig(c: Config, calls: seq<Call>, from: nat, ip: Ip, cat: Category, r: nat)
    requires ValidConfig(c) && InOrder(calls) && from < |calls| && c.idleSweepSec >= 60 && CategoryLimit(c, cat, r)
    ensures Granted(c, calls, from, ip, cat) as real
         <= r as real + PerMinutes(r, calls[from].at, calls[|calls| - 1].at)
  {
    assert Get(c.rpm, cat) == r;
    hide Granted, InOrder, Gain, Get, PerMinutes, ValidConfig;
    SlotRateBound(c, calls, from, ip, cat);
    PerMinutesGained(r, calls[from].at, calls[|calls| - 1].at);
  }
}
