/** The token-bucket limiter: what each call returns and leaves behind. Times are milliseconds, over the reals. */
module LimiterModel {
  type Ip = string
  type KeyId = string

  datatype Category = Public | Verify | Admin | AuthFail

  /** One value per category. */
  datatype PerCategory<T> = PerCategory(public: T, verify: T, admin: T, authFail: T)

  function Get<T>(x: PerCategory<T>, cat: Category): T {
    match cat case Public => x.public case Verify => x.verify case Admin => x.admin case AuthFail => x.authFail
  }

  function Put<T>(x: PerCategory<T>, cat: Category, v: T): PerCategory<T> {
    match cat
    case Public => x.(public := v)
    case Verify => x.(verify := v)
    case Admin => x.(admin := v)
    case AuthFail => x.(authFail := v)
  }

  datatype Config = Config(
    disabled: bool, rpm: PerCategory<nat>, issueRpm: nat, overrides: map<KeyId, nat>, maxIps: nat, idleSweepSec: nat)

  datatype Bucket = Bucket(tokens: real, lastRefill: real, capacity: real)

  datatype Entry = Entry(buckets: PerCategory<Bucket>, lastSeen: real)

  datatype KeyEntry = KeyEntry(bucket: Bucket, lastSeen: real, rpm: nat)

  datatype Limiter = Limiter(ips: map<Ip, Entry>, keys: map<KeyId, KeyEntry>)

  datatype Reason = Rate | Cap

  datatype Reply =
    | Bypass
    | Allowed(remaining: int, limit: nat, resetSec: int)
    | Denied(reason: Reason, limit: nat, resetSec: int)
    | Quota(tokens: int, capacity: real)
    | NoQuota

  const MINUTE: real := 60000.0

  function Min(a: real, b: real): real {
    if a < b then a else b
  }

  function Ceil(x: real): int {
    -(-x).Floor
  }

  /** Tokens earned in `elapsed` milliseconds. */
  function Gain(elapsed: real, rpm: nat): real {
    (elapsed / MINUTE) * (rpm as real)
  }

  function NewBucket(rpm: nat, now: real): Bucket {
    Bucket(rpm as real, now, rpm as real)
  }

  function Refill(b: Bucket, rpm: nat, now: real): Bucket {
    var elapsed := now - b.lastRefill;
    if elapsed <= 0.0 then b
    else
      var add := Gain(elapsed, rpm);
      if add > 0.0 then b.(tokens := Min(b.capacity, b.tokens + add), lastRefill := now) else b
  }

  function RetrySec(tokens: real, rpm: nat): int
    requires rpm > 0
  {
    var r := Ceil((1.0 - tokens) * 60.0 / (rpm as real));
    if r < 1 then 1 else r
  }

  function ResetSec(b: Bucket, rpm: nat): int
    requires rpm > 0
  {
    Ceil(((b.capacity - b.tokens) / (rpm as real)) * 60.0)
  }

  /** Refill, then take one token if there is one. */
  function Draw(b: Bucket, rpm: nat, now: real): (Bucket, Reply)
    requires rpm > 0
  {
    var b := Refill(b, rpm, now);
    if b.tokens >= 1.0 then
      var b' := b.(tokens := b.tokens - 1.0);
      (b', Allowed(b'.tokens.Floor, rpm, ResetSec(b', rpm)))
    else (b, Denied(Rate, rpm, RetrySec(b.tokens, rpm)))
  }

  function FreshEntry(c: Config, now: real): Entry {
    Entry(PerCategory(NewBucket(c.rpm.public, now), NewBucket(c.rpm.verify, now),
                      NewBucket(c.rpm.admin, now), NewBucket(c.rpm.authFail, now)), now)
  }

  predicate ValidConfig(c: Config) {
    c.rpm.public > 0 && c.rpm.verify > 0 && c.rpm.admin > 0 && c.rpm.authFail > 0
  }

  /** The shared part of `check` and `recordAuthFail`. */
  function DrawIp(c: Config, s: Limiter, ip: Ip, cat: Category, now: real): (Limiter, Reply)
    requires ValidConfig(c)
  {
    if ip !in s.ips && |s.ips| >= c.maxIps then (s, Denied(Cap, Get(c.rpm, cat), 60))
    else
      var e := if ip in s.ips then s.ips[ip] else FreshEntry(c, now);
      var (b, reply) := Draw(Get(e.buckets, cat), Get(c.rpm, cat), now);
      (s.(ips := s.ips[ip := Entry(Put(e.buckets, cat, b), now)]), reply)
  }

  function Check(c: Config, s: Limiter, ip: Ip, cat: Category, now: real): (Limiter, Reply)
    requires ValidConfig(c)
  {
    if c.disabled then (s, Bypass) else DrawIp(c, s, ip, cat, now)
  }

  /** Counts a failed authentication even when limits are disabled; its allowed verdict says reset in 0 s. */
  function RecordAuthFail(c: Config, s: Limiter, ip: Ip, now: real): (Limiter, Reply)
    requires ValidConfig(c)
  {
    var (s', reply) := DrawIp(c, s, ip, AuthFail, now);
    (s', if reply.Allowed? then Allowed(reply.remaining, reply.limit, 0) else reply)
  }

  function KeyRpm(c: Config, k: KeyId, issue: bool): nat {
    if k in c.overrides then c.overrides[k] else if issue then c.issueRpm else 0
  }

  /** A bucket whose limit was changed is cut down to the new one. */
  function KeyEntryAt(s: Limiter, k: KeyId, rpm: nat, now: real): KeyEntry {
    if k !in s.keys then KeyEntry(NewBucket(rpm, now), now, rpm)
    else
      var e := s.keys[k];
      if e.rpm == rpm then e
      else KeyEntry(e.bucket.(capacity := rpm as real, tokens := Min(e.bucket.tokens, rpm as real)), e.lastSeen, rpm)
  }

  function CheckKey(c: Config, s: Limiter, k: KeyId, issue: bool, now: real): (Limiter, Reply) {
    var rpm := KeyRpm(c, k, issue);
    if c.disabled || rpm == 0 then (s, Bypass)
    else if k !in s.keys && |s.keys| >= c.maxIps then (s, Denied(Cap, rpm, 60))
    else
      var (b, reply) := Draw(KeyEntryAt(s, k, rpm, now).bucket, rpm, now);
      (s.(keys := s.keys[k := KeyEntry(b, now, rpm)]), reply)
  }

  function QuotaSnapshot(c: Config, s: Limiter, k: KeyId, issue: bool, now: real): Reply {
    var rpm := KeyRpm(c, k, issue);
    if c.disabled || rpm == 0 then NoQuota
    else if k !in s.keys then Quota(rpm, rpm as real)
    else
      var b := s.keys[k].bucket;
      Quota(Min(b.capacity, b.tokens + Gain(now - b.lastRefill, rpm)).Floor, b.capacity)
  }

  function Cutoff(c: Config, now: real): real {
    now - (c.idleSweepSec * 1000) as real
  }

  function Sweep(c: Config, s: Limiter, now: real): Limiter {
    Limiter(s.ips - (set ip | ip in s.ips && s.ips[ip].lastSeen < Cutoff(c, now)),
            s.keys - (set k | k in s.keys && s.keys[k].lastSeen < Cutoff(c, now)))
  }

  // ---------- call sequences ----------

  datatype Call =
    | CheckIp(ip: Ip, cat: Category, at: real)
    | AuthFailed(ip: Ip, at: real)
    | IssueKey(key: KeyId, issue: bool, at: real)
    | Snapshot(key: KeyId, issue: bool, at: real)
    | SweepAt(at: real)

  function Apply(c: Config, s: Limiter, call: Call): (Limiter, Reply)
    requires ValidConfig(c)
  {
    match call
    case CheckIp(ip, cat, t) => Check(c, s, ip, cat, t)
    case AuthFailed(ip, t) => RecordAuthFail(c, s, ip, t)
    case IssueKey(k, issue, t) => CheckKey(c, s, k, issue, t)
    case Snapshot(k, issue, t) => (s, QuotaSnapshot(c, s, k, issue, t))
    case SweepAt(t) => (Sweep(c, s, t), NoQuota)
  }

  const Empty := Limiter(map[], map[])

  function After(c: Config, calls: seq<Call>): Limiter
    requires ValidConfig(c)
  {
    if calls == [] then Empty else Apply(c, After(c, calls[..|calls| - 1]), calls[|calls| - 1]).0
  }

  /** The replies to all calls but sweeps. */
  function Replies(c: Config, calls: seq<Call>): seq<Reply>
    requires ValidConfig(c)
  {
    if calls == [] then []
    else
      var init, last := calls[..|calls| - 1], calls[|calls| - 1];
      Replies(c, init) + if last.SweepAt? then [] else [Apply(c, After(c, init), last).1]
  }

  function WithoutSweeps(calls: seq<Call>): seq<Call> {
    if calls == [] then []
    else
      WithoutSweeps(calls[..|calls| - 1]) + if calls[|calls| - 1].SweepAt? then [] else [calls[|calls| - 1]]
  }

  /** The clock does not run backwards. */
  predicate InOrder(calls: seq<Call>) {
    forall i, j :: 0 <= i < j < |calls| ==> calls[i].at <= calls[j].at
  }
}
