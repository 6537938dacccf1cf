/** What a limiter remembers about one slot is its level: the tokens it would hold if refilled now. */
module LimiterLevels {
  import opened LimiterModel

  // ---------- arithmetic of earning tokens ----------

  lemma GainFacts(a: real, b: real, rpm: nat)
    ensures Gain(a + b, rpm) == Gain(a, rpm) + Gain(b, rpm)
    ensures a >= 0.0 ==> Gain(a, rpm) >= 0.0
    ensures a > 0.0 && rpm > 0 ==> Gain(a, rpm) > 0.0
    ensures a >= MINUTE ==> Gain(a, rpm) >= rpm as real
    ensures a < MINUTE && rpm > 0 ==> Gain(a, rpm) < rpm as real
    ensures Gain(0.0, rpm) == 0.0
  {
    var x, y, r := a / MINUTE, b / MINUTE, rpm as real;
    assert (a + b) / MINUTE == x + y;
    assert (x + y) * r == x * r + y * r;
    if a >= 0.0 { assert x >= 0.0 && x * r >= 0.0; }
    if a > 0.0 && rpm > 0 { assert x > 0.0 && x * r > 0.0; }
    if a >= MINUTE { assert x >= 1.0; assert (x - 1.0) * r >= 0.0; }
    if a < MINUTE && rpm > 0 { assert x < 1.0; assert (1.0 - x) * r > 0.0; }
  }

  lemma CeilFacts(x: real)
    ensures x <= Ceil(x) as real < x + 1.0
  {}

  /** Tokens earned in `n` whole seconds. */
  function Earned(n: int, rpm: nat): real {
    n as real * rpm as real / 60.0
  }

  /** Whole seconds until a slot of this level is full. */
  function FullSec(level: real, rpm: nat): int
    requires rpm > 0
  {
    Ceil(((rpm as real - level) / (rpm as real)) * 60.0)
  }

  lemma {:induction false} WholeSeconds(n: int, rpm: nat)
    ensures Gain(1000.0 * n as real, rpm) == Earned(n, rpm)
  {
    var x, r := n as real, rpm as real;
    assert 1000.0 * x / MINUTE == x / 60.0;
    assert (x / 60.0) * r == x * r / 60.0;
  }

  // ---------- one bucket ----------

  function Level(b: Bucket, rpm: nat, t: real): real {
    Min(b.capacity, b.tokens + Gain(t - b.lastRefill, rpm))
  }

  /** A bucket of rate `rpm` that was last touched no later than `seen`. */
  predicate Sound(b: Bucket, rpm: nat, seen: real) {
    b.capacity == rpm as real && 0.0 <= b.tokens <= b.capacity && b.lastRefill <= seen
  }

  /** What a draw answers depends on the level alone. */
  function Answer(level: real, rpm: nat): Reply
    requires rpm > 0
  {
    if level >= 1.0 then Allowed((level - 1.0).Floor, rpm, FullSec(level - 1.0, rpm))
    else Denied(Rate, rpm, RetrySec(level, rpm))
  }

  function Drawn(level: real): real {
    if level >= 1.0 then level - 1.0 else level
  }

  lemma LevelLater(b: Bucket, rpm: nat, t: real, u: real)
    requires Sound(b, rpm, t) && t <= u
    ensures Level(b, rpm, u) == Min(rpm as real, Level(b, rpm, t) + Gain(u - t, rpm))
    ensures 0.0 <= Level(b, rpm, t) <= Level(b, rpm, u) <= rpm as real
  {
    hide Gain;
    GainFacts(t - b.lastRefill, u - t, rpm);
    GainFacts(u - t, 0.0, rpm);
    assert t - b.lastRefill + (u - t) == u - b.lastRefill;
  }

  lemma LevelFull(b: Bucket, rpm: nat, seen: real, t: real)
    requires Sound(b, rpm, seen) && t - seen >= MINUTE
    ensures Level(b, rpm, t) == rpm as real
  {
    hide Gain;
    GainFacts(t - b.lastRefill, 0.0, rpm);
  }

  /** A draw reads the level, takes one token when there is one, and remembers nothing else. */
  lemma DrawByLevel(b: Bucket, rpm: nat, seen: real, now: real)
    requires rpm > 0 && Sound(b, rpm, seen) && seen <= now
    ensures
      var (b', reply) := Draw(b, rpm, now);
      var level := Level(b, rpm, now);
      Sound(b', rpm, now) && reply == Answer(level, rpm) && Level(b', rpm, now) == Drawn(level)
  {
    hide Gain, RetrySec, Ceil;
    GainFacts(now - b.lastRefill, 0.0, rpm);
    var r := Refill(b, rpm, now);
    assert r.lastRefill == now && r.tokens == Level(b, rpm, now) && r.capacity == rpm as real;
    assert Gain(now - now, rpm) == 0.0;
  }

  // ---------- the whole limiter ----------

  function IpLevel(c: Config, s: Limiter, ip: Ip, cat: Category, t: real): real {
    if ip in s.ips then Level(Get(s.ips[ip].buckets, cat), Get(c.rpm, cat), t) else Get(c.rpm, cat) as real
  }

  /** The limit of a key that has one; no key call can see another limit. */
  function Limit(c: Config, k: KeyId): nat {
    KeyRpm(c, k, true)
  }

  function KeyLevel(c: Config, s: Limiter, k: KeyId, t: real): real {
    if k in s.keys then Level(s.keys[k].bucket, Limit(c, k), t) else Limit(c, k) as real
  }

  predicate SoundEntry(c: Config, e: Entry, now: real) {
    && e.lastSeen <= now
    && Sound(e.buckets.public, c.rpm.public, e.lastSeen) && Sound(e.buckets.verify, c.rpm.verify, e.lastSeen)
    && Sound(e.buckets.admin, c.rpm.admin, e.lastSeen) && Sound(e.buckets.authFail, c.rpm.authFail, e.lastSeen)
  }

  predicate SoundKey(c: Config, k: KeyId, e: KeyEntry, now: real) {
    e.lastSeen <= now && e.rpm == Limit(c, k) > 0 && Sound(e.bucket, e.rpm, e.lastSeen)
  }

  predicate SoundAt(c: Config, s: Limiter, now: real) {
    && (forall ip | ip in s.ips :: SoundEntry(c, s.ips[ip], now))
    && (forall k | k in s.keys :: SoundKey(c, k, s.keys[k], now))
    && |s.ips| <= c.maxIps && |s.keys| <= c.maxIps
  }

  lemma SoundLater(c: Config, s: Limiter, t: real, u: real)
    requires SoundAt(c, s, t) && t <= u
    ensures SoundAt(c, s, u)
  {
    hide Sound, Limit;
  }

  lemma IpLevelLater(c: Config, s: Limiter, ip: Ip, cat: Category, t: real, u: real)
    requires SoundAt(c, s, t) && t <= u
    ensures IpLevel(c, s, ip, cat, u) == Min(Get(c.rpm, cat) as real, IpLevel(c, s, ip, cat, t) + Gain(u - t, Get(c.rpm, cat)))
    ensures 0.0 <= IpLevel(c, s, ip, cat, t) <= Get(c.rpm, cat) as real
  {
    hide Gain, Level;
    if ip in s.ips {
      assert SoundEntry(c, s.ips[ip], t);
      LevelLater(Get(s.ips[ip].buckets, cat), Get(c.rpm, cat), t, u);
    } else {
      GainFacts(u - t, 0.0, Get(c.rpm, cat));
    }
  }

  lemma KeyLevelLater(c: Config, s: Limiter, k: KeyId, t: real, u: real)
    requires SoundAt(c, s, t) && t <= u
    ensures KeyLevel(c, s, k, u) == Min(Limit(c, k) as real, KeyLevel(c, s, k, t) + Gain(u - t, Limit(c, k)))
    ensures 0.0 <= KeyLevel(c, s, k, t) <= Limit(c, k) as real
  {
    hide Gain, Level, Limit;
    if k in s.keys {
      assert SoundKey(c, k, s.keys[k], t);
      LevelLater(s.keys[k].bucket, Limit(c, k), t, u);
    } else {
      GainFacts(u - t, 0.0, Limit(c, k));
    }
  }

  // ---------- each call, by levels ----------

  predicate Admits<K, V>(entries: map<K, V>, k: K, cap: nat) {
    k in entries || |entries| < cap
  }

  lemma FreshEntrySound(c: Config, cat: Category, now: real)
    ensures SoundEntry(c, FreshEntry(c, now), now)
    ensures Level(Get(FreshEntry(c, now).buckets, cat), Get(c.rpm, cat), now) == Get(c.rpm, cat) as real
  {
    hide Gain;
    GainFacts(0.0, 0.0, Get(c.rpm, cat));
    assert now - now == 0.0;
  }

  function EntryLevel(c: Config, e: Entry, cat: Category, t: real): real {
    Level(Get(e.buckets, cat), Get(c.rpm, cat), t)
  }

  function EntryFor(c: Config, s: Limiter, ip: Ip, now: real): Entry {
    if ip in s.ips then s.ips[ip] else FreshEntry(c, now)
  }

  lemma EntryForLevel(c: Config, s: Limiter, ip: Ip, cat: Category, now: real)
    requires SoundAt(c, s, now)
    ensures SoundEntry(c, EntryFor(c, s, ip, now), now)
    ensures EntryLevel(c, EntryFor(c, s, ip, now), cat, now) == IpLevel(c, s, ip, cat, now)
    ensures Sound(Get(EntryFor(c, s, ip, now).buckets, cat), Get(c.rpm, cat), EntryFor(c, s, ip, now).lastSeen)
  {
    hide Gain, Level, Sound, Limit, FreshEntry;
    FreshEntrySound(c, cat, now);
  }

  /** What a draw does to one entry. */
  lemma DrawEntry(c: Config, e: Entry, cat: Category, now: real)
    requires ValidConfig(c) && SoundEntry(c, e, now)
    ensures
      var (b', reply) := Draw(Get(e.buckets, cat), Get(c.rpm, cat), now);
      var e' := Entry(Put(e.buckets, cat, b'), now);
      && SoundEntry(c, e', now)
      && reply == Answer(EntryLevel(c, e, cat, now), Get(c.rpm, cat))
      && EntryLevel(c, e', cat, now) == Drawn(EntryLevel(c, e, cat, now))
      && (forall cat' | cat' != cat :: EntryLevel(c, e', cat', now) == EntryLevel(c, e, cat', now))
  {
    hide Draw, Level, Answer, Drawn;
    DrawByLevel(Get(e.buckets, cat), Get(c.rpm, cat), e.lastSeen, now);
  }

  lemma SoundWithEntry(c: Config, s: Limiter, ip: Ip, e: Entry, now: real)
    requires SoundAt(c, s, now) && SoundEntry(c, e, now) && Admits(s.ips, ip, c.maxIps)
    ensures SoundAt(c, Limiter(s.ips[ip := e], s.keys), now)
  {
    hide SoundEntry, SoundKey;
    SizeAfterInsert(s.ips, ip, e);
  }

  lemma SoundWithKey(c: Config, s: Limiter, k: KeyId, e: KeyEntry, now: real)
    requires SoundAt(c, s, now) && SoundKey(c, k, e, now) && Admits(s.keys, k, c.maxIps)
    ensures SoundAt(c, Limiter(s.ips, s.keys[k := e]), now)
  {
    hide SoundEntry, SoundKey;
    SizeAfterInsert(s.keys, k, e);
  }

  /** Replacing one entry moves no level but those that changed in the entry. */
  lemma OtherLevels(c: Config, s: Limiter, ip: Ip, e: Entry, cat: Category, now: real)
    requires SoundAt(c, s, now)
    requires forall cat' | cat' != cat :: EntryLevel(c, e, cat', now) == EntryLevel(c, EntryFor(c, s, ip, now), cat', now)
    ensures var s' := Limiter(s.ips[ip := e], s.keys);
            && IpLevel(c, s', ip, cat, now) == EntryLevel(c, e, cat, now)
            && forall ip', cat' | ip' != ip || cat' != cat :: IpLevel(c, s', ip', cat', now) == IpLevel(c, s, ip', cat', now)
  {
    var s' := Limiter(s.ips[ip := e], s.keys);
    forall ip', cat' | ip' != ip || cat' != cat ensures IpLevel(c, s', ip', cat', now) == IpLevel(c, s, ip', cat', now) {
      hide Level, Get, SoundAt;
      if ip' == ip { EntryForLevel(c, s, ip, cat', now); }
    }
  }

  /** The entry a draw leaves behind. */
  function DrawnEntry(c: Config, e: Entry, cat: Category, now: real): Entry
    requires ValidConfig(c)
  {
    Entry(Put(e.buckets, cat, Draw(Get(e.buckets, cat), Get(c.rpm, cat), now).0), now)
  }

  lemma DrawIpParts(c: Config, s: Limiter, ip: Ip, cat: Category, now: real)
    requires ValidConfig(c) && Admits(s.ips, ip, c.maxIps)
    ensures var e := EntryFor(c, s, ip, now);
      DrawIp(c, s, ip, cat, now)
      == (Limiter(s.ips[ip := DrawnEntry(c, e, cat, now)], s.keys), Draw(Get(e.buckets, cat), Get(c.rpm, cat), now).1)
  {
    assert Get(c.rpm, cat) > 0;
    hide Draw, FreshEntry, Put, Get;
  }

  lemma DrawIpByLevel(c: Config, s: Limiter, ip: Ip, cat: Category, now: real)
    requires ValidConfig(c) && SoundAt(c, s, now) && Admits(s.ips, ip, c.maxIps)
    ensures
      var (s', reply) := DrawIp(c, s, ip, cat, now);
      var level := IpLevel(c, s, ip, cat, now);
      && SoundAt(c, s', now) && s'.keys == s.keys && s'.ips.Keys == s.ips.Keys + {ip}
      && reply == Answer(level, Get(c.rpm, cat))
      && IpLevel(c, s', ip, cat, now) == Drawn(level)
      && (forall ip', cat' | ip' != ip || cat' != cat :: IpLevel(c, s', ip', cat', now) == IpLevel(c, s, ip', cat', now))
  {
    assert Get(c.rpm, cat) > 0;
    hide SoundAt, Draw, DrawIp, Answer, Drawn, Get, Put, FreshEntry, SoundEntry, ValidConfig, IpLevel, EntryLevel, EntryFor;
    var e := EntryFor(c, s, ip, now);
    var e' := DrawnEntry(c, e, cat, now);
    DrawIpParts(c, s, ip, cat, now);
    EntryForLevel(c, s, ip, cat, now);
    DrawEntry(c, e, cat, now);
    hide DrawnEntry;
    SoundWithEntry(c, s, ip, e', now);
    OtherLevels(c, s, ip, e', cat, now);
    assert s.ips[ip := e'].Keys == s.ips.Keys + {ip};
  }

  lemma SizeAfterInsert<K, V>(m: map<K, V>, k: K, v: V)
    ensures |m[k := v]| == if k in m then |m| else |m| + 1
  {
    if k in m {
      assert m[k := v].Keys == m.Keys;
    } else {
      assert m[k := v].Keys == m.Keys + {k};
    }
    assert |m[k := v]| == |m[k := v].Keys| && |m| == |m.Keys|;
  }

  lemma KeyEntryLevel(c: Config, s: Limiter, k: KeyId, now: real)
    requires SoundAt(c, s, now) && Limit(c, k) > 0
    ensures var e := KeyEntryAt(s, k, Limit(c, k), now);
            SoundKey(c, k, e, now) && Level(e.bucket, Limit(c, k), now) == KeyLevel(c, s, k, now)
  {
    hide Gain, Limit;
    GainFacts(0.0, 0.0, Limit(c, k));
    assert now - now == 0.0;
  }

  lemma CheckKeyByLevel(c: Config, s: Limiter, k: KeyId, issue: bool, now: real)
    requires SoundAt(c, s, now) && Admits(s.keys, k, c.maxIps)
    requires !c.disabled && KeyRpm(c, k, issue) > 0
    ensures KeyRpm(c, k, issue) == Limit(c, k)
    ensures
      var (s', reply) := CheckKey(c, s, k, issue, now);
      var level := KeyLevel(c, s, k, now);
      && SoundAt(c, s', now) && s'.ips == s.ips && s'.keys.Keys == s.keys.Keys + {k}
      && reply == Answer(level, Limit(c, k))
      && KeyLevel(c, s', k, now) == Drawn(level)
      && (forall k' | k' != k :: KeyLevel(c, s', k', now) == KeyLevel(c, s, k', now))
  {
    assert KeyRpm(c, k, issue) == Limit(c, k);
    hide Draw, Answer, Drawn, Limit, KeyRpm, Level, Sound, KeyEntryAt, SoundEntry;
    var rpm := Limit(c, k);
    var e := KeyEntryAt(s, k, rpm, now);
    KeyEntryLevel(c, s, k, now);
    DrawByLevel(e.bucket, rpm, e.lastSeen, now);
    var (b', reply) := Draw(e.bucket, rpm, now);
    var s' := CheckKey(c, s, k, issue, now).0;
    assert s' == Limiter(s.ips, s.keys[k := KeyEntry(b', now, rpm)]);
    SoundWithKey(c, s, k, KeyEntry(b', now, rpm), now);
    assert s'.keys.Keys == s.keys.Keys + {k};
  }

  /** What a sweep keeps. */
  lemma SweepKeeps(c: Config, s: Limiter, now: real)
    ensures forall ip :: ip in Sweep(c, s, now).ips <==> ip in s.ips && s.ips[ip].lastSeen >= Cutoff(c, now)
    ensures forall ip | ip in Sweep(c, s, now).ips :: Sweep(c, s, now).ips[ip] == s.ips[ip]
    ensures forall k :: k in Sweep(c, s, now).keys <==> k in s.keys && s.keys[k].lastSeen >= Cutoff(c, now)
    ensures forall k | k in Sweep(c, s, now).keys :: Sweep(c, s, now).keys[k] == s.keys[k]
  {}

  lemma SweepIpLevel(c: Config, s: Limiter, ip: Ip, cat: Category, now: real)
    requires SoundAt(c, s, now) && c.idleSweepSec >= 60
    ensures IpLevel(c, Sweep(c, s, now), ip, cat, now) == IpLevel(c, s, ip, cat, now)
  {
    SweepKeeps(c, s, now);
    assert now - Cutoff(c, now) >= MINUTE;
    hide Level, Sound, Limit, Sweep, Cutoff;
    if ip in s.ips && ip !in Sweep(c, s, now).ips {
      LevelFull(Get(s.ips[ip].buckets, cat), Get(c.rpm, cat), s.ips[ip].lastSeen, now);
    }
  }

  lemma SweepKeyLevel(c: Config, s: Limiter, k: KeyId, now: real)
    requires SoundAt(c, s, now) && c.idleSweepSec >= 60
    ensures KeyLevel(c, Sweep(c, s, now), k, now) == KeyLevel(c, s, k, now)
  {
    SweepKeeps(c, s, now);
    assert now - Cutoff(c, now) >= MINUTE;
    hide Level, Sound, Limit, Sweep, Cutoff;
    if k in s.keys && k !in Sweep(c, s, now).keys {
      LevelFull(s.keys[k].bucket, Limit(c, k), s.keys[k].lastSeen, now);
    }
  }

  /** With a sweep window of a minute or more, only full slots are dropped. */
  lemma SweepByLevel(c: Config, s: Limiter, now: real)
    requires SoundAt(c, s, now)
    ensures SoundAt(c, Sweep(c, s, now), now)
    ensures Sweep(c, s, now).ips.Keys <= s.ips.Keys && Sweep(c, s, now).keys.Keys <= s.keys.Keys
    ensures c.idleSweepSec >= 60 ==>
      && (forall ip, cat :: IpLevel(c, Sweep(c, s, now), ip, cat, now) == IpLevel(c, s, ip, cat, now))
      && (forall k :: KeyLevel(c, Sweep(c, s, now), k, now) == KeyLevel(c, s, k, now))
  {
    hide Level, Sound, Limit, Sweep, Cutoff, IpLevel, KeyLevel, SoundEntry, SoundKey;
    SweepKeeps(c, s, now);
    Smaller(Sweep(c, s, now).ips.Keys, s.ips.Keys);
    Smaller(Sweep(c, s, now).keys.Keys, s.keys.Keys);
    if c.idleSweepSec >= 60 {
      forall ip, cat ensures IpLevel(c, Sweep(c, s, now), ip, cat, now) == IpLevel(c, s, ip, cat, now) {
        SweepIpLevel(c, s, ip, cat, now);
      }
      forall k ensures KeyLevel(c, Sweep(c, s, now), k, now) == KeyLevel(c, s, k, now) {
        SweepKeyLevel(c, s, k, now);
      }
    }
  }

  lemma Smaller<T>(a: set<T>, b: set<T>)
    requires a <= b
    ensures |a| <= |b|
  {
    assert a + (b - a) == b;
    assert |a + (b - a)| == |a| + |b - a|;
  }
}
