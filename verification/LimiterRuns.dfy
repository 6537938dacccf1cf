/** Whole call sequences: sweeping cannot be seen, the rate is bounded, and the answers are exact. */
module LimiterRuns {
  import opened LimiterModel
  import opened LimiterLevels

  function Ips(calls: seq<Call>): set<Ip> {
    set i | 0 <= i < |calls| && (calls[i].CheckIp? || calls[i].AuthFailed?) :: calls[i].ip
  }

  function Keys(calls: seq<Call>): set<KeyId> {
    set i | 0 <= i < |calls| && (calls[i].IssueKey? || calls[i].Snapshot?) :: calls[i].key
  }

  /** The calls name no more addresses and no more keys than the limiter may hold. */
  predicate BelowCap(c: Config, calls: seq<Call>) {
    |Ips(calls)| <= c.maxIps && |Keys(calls)| <= c.maxIps
  }

  /** One call, by levels: which slot it draws from, if any. */
  predicate Draws(c: Config, s: Limiter, call: Call, ip: Ip, cat: Category) {
    match call
    case CheckIp(i, cat', _) => !c.disabled && i == ip && cat' == cat && Admits(s.ips, i, c.maxIps)
    case AuthFailed(i, _) => i == ip && cat == AuthFail && Admits(s.ips, i, c.maxIps)
    case _ => false
  }

  predicate DrawsKey(c: Config, s: Limiter, call: Call, k: KeyId) {
    call.IssueKey? && !c.disabled && call.key == k && KeyRpm(c, k, call.issue) > 0 && Admits(s.keys, k, c.maxIps)
  }

  ghost predicate LevelsMove(c: Config, s: Limiter, s': Limiter, call: Call) {
    && (forall ip, cat :: IpLevel(c, s', ip, cat, call.at)
          == if Draws(c, s, call, ip, cat) then Drawn(IpLevel(c, s, ip, cat, call.at)) else IpLevel(c, s, ip, cat, call.at))
    && (forall k :: KeyLevel(c, s', k, call.at)
          == if DrawsKey(c, s, call, k) then Drawn(KeyLevel(c, s, k, call.at)) else KeyLevel(c, s, k, call.at))
  }

  /** The level the call looks at. */
  function LevelRead(c: Config, s: Limiter, call: Call): real {
    match call
    case CheckIp(ip, cat, t) => IpLevel(c, s, ip, cat, t)
    case AuthFailed(ip, t) => IpLevel(c, s, ip, AuthFail, t)
    case IssueKey(k, _, t) => KeyLevel(c, s, k, t)
    case Snapshot(k, _, t) => KeyLevel(c, s, k, t)
    case SweepAt(_) => 0.0
  }

  predicate Admitted(c: Config, s: Limiter, call: Call) {
    match call
    case CheckIp(ip, _, _) => Admits(s.ips, ip, c.maxIps)
    case AuthFailed(ip, _) => Admits(s.ips, ip, c.maxIps)
    case IssueKey(k, _, _) => Admits(s.keys, k, c.maxIps)
    case _ => true
  }

  /** The reply to an admitted call that reads this level. */
  function ReplyAt(c: Config, call: Call, level: real): Reply
    requires ValidConfig(c)
  {
    match call
    case CheckIp(_, cat, _) => if c.disabled then Bypass else Answer(level, Get(c.rpm, cat))
    case AuthFailed(_, _) =>
      var r := Answer(level, c.rpm.authFail);
      if r.Allowed? then Allowed(r.remaining, r.limit, 0) else r
    case IssueKey(k, issue, _) => if c.disabled || KeyRpm(c, k, issue) == 0 then Bypass else Answer(level, KeyRpm(c, k, issue))
    case Snapshot(k, issue, _) =>
      if c.disabled || KeyRpm(c, k, issue) == 0 then NoQuota else Quota(level.Floor, KeyRpm(c, k, issue) as real)
    case SweepAt(_) => NoQuota
  }

  /** Every call keeps the limiter sound; unless a short window lets a sweep refill early, a call only draws its own slot. */
  lemma ApplyByLevel(c: Config, s: Limiter, call: Call)
    requires ValidConfig(c) && SoundAt(c, s, call.at)
    ensures SoundAt(c, Apply(c, s, call).0, call.at)
    ensures !call.SweepAt? || c.idleSweepSec >= 60 ==> LevelsMove(c, s, Apply(c, s, call).0, call)
    ensures Admitted(c, s, call) ==> Apply(c, s, call).1 == ReplyAt(c, call, LevelRead(c, s, call))
  {
    if call.CheckIp? || call.AuthFailed? {
      ApplyIp(c, s, call);
    } else if call.IssueKey? {
      ApplyKey(c, s, call);
    } else if call.Snapshot? {
      if !c.disabled && KeyRpm(c, call.key, call.issue) > 0 { SnapshotByLevel(c, s, call.key, call.issue, call.at); }
    } else {
      hide ValidConfig, IpLevel, KeyLevel, Drawn, SoundAt;
      SweepByLevel(c, s, call.at);
    }
  }

  lemma ApplyIp(c: Config, s: Limiter, call: Call)
    requires ValidConfig(c) && SoundAt(c, s, call.at) && (call.CheckIp? || call.AuthFailed?)
    ensures SoundAt(c, Apply(c, s, call).0, call.at) && LevelsMove(c, s, Apply(c, s, call).0, call)
    ensures Admitted(c, s, call) ==> Apply(c, s, call).1 == ReplyAt(c, call, LevelRead(c, s, call))
  {
    var cat := if call.CheckIp? then call.cat else AuthFail;
    assert Get(c.rpm, cat) > 0;
    hide ValidConfig, DrawIp, IpLevel, KeyLevel, Drawn, Answer, SoundAt, LevelsMove;
    if call.CheckIp? && c.disabled {
      DisabledMoves(c, s, call);
    } else {
      DrawIpMoves(c, s, call.ip, cat, call);
      if Admitted(c, s, call) { DrawIpByLevel(c, s, call.ip, cat, call.at); }
    }
  }

  lemma DisabledMoves(c: Config, s: Limiter, call: Call)
    requires call.CheckIp? && c.disabled
    ensures LevelsMove(c, s, s, call)
  {
    hide IpLevel, KeyLevel, Drawn;
  }

  lemma DrawIpMoves(c: Config, s: Limiter, ip: Ip, cat: Category, call: Call)
    requires ValidConfig(c) && SoundAt(c, s, call.at) && Get(c.rpm, cat) > 0
    requires (call == CheckIp(ip, cat, call.at) && !c.disabled) || (call == AuthFailed(ip, call.at) && cat == AuthFail)
    ensures SoundAt(c, DrawIp(c, s, ip, cat, call.at).0, call.at)
    ensures LevelsMove(c, s, DrawIp(c, s, ip, cat, call.at).0, call)
  {
    hide ValidConfig, DrawIp, IpLevel, KeyLevel, Drawn, Answer, SoundAt;
    if Admits(s.ips, ip, c.maxIps) {
      DrawIpByLevel(c, s, ip, cat, call.at);
      SameKeyLevels(c, s, DrawIp(c, s, ip, cat, call.at).0);
    } else {
      DrawIpAtCap(c, s, ip, cat, call.at);
    }
  }

  lemma ApplyKey(c: Config, s: Limiter, call: Call)
    requires ValidConfig(c) && SoundAt(c, s, call.at) && call.IssueKey?
    ensures SoundAt(c, Apply(c, s, call).0, call.at) && LevelsMove(c, s, Apply(c, s, call).0, call)
    ensures Admitted(c, s, call) ==> Apply(c, s, call).1 == ReplyAt(c, call, LevelRead(c, s, call))
  {
    hide ValidConfig, CheckKey, IpLevel, KeyLevel, Drawn, Answer, SoundAt, KeyRpm;
    var s' := CheckKey(c, s, call.key, call.issue, call.at).0;
    if DrawsKey(c, s, call, call.key) {
      CheckKeyByLevel(c, s, call.key, call.issue, call.at);
      SameIpLevels(c, s, s');
    } else {
      CheckKeyIdle(c, s, call.key, call.issue, call.at);
    }
  }

  lemma SnapshotByLevel(c: Config, s: Limiter, k: KeyId, issue: bool, t: real)
    requires SoundAt(c, s, t) && !c.disabled && KeyRpm(c, k, issue) > 0
    ensures KeyRpm(c, k, issue) == Limit(c, k)
    ensures QuotaSnapshot(c, s, k, issue, t) == Quota(KeyLevel(c, s, k, t).Floor, Limit(c, k) as real)
  {
    hide Gain;
    if k in s.keys { assert SoundKey(c, k, s.keys[k], t); }
  }

  lemma SameKeyLevels(c: Config, s: Limiter, s': Limiter)
    requires s.keys == s'.keys
    ensures forall k, t :: KeyLevel(c, s', k, t) == KeyLevel(c, s, k, t)
  {
    hide Level;
  }

  lemma SameIpLevels(c: Config, s: Limiter, s': Limiter)
    requires s.ips == s'.ips
    ensures forall ip, cat, t :: IpLevel(c, s', ip, cat, t) == IpLevel(c, s, ip, cat, t)
  {
    hide Level;
  }

  lemma DrawIpAtCap(c: Config, s: Limiter, ip: Ip, cat: Category, t: real)
    requires ValidConfig(c) && !Admits(s.ips, ip, c.maxIps)
    ensures DrawIp(c, s, ip, cat, t) == (s, Denied(Cap, Get(c.rpm, cat), 60))
  {}

  lemma CheckKeyIdle(c: Config, s: Limiter, k: KeyId, issue: bool, t: real)
    requires c.disabled || KeyRpm(c, k, issue) == 0 || !Admits(s.keys, k, c.maxIps)
    ensures CheckKey(c, s, k, issue, t).0 == s && !CheckKey(c, s, k, issue, t).1.Quota?
    ensures CheckKey(c, s, k, issue, t).1
         == if c.disabled || KeyRpm(c, k, issue) == 0 then Bypass else Denied(Cap, KeyRpm(c, k, issue), 60)
  {}

  // ---------- sweeping cannot be seen ----------

  /** Two limiters that nobody can tell apart: every slot has the same level. */
  ghost predicate Alike(c: Config, a: Limiter, b: Limiter, t: real) {
    && SoundAt(c, a, t) && SoundAt(c, b, t)
    && (forall ip, cat :: IpLevel(c, a, ip, cat, t) == IpLevel(c, b, ip, cat, t))
    && (forall k :: KeyLevel(c, a, k, t) == KeyLevel(c, b, k, t))
  }

  lemma AlikeLater(c: Config, a: Limiter, b: Limiter, t: real, u: real)
    requires Alike(c, a, b, t) && t <= u
    ensures Alike(c, a, b, u)
  {
    hide Gain, IpLevel, KeyLevel, SoundAt;
    SoundLater(c, a, t, u);
    SoundLater(c, b, t, u);
    forall ip, cat ensures IpLevel(c, a, ip, cat, u) == IpLevel(c, b, ip, cat, u) {
      IpLevelLater(c, a, ip, cat, t, u);
      IpLevelLater(c, b, ip, cat, t, u);
    }
    forall k ensures KeyLevel(c, a, k, u) == KeyLevel(c, b, k, u) {
      KeyLevelLater(c, a, k, t, u);
      KeyLevelLater(c, b, k, t, u);
    }
  }

  /** An admitted call cannot tell them apart either, and leaves them alike. */
  lemma AlikeStep(c: Config, a: Limiter, b: Limiter, call: Call)
    requires ValidConfig(c) && Alike(c, a, b, call.at) && !call.SweepAt?
    requires Admitted(c, a, call) && Admitted(c, b, call)
    ensures Alike(c, Apply(c, a, call).0, Apply(c, b, call).0, call.at)
    ensures Apply(c, a, call).1 == Apply(c, b, call).1
  {
    hide ValidConfig, IpLevel, KeyLevel, SoundAt, Apply, ReplyAt, Drawn, KeyRpm;
    ApplyByLevel(c, a, call);
    ApplyByLevel(c, b, call);
    forall ip, cat ensures Draws(c, a, call, ip, cat) == Draws(c, b, call, ip, cat) {}
  }

  lemma AlikeSweep(c: Config, a: Limiter, b: Limiter, t: real)
    requires ValidConfig(c) && Alike(c, a, b, t) && c.idleSweepSec >= 60
    ensures Alike(c, Sweep(c, a, t), b, t)
  {
    hide ValidConfig, IpLevel, KeyLevel, SoundAt, Sweep;
    SweepByLevel(c, a, t);
  }

  predicate Within(s: Limiter, ips: set<Ip>, keys: set<KeyId>) {
    s.ips.Keys <= ips && s.keys.Keys <= keys
  }

  predicate Names(call: Call, ips: set<Ip>, keys: set<KeyId>) {
    match call
    case CheckIp(ip, _, _) => ip in ips
    case AuthFailed(ip, _) => ip in ips
    case IssueKey(k, _, _) => k in keys
    case Snapshot(k, _, _) => k in keys
    case SweepAt(_) => true
  }

  lemma StaysWithin(c: Config, s: Limiter, call: Call, ips: set<Ip>, keys: set<KeyId>)
    requires ValidConfig(c) && Within(s, ips, keys) && Names(call, ips, keys)
    ensures Within(Apply(c, s, call).0, ips, keys)
    ensures |ips| <= c.maxIps && |keys| <= c.maxIps ==> Admitted(c, s, call)
  {
    hide ValidConfig, Draw, Refill, FreshEntry, KeyEntryAt, KeyRpm;
    if call.CheckIp? || call.AuthFailed? { Room(s.ips, call.ip, ips); }
    if call.IssueKey? { Room(s.keys, call.key, keys); }
  }

  lemma Room<K, V>(m: map<K, V>, k: K, all: set<K>)
    requires m.Keys <= all && k in all
    ensures k in m || |m| < |all|
  {
    Smaller(m.Keys + {k}, all);
    assert |m| == |m.Keys|;
  }

  lemma AfterSnoc(c: Config, calls: seq<Call>, call: Call)
    requires ValidConfig(c)
    ensures After(c, calls + [call]) == Apply(c, After(c, calls), call).0
    ensures Replies(c, calls + [call])
         == Replies(c, calls) + if call.SweepAt? then [] else [Apply(c, After(c, calls), call).1]
  {
    hide Apply;
    assert (calls + [call])[..|calls|] == calls;
  }

  lemma EmptyAlike(c: Config, t: real, ips: set<Ip>, keys: set<KeyId>)
    ensures Alike(c, Empty, Empty, t) && Within(Empty, ips, keys)
  {}

  lemma SweepStep(c: Config, s: Limiter, call: Call)
    requires ValidConfig(c) && call.SweepAt?
    ensures Apply(c, s, call).0 == Sweep(c, s, call.at)
  {}

  /** The simulation: a limiter that sweeps stays alike one that never does. */
  lemma {:induction false} SweptRunAlike(c: Config, calls: seq<Call>, t: real, ips: set<Ip>, keys: set<KeyId>)
    requires ValidConfig(c) && c.idleSweepSec >= 60 && InOrder(calls) && |ips| <= c.maxIps && |keys| <= c.maxIps
    requires forall i | 0 <= i < |calls| :: calls[i].at <= t && Names(calls[i], ips, keys)
    ensures Alike(c, After(c, calls), After(c, WithoutSweeps(calls)), t)
    ensures Within(After(c, calls), ips, keys) && Within(After(c, WithoutSweeps(calls)), ips, keys)
    ensures Replies(c, calls) == Replies(c, WithoutSweeps(calls))
  {
    hide ValidConfig, Apply, Alike, Within, Names;
    if calls == [] {
      EmptyAlike(c, t, ips, keys);
    } else {
      var init, last := calls[..|calls| - 1], calls[|calls| - 1];
      SweptRunAlike(c, init, last.at, ips, keys);
      var a, b := After(c, init), After(c, WithoutSweeps(init));
      StaysWithin(c, a, last, ips, keys);
      StaysWithin(c, b, last, ips, keys);
      if last.SweepAt? {
        AlikeSweep(c, a, b, last.at);
        assert Apply(c, a, last).0 == Sweep(c, a, last.at) by { SweepStep(c, a, last); }
        assert WithoutSweeps(calls) == WithoutSweeps(init);
        AlikeLater(c, Apply(c, a, last).0, b, last.at, t);
      } else {
        AlikeStep(c, a, b, last);
        AfterSnoc(c, WithoutSweeps(init), last);
        AlikeLater(c, Apply(c, a, last).0, Apply(c, b, last).0, last.at, t);
      }
    }
  }
}
