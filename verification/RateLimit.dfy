/** The limiter object: two maps that the calls update in place. */
module RateLimit {
  import opened LimiterModel

  class RateLimiter {
    const config: Config
    var ips: map<Ip, Entry>
    var keys: map<KeyId, KeyEntry>

    ghost function Model(): Limiter
      reads this
    {
      Limiter(ips, keys)
    }

    constructor (config: Config)
      ensures this.config == config && Model() == Empty
    {
      this.config := config;
      ips, keys := map[], map[];
    }

    /** The entry of an address, made on first sight unless the cap is reached; `known` is false at the cap. */
    method EnsureEntry(ip: Ip, t: real) returns (known: bool, e: Entry)
      modifies this`ips
      ensures known == (old(ip in ips) || old(|ips|) < config.maxIps)
      ensures known ==> e == (if old(ip in ips) then old(ips)[ip] else FreshEntry(config, t)) && ips == old(ips)[ip := e]
      ensures !known ==> ips == old(ips)
    {
      e := FreshEntry(config, t);
      if ip in ips {
        assert ips[ip := ips[ip]] == ips;
        return true, ips[ip];
      }
      if |ips| >= config.maxIps { return false, e; }
      ips := ips[ip := e];
      known := true;
    }

    method Check(ip: Ip, cat: Category, t: real) returns (reply: Reply)
      requires ValidConfig(config)
      modifies this
      ensures (Model(), reply) == LimiterModel.Check(config, old(Model()), ip, cat, t)
    {
      if config.disabled { return Bypass; }
      var known, e := EnsureEntry(ip, t);
      var rpm := Get(config.rpm, cat);
      if !known { return Denied(Cap, rpm, 60); }
      var b := Refill(Get(e.buckets, cat), rpm, t);
      if b.tokens >= 1.0 {
        b := b.(tokens := b.tokens - 1.0);
        reply := Allowed(b.tokens.Floor, rpm, Ceil(((b.capacity - b.tokens) / (rpm as real)) * 60.0));
      } else {
        var wait := Ceil((1.0 - b.tokens) * 60.0 / (rpm as real));
        reply := Denied(Rate, rpm, if wait < 1 then 1 else wait);
      }
      ips := ips[ip := Entry(Put(e.buckets, cat, b), t)];
      assert ips == old(ips)[ip := Entry(Put(e.buckets, cat, b), t)];
    }

    method RecordAuthFail(ip: Ip, t: real) returns (reply: Reply)
      requires ValidConfig(config)
      modifies this
      ensures (Model(), reply) == LimiterModel.RecordAuthFail(config, old(Model()), ip, t)
    {
      var known, e := EnsureEntry(ip, t);
      var rpm := config.rpm.authFail;
      if !known { return Denied(Cap, rpm, 60); }
      var b := Refill(e.buckets.authFail, rpm, t);
      if b.tokens >= 1.0 {
        b := b.(tokens := b.tokens - 1.0);
        reply := Allowed(b.tokens.Floor, rpm, 0);
      } else {
        var wait := Ceil((1.0 - b.tokens) * 60.0 / (rpm as real));
        reply := Denied(Rate, rpm, if wait < 1 then 1 else wait);
      }
      ips := ips[ip := Entry(e.buckets.(authFail := b), t)];
      assert ips == old(ips)[ip := Entry(Put(e.buckets, AuthFail, b), t)];
    }

    method CheckKey(k: KeyId, issue: bool, t: real) returns (reply: Reply)
      modifies this
      ensures (Model(), reply) == LimiterModel.CheckKey(config, old(Model()), k, issue, t)
    {
      if config.disabled { return Bypass; }
      var rpm := KeyRpm(config, k, issue);
      if rpm == 0 { return Bypass; }
      var e: KeyEntry;
      if k !in keys {
        if |keys| >= config.maxIps { return Denied(Cap, rpm, 60); }
        e := KeyEntry(NewBucket(rpm, t), t, rpm);
      } else {
        e := keys[k];
        if e.rpm != rpm {
          e := e.(bucket := e.bucket.(capacity := rpm as real, tokens := Min(e.bucket.tokens, rpm as real)), rpm := rpm);
        }
      }
      var b := Refill(e.bucket, rpm, t);
      if b.tokens >= 1.0 {
        b := b.(tokens := b.tokens - 1.0);
        reply := Allowed(b.tokens.Floor, rpm, Ceil(((b.capacity - b.tokens) / (rpm as real)) * 60.0));
      } else {
        var wait := Ceil((1.0 - b.tokens) * 60.0 / (rpm as real));
        reply := Denied(Rate, rpm, if wait < 1 then 1 else wait);
      }
      keys := keys[k := KeyEntry(b, t, rpm)];
    }

    /** Drops every entry not seen since the cutoff and reports how many went. */
    method Sweep(now: real) returns (dropped: nat)
      modifies this
      ensures Model() == LimiterModel.Sweep(config, old(Model()), now)
      ensures dropped == old(|ips| + |keys|) - (|ips| + |keys|)
    {
      var cutoff := now - (config.idleSweepSec * 1000) as real;
      var droppedIps := SweepIps(cutoff);
      var droppedKeys := SweepKeys(cutoff);
      dropped := droppedIps + droppedKeys;
    }

    method SweepIps(cutoff: real) returns (dropped: nat)
      modifies this`ips
      ensures ips == old(ips) - (set ip | ip in old(ips) && old(ips)[ip].lastSeen < cutoff)
      ensures dropped == old(|ips|) - |ips|
    {
      dropped := 0;
      var todo := ips.Keys;
      while todo != {}
        invariant todo <= old(ips.Keys)
        invariant forall ip :: ip in ips <==> ip in old(ips) && (ip in todo || old(ips)[ip].lastSeen >= cutoff)
        invariant forall ip | ip in ips :: ips[ip] == old(ips)[ip]
        invariant dropped == old(|ips|) - |ips|
        decreases todo
      {
        var ip :| ip in todo;
        if ips[ip].lastSeen < cutoff {
          SizeAfterDelete(ips, ip);
          ips := ips - {ip};
          dropped := dropped + 1;
        }
        todo := todo - {ip};
      }
    }

    method SweepKeys(cutoff: real) returns (dropped: nat)
      modifies this`keys
      ensures keys == old(keys) - (set k | k in old(keys) && old(keys)[k].lastSeen < cutoff)
      ensures dropped == old(|keys|) - |keys|
    {
      dropped := 0;
      var todo := keys.Keys;
      while todo != {}
        invariant todo <= old(keys.Keys)
        invariant forall k :: k in keys <==> k in old(keys) && (k in todo || old(keys)[k].lastSeen >= cutoff)
        invariant forall k | k in keys :: keys[k] == old(keys)[k]
        invariant dropped == old(|keys|) - |keys|
        decreases todo
      {
        var k :| k in todo;
        if keys[k].lastSeen < cutoff {
          SizeAfterDelete(keys, k);
          keys := keys - {k};
          dropped := dropped + 1;
        }
        todo := todo - {k};
      }
    }

    /** Reads a key's tokens without spending any. */
    method QuotaSnapshot(k: KeyId, issue: bool, t: real) returns (reply: Reply)
      ensures reply == LimiterModel.QuotaSnapshot(config, Model(), k, issue, t)
    {
      var rpm := KeyRpm(config, k, issue);
      if config.disabled || rpm == 0 { return NoQuota; }
      if k !in keys { return Quota(rpm, rpm as real); }
      var b := keys[k].bucket;
      var refilled := Min(b.capacity, b.tokens + ((t - b.lastRefill) / MINUTE) * (rpm as real));
      reply := Quota(refilled.Floor, b.capacity);
    }
  }

  lemma SizeAfterDelete<K, V>(m: map<K, V>, k: K)
    requires k in m
    ensures |m - {k}| == |m| - 1
  {
    assert (m - {k}).Keys == m.Keys - {k};
    assert |m| == |m.Keys| && |m - {k}| == |(m - {k}).Keys|;
  }
}
