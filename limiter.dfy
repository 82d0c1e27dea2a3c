/** The per-IP limiter registry of pkg/core/limiter/limiter.go: a map from
    client IP to an entry holding that IP's token bucket and the time it was
    last seen, with creation on first lookup and age-based eviction. The
    clock is an explicit parameter (nanoseconds); locking and the ticker
    goroutine that calls Cleanup are not modelled. */
module Limiter {
  import opened GoTime

  /** rate.Every(d): a refill rate of one token per `interval` nanoseconds. */
  datatype Rate = Every(interval: int)

  /** A token-bucket limiter (rate.Limiter). Its token accounting belongs to
      the rate library and is not modelled: the handle is only created,
      stored and returned, and Allow() is an input to the middleware. */
  class TokenBucket {
    const limit: Rate
    const burst: int

    /** rate.NewLimiter(r, b) */
    constructor (r: Rate, b: int)
      ensures limit == r && burst == b
    {
      limit := r;
      burst := b;
    }
  }

  /** limiterEntry: the bucket of one IP and its last-access time. */
  datatype Entry = Entry(limiter: TokenBucket, lastSeen: int)

  /** The entry is stale at `now` when it is strictly older than `maxAge`. */
  predicate Stale(e: Entry, now: int, maxAge: int)
  {
    now - e.lastSeen > maxAge
  }

  /** The entries that survive an eviction sweep at `now`. */
  function Survivors(ips: map<string, Entry>, now: int, maxAge: int): (m: map<string, Entry>)
  {
    map ip | ip in ips && !Stale(ips[ip], now, maxAge) :: ips[ip]
  }

  /** A sweep removes exactly the stale entries and leaves the others untouched. */
  lemma SurvivorsExact(ips: map<string, Entry>, now: int, maxAge: int)
    ensures forall ip :: ip in Survivors(ips, now, maxAge) <==> ip in ips && now - ips[ip].lastSeen <= maxAge
    ensures forall ip :: ip in Survivors(ips, now, maxAge) ==> Survivors(ips, now, maxAge)[ip] == ips[ip]
    ensures |Survivors(ips, now, maxAge)| <= |ips|
  {
    assert Survivors(ips, now, maxAge).Keys <= ips.Keys;
    SubsetCardinality(Survivors(ips, now, maxAge).Keys, ips.Keys);
  }

  lemma SubsetCardinality<T>(a: set<T>, b: set<T>)
    requires a <= b
    ensures |a| <= |b|
  {
    assert b == a + (b - a);
  }

  /** A second sweep at the same instant removes nothing more. */
  lemma SurvivorsIdempotent(ips: map<string, Entry>, now: int, maxAge: int)
    ensures Survivors(Survivors(ips, now, maxAge), now, maxAge) == Survivors(ips, now, maxAge)
  {
  }

  /** An entry seen within `maxAge` of the sweep (age exactly `maxAge` included) survives it. */
  lemma RecentEntrySurvives(ips: map<string, Entry>, ip: string, now: int, maxAge: int)
    requires ip in ips && now - ips[ip].lastSeen <= maxAge
    ensures ip in Survivors(ips, now, maxAge) && Survivors(ips, now, maxAge)[ip] == ips[ip]
  {
  }

  /** IPRateLimiter */
  class IPRateLimiter {
    var ips: map<string, Entry>
    const r: Rate
    const b: int
    const maxAge: int
    /** Every IP ever passed to AddIP, the only place where entries are inserted. */
    ghost var added: set<string>

    ghost predicate Valid()
      reads this
    {
      && ips.Keys <= added
      && forall ip :: ip in ips ==> ips[ip].limiter.limit == r && ips[ip].limiter.burst == b
    }

    /** NewIPRateLimiter: an empty registry whose entries expire after one hour. */
    constructor (r: Rate, b: int)
      ensures Valid()
      ensures ips == map[] && added == {}
      ensures this.r == r && this.b == b && maxAge == Hour
    {
      ips := map[];
      this.r := r;
      this.b := b;
      maxAge := Hour;
      added := {};
    }

    /** AddIP: a fresh bucket for `ip`, seen at `now`, replacing any entry it had. */
    method AddIP(ip: string, now: int) returns (limiter: TokenBucket)
      requires Valid()
      modifies this
      ensures Valid()
      ensures fresh(limiter) && limiter.limit == r && limiter.burst == b
      ensures ips == old(ips)[ip := Entry(limiter, now)]
      ensures added == old(added) + {ip}
    {
      limiter := new TokenBucket(r, b);
      ips := ips[ip := Entry(limiter, now)];
      added := added + {ip};
    }

    /** GetLimiter: the bucket of `ip`, created on first sight; marks `ip` as seen at `now`. */
    method GetLimiter(ip: string, now: int) returns (limiter: TokenBucket)
      requires Valid()
      modifies this
      ensures Valid()
      ensures ips == old(ips)[ip := Entry(limiter, now)]
      ensures limiter.limit == r && limiter.burst == b
      ensures ip in old(ips) ==> limiter == old(ips[ip].limiter) && ips.Keys == old(ips.Keys)
      ensures ip !in old(ips) ==> fresh(limiter) && |ips| == |old(ips)| + 1
      ensures added == old(added) + {ip}
    {
      if ip !in ips {
        limiter := AddIP(ip, now);
        return;
      }
      var entry := ips[ip];
      ips := ips[ip := entry.(lastSeen := now)];
      added := added + {ip};
      limiter := entry.limiter;
    }

    /** cleanup: deletes, while walking the map, every entry older than maxAge. */
    method Cleanup(now: int)
      requires Valid()
      modifies this
      ensures Valid()
      ensures ips == Survivors(old(ips), now, maxAge)
      ensures added == old(added)
    {
      var pending := ips.Keys;
      while pending != {}
        invariant pending <= old(ips).Keys
        invariant forall ip :: ip in ips <==> ip in old(ips) && (ip in pending || !Stale(old(ips)[ip], now, maxAge))
        invariant forall ip :: ip in ips ==> ips[ip] == old(ips)[ip]
        invariant Valid() && added == old(added)
        decreases pending
      {
        var ip :| ip in pending;
        if Stale(ips[ip], now, maxAge) {
          ips := map k | k in ips && k != ip :: ips[k];
        }
        pending := pending - {ip};
      }
      assert ips.Keys == Survivors(old(ips), now, maxAge).Keys;
    }

    /** GetIPCount: the number of IPs that currently have an entry. */
    function GetIPCount(): (n: nat)
      reads this
      ensures n == |ips.Keys|
    {
      |ips|
    }
  }
}
