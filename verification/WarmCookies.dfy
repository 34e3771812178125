/** A warmed session's cookies, filed into the jar as the hosts they belong to are visited. */
module WarmCookies {
  import opened Text
  import opened Netscape

  /** A cookie by its place in the session; the host matters only to a cookie that names no domain. */
  type Key = (nat, string)

  function DomainOf(c: Cookie): string {
    Lower(if Dotted(c.domain) then c.domain[1..] else c.domain)
  }

  predicate EndsIn(s: string, suffix: string) {
    |s| >= |suffix| && s[|s| - |suffix|..] == suffix
  }

  predicate Belongs(c: Cookie, host: string) {
    DomainOf(c) == "" || DomainOf(c) == host || EndsIn(host, "." + DomainOf(c))
  }

  /** The host is the domain, or ends in a dot and the domain. */
  predicate IsWithin(host: string, domain: string) {
    || host == domain
    || (|host| > |domain| && host[|host| - |domain| - 1] == '.' && host[|host| - |domain|..] == domain)
  }

  lemma DomainIs(c: Cookie, domain: string)
    requires Lower(c.domain) == domain || (c.domain != "" && c.domain[0] == '.' && Lower(c.domain[1..]) == domain)
    requires domain != "" && domain[0] != '.'
    ensures DomainOf(c) == domain
  {
    if Lower(c.domain) == domain {
      assert LowerChar(c.domain[0]) == domain[0];
      assert !Dotted(c.domain);
    }
  }

  lemma EndsBehindADot(host: string, domain: string)
    ensures EndsIn(host, "." + domain) <==>
            |host| > |domain| && host[|host| - |domain| - 1] == '.' && host[|host| - |domain|..] == domain
  {
    var suffix := "." + domain;
    if |host| >= |suffix| {
      var n := |host| - |suffix|;
      assert host[n..] == [host[n]] + host[n + 1..];
      assert suffix[1..] == domain;
    }
  }

  /** A cookie without a domain belongs to every host; one with a domain, in any case and with or without a dot in
      front, to that host and to those within it, and to no other that merely ends alike. */
  lemma WhereACookieBelongs(c: Cookie, domain: string, host: string)
    requires Lower(c.domain) == domain || (c.domain != "" && c.domain[0] == '.' && Lower(c.domain[1..]) == domain)
    requires domain != "" && domain[0] != '.'
    ensures Belongs(c, host) <==> IsWithin(host, domain)
  {
    hide DomainOf, EndsIn, Lower;
    DomainIs(c, domain);
    EndsBehindADot(host, domain);
  }

  lemma WithoutADomain(c: Cookie, host: string)
    requires c.domain == "" || c.domain == "."
    ensures Belongs(c, host)
  {
  }

  function KeyOf(warm: seq<Cookie>, i: nat, host: string): Key
    requires i < |warm|
  {
    (i, if DomainOf(warm[i]) == "" then host else "")
  }

  predicate Due(warm: seq<Cookie>, seeded: set<Key>, host: string, i: nat) {
    i < |warm| && Belongs(warm[i], host) && KeyOf(warm, i, host) !in seeded
  }

  /** The keys used up by a visit, for the first `n` cookies of the session. */
  function KeysDue(warm: seq<Cookie>, seeded: set<Key>, host: string, n: nat): set<Key>
    requires n <= |warm|
  {
    set i | 0 <= i < n && Due(warm, seeded, host, i) :: KeyOf(warm, i, host)
  }

  class Client {
    const warm: seq<Cookie>
    var warmSeeded: set<Key>

    constructor (warm: seq<Cookie>)
      ensures this.warm == warm && warmSeeded == {}
    {
      this.warm, warmSeeded := warm, {};
    }

    /** The cookies handed to the jar for this host, by their places in the session and in its order. */
    method SeedWarmCookies(hostname: string) returns (ready: seq<nat>)
      modifies this
      ensures var host := Lower(hostname);
              && (forall i: nat :: i in ready <==> Due(warm, old(warmSeeded), host, i))
              && (forall a, b :: 0 <= a < b < |ready| ==> ready[a] < ready[b])
              && warmSeeded == old(warmSeeded) + KeysDue(warm, old(warmSeeded), host, |warm|)
    {
      hide Belongs, DomainOf;
      var host := Lower(hostname);
      ready := [];
      for i := 0 to |warm|
        invariant forall a :: 0 <= a < |ready| ==> ready[a] < i
        invariant forall j: nat :: j in ready <==> j < i && Due(warm, old(warmSeeded), host, j)
        invariant forall a, b :: 0 <= a < b < |ready| ==> ready[a] < ready[b]
        invariant warmSeeded == old(warmSeeded) + KeysDue(warm, old(warmSeeded), host, i)
      {
        if !Belongs(warm[i], host) {
          continue;
        }
        var key := KeyOf(warm, i, host);
        if key in warmSeeded {
          continue;
        }
        warmSeeded := warmSeeded + {key};
        ready := ready + [i];
      }
    }
  }

  // ---------------------------------------------------------------------------------------------
  // Any sequence of visits.

  function Seeded(warm: seq<Cookie>, hosts: seq<string>): set<Key> {
    if hosts == [] then {}
    else
      var before, host := Seeded(warm, hosts[..|hosts| - 1]), hosts[|hosts| - 1];
      before + KeysDue(warm, before, host, |warm|)
  }

  /** Whether the cookie is filed at the `k`-th visit. */
  predicate FiledAt(warm: seq<Cookie>, hosts: seq<string>, k: nat, i: nat)
    requires k < |hosts|
  {
    Due(warm, Seeded(warm, hosts[..k]), hosts[k], i)
  }

  predicate SameKeyVisit(warm: seq<Cookie>, hosts: seq<string>, j: nat, i: nat, key: Key)
    requires j < |hosts|
  {
    i < |warm| && Belongs(warm[i], hosts[j]) && KeyOf(warm, i, hosts[j]) == key
  }

  lemma {:induction false} SeededSoFar(warm: seq<Cookie>, hosts: seq<string>, i: nat, key: Key)
    requires i < |warm| && key.0 == i
    ensures key in Seeded(warm, hosts) <==> exists j :: 0 <= j < |hosts| && SameKeyVisit(warm, hosts, j, i, key)
  {
    hide Belongs, DomainOf;
    if hosts != [] {
      var n := |hosts| - 1;
      var front := hosts[..n];
      SeededSoFar(warm, front, i, key);
      forall j | 0 <= j < n
        ensures SameKeyVisit(warm, hosts, j, i, key) <==> SameKeyVisit(warm, front, j, i, key)
      {
        assert hosts[j] == front[j];
      }
      if key in Seeded(warm, front) {
        var j :| 0 <= j < n && SameKeyVisit(warm, front, j, i, key);
        assert SameKeyVisit(warm, hosts, j, i, key);
      } else if SameKeyVisit(warm, hosts, n, i, key) {
        assert Due(warm, Seeded(warm, front), hosts[n], i);
      }
    }
  }

  /** A cookie with a domain is filed at the first visit to a host of that domain and never again; one
      without is filed at the first visit to every host. */
  lemma FiledAtTheFirstVisit(warm: seq<Cookie>, hosts: seq<string>, k: nat, i: nat)
    requires k < |hosts| && i < |warm|
    ensures FiledAt(warm, hosts, k, i) <==>
            Belongs(warm[i], hosts[k]) &&
            forall j :: 0 <= j < k && Belongs(warm[i], hosts[j]) ==> DomainOf(warm[i]) == "" && hosts[j] != hosts[k]
  {
    hide Belongs, DomainOf, Seeded;
    var key := KeyOf(warm, i, hosts[k]);
    SeededSoFar(warm, hosts[..k], i, key);
    forall j | 0 <= j < k
      ensures SameKeyVisit(warm, hosts[..k], j, i, key) <==>
              Belongs(warm[i], hosts[j]) && (DomainOf(warm[i]) == "" ==> hosts[j] == hosts[k])
    {
      assert hosts[..k][j] == hosts[j];
    }
  }
}
