/**
 * Blazor/Services/ApiEndpointResolver.cs: `ResolveApiEndpointAsync` picks the
 * API base address from an ordered list of candidates, probing each one's
 * health URL, and falls back to the first configured one.
 *
 * The environment variables and configuration values are inputs. The HTTP
 * probe is `healthy`, a predicate on the URL probed that is false wherever the
 * request fails, answers with a non-success status, or throws.
 */
module ApiEndpointResolver {
  import opened Wrappers

  /** The literal returned when no candidate is set at all. */
  const DefaultEndpoint: string := "http://localhost:5253/"

  /** The `FallbackOrder` used when the configuration has none. */
  const DefaultFallbackOrder: seq<string> := ["LocalDevelopment", "DockerCompose", "Production"]

  /** API_ENDPOINT_DOCKER, API_ENDPOINT_LOCAL and API_ENDPOINT_PRODUCTION. */
  datatype Environment = Environment(docker: Option<string>, local: Option<string>, production: Option<string>)

  /** The `ApiEndpoints` section: DockerCompose, LocalDevelopment, Production and FallbackOrder. */
  datatype Configuration = Configuration(
    dockerCompose: Option<string>,
    localDevelopment: Option<string>,
    production: Option<string>,
    fallbackOrder: Option<seq<string>>)

  datatype Candidate = Candidate(name: string, url: Option<string>)

  /** `s.TrimEnd(c)`: `s` without its trailing run of `c`. */
  function TrimEnd(s: string, c: char): (r: string)
    ensures r <= s
    ensures r == [] || r[|r| - 1] != c
    ensures forall i :: |r| <= i < |s| ==> s[i] == c
  {
    if s == [] || s[|s| - 1] != c then s else TrimEnd(s[..|s| - 1], c)
  }

  /** The URL probed for an endpoint. */
  function HealthUrl(endpoint: string): string {
    TrimEnd(endpoint, '/') + "/health"
  }

  /** The three environment entries, then each configuration entry whose environment variable is null or empty. */
  function Candidates(env: Environment, config: Configuration): (cs: seq<Candidate>)
    ensures |cs| == 3 + (if IsNullOrEmpty(env.docker) then 1 else 0) + (if IsNullOrEmpty(env.local) then 1 else 0)
      + (if IsNullOrEmpty(env.production) then 1 else 0)
    ensures cs[..3] == [Candidate("Docker", env.docker), Candidate("Local", env.local), Candidate("Production", env.production)]
  {
    [Candidate("Docker", env.docker), Candidate("Local", env.local), Candidate("Production", env.production)]
    + (if IsNullOrEmpty(env.docker) then [Candidate("DockerCompose", config.dockerCompose)] else [])
    + (if IsNullOrEmpty(env.local) then [Candidate("LocalDevelopment", config.localDevelopment)] else [])
    + (if IsNullOrEmpty(env.production) then [Candidate("Production", config.production)] else [])
  }

  /** A candidate is set and its health probe succeeds. */
  predicate Succeeds(c: Candidate, healthy: string -> bool) {
    !IsNullOrEmpty(c.url) && healthy(HealthUrl(c.url.value))
  }

  /** The URL of the first candidate whose probe succeeds. */
  function FirstHealthy(cs: seq<Candidate>, healthy: string -> bool): Option<string> {
    if cs == [] then None
    else if Succeeds(cs[0], healthy) then cs[0].url
    else FirstHealthy(cs[1..], healthy)
  }

  /** `endpoints.FirstOrDefault(e => !string.IsNullOrEmpty(e.url)).url`. */
  function FirstSet(cs: seq<Candidate>): Option<string> {
    if cs == [] then None
    else if !IsNullOrEmpty(cs[0].url) then cs[0].url
    else FirstSet(cs[1..])
  }

  /** What the resolver returns for a candidate list. */
  function Resolve(cs: seq<Candidate>, healthy: string -> bool): string {
    match FirstHealthy(cs, healthy)
    case Some(url) => url
    case None => FirstSet(cs).GetOr(DefaultEndpoint)
  }

  /** `ResolveApiEndpointAsync()`. */
  method ResolveApiEndpointAsync(env: Environment, config: Configuration, healthy: string -> bool) returns (endpoint: string)
    ensures endpoint == Resolve(Candidates(env, config), healthy)
  {
    var fallbackOrder := config.fallbackOrder.GetOr(DefaultFallbackOrder);
    var endpoints := [Candidate("Docker", env.docker), Candidate("Local", env.local), Candidate("Production", env.production)];
    if IsNullOrEmpty(env.docker) {
      endpoints := endpoints + [Candidate("DockerCompose", config.dockerCompose)];
    }
    if IsNullOrEmpty(env.local) {
      endpoints := endpoints + [Candidate("LocalDevelopment", config.localDevelopment)];
    }
    if IsNullOrEmpty(env.production) {
      endpoints := endpoints + [Candidate("Production", config.production)];
    }
    assert endpoints == Candidates(env, config);
    var i := 0;
    while i < |endpoints|
      invariant 0 <= i <= |endpoints|
      invariant forall j :: 0 <= j < i ==> !Succeeds(endpoints[j], healthy)
    {
      var url := endpoints[i].url;
      if !IsNullOrEmpty(url) && healthy(HealthUrl(url.value)) {
        ResolveFirstHealthy(endpoints, healthy, i);
        return url.value;
      }
      i := i + 1;
    }
    NoneHealthy(endpoints, healthy);
    var first := FirstSet(endpoints);
    endpoint := if first.Some? then first.value else DefaultEndpoint;
  }

  // ---------------------------------------------------------------------------
  // Properties

  /**
   * The first candidate, in order, that is set and whose probe succeeds is
   * returned untrimmed; a candidate before it was unset or failed its probe.
   */
  lemma {:induction false} ResolveFirstHealthy(cs: seq<Candidate>, healthy: string -> bool, i: nat)
    requires i < |cs| && Succeeds(cs[i], healthy)
    requires forall j :: 0 <= j < i ==> !Succeeds(cs[j], healthy)
    ensures Resolve(cs, healthy) == cs[i].url.value
  {
    FirstHealthyAt(cs, healthy, i);
  }

  lemma {:induction false} FirstHealthyAt(cs: seq<Candidate>, healthy: string -> bool, i: nat)
    requires i < |cs| && Succeeds(cs[i], healthy)
    requires forall j :: 0 <= j < i ==> !Succeeds(cs[j], healthy)
    ensures FirstHealthy(cs, healthy) == cs[i].url
  {
    if i > 0 {
      FirstHealthyAt(cs[1..], healthy, i - 1);
    }
  }

  lemma {:induction false} NoneHealthy(cs: seq<Candidate>, healthy: string -> bool)
    requires forall j :: 0 <= j < |cs| ==> !Succeeds(cs[j], healthy)
    ensures FirstHealthy(cs, healthy) == None
  {
    if cs != [] {
      NoneHealthy(cs[1..], healthy);
    }
  }

  lemma {:induction false} FirstSetAt(cs: seq<Candidate>, i: nat)
    requires i < |cs| && !IsNullOrEmpty(cs[i].url)
    requires forall j :: 0 <= j < i ==> IsNullOrEmpty(cs[j].url)
    ensures FirstSet(cs) == cs[i].url
  {
    if i > 0 {
      FirstSetAt(cs[1..], i - 1);
    }
  }

  lemma {:induction false} NoneSet(cs: seq<Candidate>)
    requires forall j :: 0 <= j < |cs| ==> IsNullOrEmpty(cs[j].url)
    ensures FirstSet(cs) == None
  {
    if cs != [] {
      NoneSet(cs[1..]);
    }
  }

  /** When no probe succeeds, the first set candidate is returned, and the default when none is set. */
  lemma ResolveFallback(cs: seq<Candidate>, healthy: string -> bool)
    requires forall j :: 0 <= j < |cs| ==> !Succeeds(cs[j], healthy)
    ensures forall i :: 0 <= i < |cs| && !IsNullOrEmpty(cs[i].url) && (forall j :: 0 <= j < i ==> IsNullOrEmpty(cs[j].url)) ==>
      Resolve(cs, healthy) == cs[i].url.value
    ensures (forall j :: 0 <= j < |cs| ==> IsNullOrEmpty(cs[j].url)) ==> Resolve(cs, healthy) == DefaultEndpoint
  {
    NoneHealthy(cs, healthy);
    forall i | 0 <= i < |cs| && !IsNullOrEmpty(cs[i].url) && (forall j :: 0 <= j < i ==> IsNullOrEmpty(cs[j].url))
      ensures Resolve(cs, healthy) == cs[i].url.value
    {
      FirstSetAt(cs, i);
    }
    if forall j :: 0 <= j < |cs| ==> IsNullOrEmpty(cs[j].url) {
      NoneSet(cs);
    }
  }

  lemma {:induction false} FirstHealthyIsSet(cs: seq<Candidate>, healthy: string -> bool)
    ensures FirstHealthy(cs, healthy).Some? ==> FirstHealthy(cs, healthy).value != ""
    ensures FirstSet(cs).Some? ==> FirstSet(cs).value != ""
  {
    if cs != [] {
      FirstHealthyIsSet(cs[1..], healthy);
    }
  }

  /** The result is never empty: a set candidate or the default. */
  lemma ResolveNotEmpty(cs: seq<Candidate>, healthy: string -> bool)
    ensures Resolve(cs, healthy) != ""
  {
    FirstHealthyIsSet(cs, healthy);
  }

  /**
   * Unset candidates are never probed: two probes that agree on the health
   * URLs of the set candidates give the same result.
   */
  lemma {:induction false} OnlySetCandidatesProbed(cs: seq<Candidate>, healthy: string -> bool, healthy': string -> bool)
    requires forall j :: 0 <= j < |cs| && !IsNullOrEmpty(cs[j].url) ==>
      healthy(HealthUrl(cs[j].url.value)) == healthy'(HealthUrl(cs[j].url.value))
    ensures Resolve(cs, healthy) == Resolve(cs, healthy')
  {
    SameFirstHealthy(cs, healthy, healthy');
  }

  lemma {:induction false} SameFirstHealthy(cs: seq<Candidate>, healthy: string -> bool, healthy': string -> bool)
    requires forall j :: 0 <= j < |cs| && !IsNullOrEmpty(cs[j].url) ==>
      healthy(HealthUrl(cs[j].url.value)) == healthy'(HealthUrl(cs[j].url.value))
    ensures FirstHealthy(cs, healthy) == FirstHealthy(cs, healthy')
  {
    if cs != [] {
      assert Succeeds(cs[0], healthy) == Succeeds(cs[0], healthy');
      SameFirstHealthy(cs[1..], healthy, healthy');
    }
  }

  /** The position of a configuration entry's name in the order the resolver adds them. */
  function ConfigRank(name: string): nat {
    if name == "DockerCompose" then 0 else if name == "LocalDevelopment" then 1 else 2
  }

  /** A configuration entry is a candidate exactly when its environment variable is null or empty, after the three environment entries. */
  lemma ConfigEntries(env: Environment, config: Configuration)
    ensures var cs := Candidates(env, config);
      (Candidate("DockerCompose", config.dockerCompose) in cs[3..] <==> IsNullOrEmpty(env.docker)) &&
      (Candidate("LocalDevelopment", config.localDevelopment) in cs[3..] <==> IsNullOrEmpty(env.local)) &&
      (Candidate("Production", config.production) in cs[3..] <==> IsNullOrEmpty(env.production))
  {
    var cs := Candidates(env, config);
    var a := if IsNullOrEmpty(env.docker) then [Candidate("DockerCompose", config.dockerCompose)] else [];
    var b := if IsNullOrEmpty(env.local) then [Candidate("LocalDevelopment", config.localDevelopment)] else [];
    var c := if IsNullOrEmpty(env.production) then [Candidate("Production", config.production)] else [];
    assert cs[3..] == a + b + c;
    assert forall x :: x in a + b + c <==> x in a || x in b || x in c;
  }

  /** The configuration entries come in the order DockerCompose, LocalDevelopment, Production. */
  lemma ConfigOrder(env: Environment, config: Configuration)
    ensures var cs := Candidates(env, config);
      forall i, j :: 3 <= i < j < |cs| ==> ConfigRank(cs[i].name) < ConfigRank(cs[j].name)
  {
    var cs := Candidates(env, config);
    var a := if IsNullOrEmpty(env.docker) then [0] else [];
    var b := if IsNullOrEmpty(env.local) then [1] else [];
    var c := if IsNullOrEmpty(env.production) then [2] else [];
    var ranks := a + b + c;
    assert |ranks| == |cs| - 3;
    assert forall k :: 3 <= k < |cs| ==> ConfigRank(cs[k].name) == ranks[k - 3];
  }

  /** `FallbackOrder` is read but plays no part in the result. */
  lemma FallbackOrderIgnored(env: Environment, config: Configuration, order: Option<seq<string>>, healthy: string -> bool)
    ensures Resolve(Candidates(env, config.(fallbackOrder := order)), healthy) == Resolve(Candidates(env, config), healthy)
  {
  }
}
