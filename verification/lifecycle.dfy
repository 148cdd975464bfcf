/**
 The four transitions of the captcha lifecycle: issue a challenge, verify an
 answer, check for a proof, and sweep expired challenges. The clock, the id
 generator, the image generator and the URL parser are parameters: `now`,
 `freshId`, the two `Artifact`s and `urlHost`.
 */
module Lifecycle {
  import opened CaptchaTypes
  import opened CaseFold

  /** The key passes validation: present, a string, exactly ten characters. */
  predicate KeyAccepted(key: Param) {
    key.Str? && |key.value| == ProviderKeyLength
  }

  /** The method a request for provider `p` from `site` is served with.
      `urlHost(u)` is the hostname of `u`, or `None` when `u` is not a URL. */
  function EffectiveMethod(p: Provider, site: Option<string>, urlHost: string -> Option<string>): (m: string)
    ensures m == p.defaultMethod || (p.overrides.Some? && m in p.overrides.value.Values && m != "")
    ensures site.None? || site == Some("") ==> m == p.defaultMethod
    ensures site.Some? && urlHost(site.value).None? ==> m == p.defaultMethod
    ensures p.overrides.None? ==> m == p.defaultMethod
    // a truthy override for the parsed hostname wins; no entry or an empty one leaves the default
    ensures site.Some? && site.value != "" && urlHost(site.value).Some? && p.overrides.Some? ==>
      var host := urlHost(site.value).value;
      && (host in p.overrides.value && p.overrides.value[host] != "" ==> m == p.overrides.value[host])
      && (host !in p.overrides.value || p.overrides.value[host] == "" ==> m == p.defaultMethod)
  {
    if site.Some? && site.value != "" then
      match urlHost(site.value)
      case None => p.defaultMethod
      case Some(host) =>
        if p.overrides.Some? && host in p.overrides.value && p.overrides.value[host] != ""
        then p.overrides.value[host]
        else p.defaultMethod
    else
      p.defaultMethod
  }

  /** The generated challenge: image, expected answer and input kind. */
  datatype Generated = Generated(image: string, result: string, input: string)

  /** Runs the generator for `m`: `textArt` stands for a text captcha,
      `mathArt` for an arithmetic one; any other method yields an empty challenge. */
  function Generate(m: string, textArt: Artifact, mathArt: Artifact): (g: Generated)
    ensures g.input == "text" <==> m in {"text", "math"}
    ensures g.input != "text" ==> g == Generated("", "", "")
    ensures m == "text" ==> g.image == textArt.image && g.result == textArt.text
    ensures m == "math" ==> g.image == mathArt.image && g.result == mathArt.text
  {
    if m == "text" then Generated(textArt.image, textArt.text, "text")
    else if m == "math" then Generated(mathArt.image, mathArt.text, "text")
    else Generated("", "", "")
  }

  /** Issue a challenge for provider `key`, optionally naming the calling `site`. */
  function Issue(s: State, key: Param, site: Option<string>, urlHost: string -> Option<string>,
                 freshId: string, textArt: Artifact, mathArt: Artifact, now: nat): (r: Step<IssueResponse>)
    ensures r.response.KeyRequired? <==> !KeyAccepted(key)
    ensures r.response.ProviderMissing? <==> KeyAccepted(key) && key.value !in s.providers
    ensures !r.response.Issued? ==> r.state == s
    ensures r.response.Issued? ==>
      && r.response.id == freshId
      && r.state.proofs == s.proofs
      && r.state.providers == s.providers
      && r.state.challenges.Keys == s.challenges.Keys + {freshId}
      && (forall id :: id in s.challenges && id != freshId ==> r.state.challenges[id] == s.challenges[id])
      && r.state.challenges[freshId].provider == key.value
      && r.state.challenges[freshId].expires == now + ChallengeTtl
    // the stored answer is the answer of the image handed out, as generated for the effective method
    ensures r.response.Issued? ==>
      var g := Generate(EffectiveMethod(s.providers[key.value], site, urlHost), textArt, mathArt);
      && r.state.challenges[freshId].result == g.result
      && r.response == Issued(freshId, g.input, g.image)
  {
    if !KeyAccepted(key) then Step(s, KeyRequired)
    else if key.value !in s.providers then Step(s, ProviderMissing)
    else
      var m := EffectiveMethod(s.providers[key.value], site, urlHost);
      var g := Generate(m, textArt, mathArt);
      var c := Challenge(g.result, key.value, now + ChallengeTtl);
      Step(s.(challenges := s.challenges[freshId := c]), Issued(freshId, g.input, g.image))
  }

  /** The id names a pending challenge that has not expired at `now`;
      a challenge is still live at the instant `now == expires`. */
  predicate Live(s: State, id: Param, now: nat) {
    id.Str? && id.value in s.challenges && now <= s.challenges[id.value].expires
  }

  /** Provider `p` after one answer: exactly one counter goes up by one. */
  function Count(p: Provider, success: bool): (p': Provider)
    ensures p'.defaultMethod == p.defaultMethod && p'.overrides == p.overrides
    ensures p'.good + p'.bad == p.good + p.bad + 1
    ensures success ==> p'.good == p.good + 1 && p'.bad == p.bad
    ensures !success ==> p'.bad == p.bad + 1 && p'.good == p.good
  {
    if success then p.(good := p.good + 1) else p.(bad := p.bad + 1)
  }

  /** Verify `input` against the challenge `id`. */
  function Verify(s: State, id: Param, input: string, now: nat): (r: Step<VerifyResponse>)
    requires Valid(s)
    ensures r.response.InvalidId? <==> !Live(s, id, now)
    ensures r.response.InvalidId? ==> r.state == s
    ensures r.response.Verdict? ==>
      var c := s.challenges[id.value];
      var p := s.providers[c.provider];
      && r.response.success == Match(c.result, input)
      // the challenge is consumed, whatever the verdict
      && r.state.challenges.Keys == s.challenges.Keys - {id.value}
      && (forall other :: other in r.state.challenges ==> r.state.challenges[other] == s.challenges[other])
      // exactly one counter of the owning provider moves, by one
      && r.state.providers.Keys == s.providers.Keys
      && (forall k :: k in s.providers && k != c.provider ==> r.state.providers[k] == s.providers[k])
      && r.state.providers[c.provider].defaultMethod == p.defaultMethod
      && r.state.providers[c.provider].overrides == p.overrides
      && r.state.providers[c.provider].good == p.good + (if r.response.success then 1 else 0)
      && r.state.providers[c.provider].bad == p.bad + (if r.response.success then 0 else 1)
      // a proof is recorded exactly on success
      && (r.response.success ==> r.state.proofs == s.proofs[id.value := now + ProofTtl])
      && (!r.response.success ==> r.state.proofs == s.proofs)
  {
    match Lookup(s.challenges, id)
    case None => Step(s, InvalidId)
    case Some(c) =>
      if now > c.expires then Step(s, InvalidId)
      else
        var success := Match(c.result, input);
        var providers := s.providers[c.provider := Count(s.providers[c.provider], success)];
        var proofs := if success then s.proofs[id.value := now + ProofTtl] else s.proofs;
        Step(State(s.challenges - {id.value}, proofs, providers), Verdict(success))
  }

  /** Whether `id` carries a proof of success. The stored expiry is read only
      for its truthiness; the current time plays no part. */
  function Check(s: State, id: Param): (ok: bool)
    ensures ok ==> id.Str? && id.value in s.proofs
    ensures Valid(s) ==> (ok <==> id.Str? && id.value in s.proofs)
  {
    match Lookup(s.proofs, id)
    case None => false
    case Some(expires) => expires != 0
  }

  /** The challenges a sweep at `now` keeps: those with `expires >= now`. */
  function SweepChallenges(m: map<string, Challenge>, now: nat): (kept: map<string, Challenge>)
    ensures kept.Keys == set id | id in m && m[id].expires >= now
    ensures forall id :: id in kept ==> kept[id] == m[id]
  {
    map id | id in m && !(m[id].expires < now) :: m[id]
  }

  /** The periodic sweep, as one transition. */
  function Sweep(s: State, now: nat): (r: State)
    ensures r.challenges.Keys <= s.challenges.Keys
    ensures forall id :: id in s.challenges ==> (id in r.challenges <==> now <= s.challenges[id].expires)
    ensures forall id :: id in r.challenges ==> r.challenges[id] == s.challenges[id]
    ensures r.proofs == s.proofs && r.providers == s.providers
  {
    s.(challenges := SweepChallenges(s.challenges, now))
  }

  /** The sweep as the timer runs it: walk a snapshot of the entries and delete
      every expired one from the live map. */
  method SweepEntries(m: map<string, Challenge>, now: nat) returns (kept: map<string, Challenge>)
    ensures kept == SweepChallenges(m, now)
  {
    var snapshot := m.Keys;
    kept := m;
    while snapshot != {}
      invariant snapshot <= kept.Keys <= m.Keys
      invariant forall id :: id in kept ==> kept[id] == m[id]
      invariant forall id :: id in m && id !in snapshot ==> (id in kept <==> m[id].expires >= now)
      decreases snapshot
    {
      var id :| id in snapshot;
      if m[id].expires < now {
        kept := kept - {id};
      }
      snapshot := snapshot - {id};
    }
  }
}
