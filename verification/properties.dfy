/**
 Properties relating several transitions of the captcha lifecycle: the state
 invariant, the one-shot use of a challenge, the issue/verify/check round trip,
 the agreement of the sweep with verification, and what holds over any
 sequence of requests.
 */
module LifecycleProperties {
  import opened CaptchaTypes
  import opened CaseFold
  import opened Lifecycle

  lemma IssuePreservesValid(s: State, key: Param, site: Option<string>, urlHost: string -> Option<string>,
                            freshId: string, textArt: Artifact, mathArt: Artifact, now: nat)
    requires Valid(s)
    ensures Valid(Issue(s, key, site, urlHost, freshId, textArt, mathArt, now).state)
  {
  }

  lemma VerifyPreservesValid(s: State, id: Param, input: string, now: nat)
    requires Valid(s)
    ensures Valid(Verify(s, id, input, now).state)
  {
  }

  lemma SweepPreservesValid(s: State, now: nat)
    requires Valid(s)
    ensures Valid(Sweep(s, now))
  {
  }

  /** A challenge answers at most one verification: once a verify has been
      accepted, right or wrong, every later verify of that id is rejected. */
  lemma VerifyConsumesChallenge(s: State, id: Param, input: string, now: nat, input2: string, later: nat)
    requires Valid(s)
    requires Verify(s, id, input, now).response.Verdict?
    ensures var s1 := Verify(s, id, input, now).state;
      Valid(s1) && Verify(s1, id, input2, later) == Step(s1, InvalidId)
  {
    VerifyPreservesValid(s, id, input, now);
  }

  /** Issue followed by verify: accepted up to and including the expiry
      instant, rejected after it; a correct answer leaves a proof that check
      reports, a wrong one leaves check as it was. */
  lemma IssueThenVerify(s: State, key: Param, site: Option<string>, urlHost: string -> Option<string>,
                        freshId: string, textArt: Artifact, mathArt: Artifact, now: nat,
                        input: string, later: nat)
    requires Valid(s)
    requires Issue(s, key, site, urlHost, freshId, textArt, mathArt, now).response.Issued?
    ensures
      var s1 := Issue(s, key, site, urlHost, freshId, textArt, mathArt, now).state;
      var v := Verify(s1, Str(freshId), input, later);
      && (v.response.Verdict? <==> later <= now + ChallengeTtl)
      && (v.response.Verdict? ==> v.response.success == Match(s1.challenges[freshId].result, input))
      && (v.response.Verdict? ==> (Check(v.state, Str(freshId)) <==> v.response.success || Check(s, Str(freshId))))
      && s1.providers[key.value].good + s1.providers[key.value].bad + (if v.response.Verdict? then 1 else 0)
         == v.state.providers[key.value].good + v.state.providers[key.value].bad
  {
    IssuePreservesValid(s, key, site, urlHost, freshId, textArt, mathArt, now);
    var s1 := Issue(s, key, site, urlHost, freshId, textArt, mathArt, now).state;
    VerifyPreservesValid(s1, Str(freshId), input, later);
  }

  /** A provider whose effective method is neither `text` nor `math` issues
      challenges with an empty answer: the empty input passes them and every
      other input fails. */
  lemma UnrecognisedMethodAcceptsEmptyInput(s: State, key: Param, site: Option<string>, urlHost: string -> Option<string>,
                                            freshId: string, textArt: Artifact, mathArt: Artifact, now: nat, input: string)
    requires Valid(s)
    requires KeyAccepted(key) && key.value in s.providers
    requires EffectiveMethod(s.providers[key.value], site, urlHost) !in {"text", "math"}
    ensures
      var r := Issue(s, key, site, urlHost, freshId, textArt, mathArt, now);
      && r.response == Issued(freshId, "", "")
      && Verify(r.state, Str(freshId), input, now).response == Verdict(input == "")
  {
    IssuePreservesValid(s, key, site, urlHost, freshId, textArt, mathArt, now);
    EmptyAnswerMatchesOnlyEmpty(input);
  }

  /** The sweep and verification draw the expiry line at the same place: at
      time `now` the sweep removes a challenge exactly when verify would reject it. */
  lemma SweepAgreesWithVerify(s: State, id: string, input: string, now: nat)
    requires Valid(s)
    requires id in s.challenges
    ensures id !in Sweep(s, now).challenges <==> Verify(s, Str(id), input, now).response == InvalidId
  {
  }

  /** A sweep at time `t` changes no verification outcome at any time from `t` on. */
  lemma SweepUnobservable(s: State, t: nat, id: Param, input: string, now: nat)
    requires Valid(s)
    requires t <= now
    ensures Valid(Sweep(s, t))
    ensures Verify(Sweep(s, t), id, input, now).response == Verify(s, id, input, now).response
  {
    SweepPreservesValid(s, t);
  }

  /** Two sweeps amount to one sweep at the later time. */
  lemma SweepTwice(s: State, t1: nat, t2: nat)
    ensures Sweep(Sweep(s, t1), t2) == Sweep(s, if t1 <= t2 then t2 else t1)
  {
  }

  /** A challenge nobody answers is gone after the first sweep later than its lifetime. */
  lemma SweepRemovesAbandoned(s: State, key: Param, site: Option<string>, urlHost: string -> Option<string>,
                              freshId: string, textArt: Artifact, mathArt: Artifact, now: nat, t: nat)
    requires Issue(s, key, site, urlHost, freshId, textArt, mathArt, now).response.Issued?
    requires t > now + ChallengeTtl
    ensures freshId !in Sweep(Issue(s, key, site, urlHost, freshId, textArt, mathArt, now).state, t).challenges
  {
  }

  // ---------------------------------------------------------------------
  // Sequences of requests

  /** One request to the service, or one firing of the sweep timer. */
  datatype Event =
    | IssueEvent(key: Param, site: Option<string>, freshId: string, textArt: Artifact, mathArt: Artifact, now: nat)
    | VerifyEvent(id: Param, input: string, now: nat)
    | CheckEvent(id: Param)
    | SweepEvent(now: nat)

  function Apply(s: State, e: Event, urlHost: string -> Option<string>): (r: State)
    requires Valid(s)
    ensures Valid(r)
  {
    match e
    case IssueEvent(key, site, freshId, textArt, mathArt, now) =>
      IssuePreservesValid(s, key, site, urlHost, freshId, textArt, mathArt, now);
      Issue(s, key, site, urlHost, freshId, textArt, mathArt, now).state
    case VerifyEvent(id, input, now) =>
      VerifyPreservesValid(s, id, input, now);
      Verify(s, id, input, now).state
    case CheckEvent(_) => s
    case SweepEvent(now) =>
      SweepPreservesValid(s, now);
      Sweep(s, now)
  }

  /** The state after serving `events` in order. Whatever the requests, the
      invariant holds, no proof disappears, no provider appears or disappears,
      and no counter goes down. */
  function Run(s: State, events: seq<Event>, urlHost: string -> Option<string>): (r: State)
    requires Valid(s)
    ensures Valid(r)
    ensures s.proofs.Keys <= r.proofs.Keys
    ensures r.providers.Keys == s.providers.Keys
    ensures forall k :: k in s.providers ==>
      r.providers[k].good >= s.providers[k].good && r.providers[k].bad >= s.providers[k].bad
    decreases |events|
  {
    if |events| == 0 then s
    else Run(Apply(s, events[0], urlHost), events[1..], urlHost)
  }

  /** A proof, once recorded, is reported by check after any further requests:
      the stored expiry of a proof is never consulted. */
  lemma ProofOutlivesItsExpiry(s: State, events: seq<Event>, urlHost: string -> Option<string>, id: string)
    requires Valid(s)
    requires Check(s, Str(id))
    ensures Check(Run(s, events, urlHost), Str(id))
  {
  }

  /** 1 when `id` has a pending challenge, else 0. */
  function Pending(s: State, id: string): nat {
    if id in s.challenges then 1 else 0
  }

  /** `e` is an issue request that is granted and hands out `id`; a refused
      request (bad key, unknown provider) hands out nothing. */
  predicate IssuesId(s: State, e: Event, urlHost: string -> Option<string>, id: string) {
    && e.IssueEvent?
    && e.freshId == id
    && Issue(s, e.key, e.site, urlHost, e.freshId, e.textArt, e.mathArt, e.now).response.Issued?
  }

  /** The number of granted issue requests in `events` that hand out `id`. */
  function IssuesOf(s: State, events: seq<Event>, urlHost: string -> Option<string>, id: string): nat
    requires Valid(s)
    decreases |events|
  {
    if |events| == 0 then 0
    else
      (if IssuesId(s, events[0], urlHost, id) then 1 else 0)
      + IssuesOf(Apply(s, events[0], urlHost), events[1..], urlHost, id)
  }

  /** The number of verify events for `id` that are answered with a verdict. */
  function Verdicts(s: State, events: seq<Event>, urlHost: string -> Option<string>, id: string): nat
    requires Valid(s)
    decreases |events|
  {
    if |events| == 0 then 0
    else
      var e := events[0];
      (if e.VerifyEvent? && e.id == Str(id) && Live(s, e.id, e.now) then 1 else 0)
      + Verdicts(Apply(s, e, urlHost), events[1..], urlHost, id)
  }

  /** One step of the potential argument below. */
  lemma StepConsumesAtMostOnce(s: State, e: Event, urlHost: string -> Option<string>, id: string)
    requires Valid(s)
    ensures (if e.VerifyEvent? && e.id == Str(id) && Live(s, e.id, e.now) then 1 else 0) + Pending(Apply(s, e, urlHost), id)
            <= (if IssuesId(s, e, urlHost, id) then 1 else 0) + Pending(s, id)
  {
  }

  /** However requests interleave, an id earns at most one verdict per time
      it is issued (plus one if it was already pending at the start): two
      verifications can never both be accepted for one issued challenge. */
  lemma {:induction false} AtMostOneVerdictPerIssue(s: State, events: seq<Event>, urlHost: string -> Option<string>, id: string)
    requires Valid(s)
    ensures Verdicts(s, events, urlHost, id) + Pending(Run(s, events, urlHost), id) <= IssuesOf(s, events, urlHost, id) + Pending(s, id)
    decreases |events|
  {
    if |events| > 0 {
      var s1 := Apply(s, events[0], urlHost);
      StepConsumesAtMostOnce(s, events[0], urlHost, id);
      AtMostOneVerdictPerIssue(s1, events[1..], urlHost, id);
    }
  }

  /** From the initial state, verdicts for an id never outnumber its issues. */
  lemma {:induction false} FromStartVerdictsBoundedByIssues(providers: map<string, Provider>, events: seq<Event>,
                                         urlHost: string -> Option<string>, id: string)
    ensures Verdicts(Initial(providers), events, urlHost, id) <= IssuesOf(Initial(providers), events, urlHost, id)
  {
    AtMostOneVerdictPerIssue(Initial(providers), events, urlHost, id);
  }

  // ---------------------------------------------------------------------
  // Worked scenarios

  /** Provider `ABCDEFGHIJ` with default method `text`; the challenge reads
      `Qx7f`; the answer `qX7F` passes, check then reports the proof, and a
      second verify of the same id is rejected. */
  lemma TextScenario(urlHost: string -> Option<string>, textArt: Artifact, mathArt: Artifact, now: nat)
    requires textArt.text == "Qx7f"
    ensures
      var s0 := Initial(map["ABCDEFGHIJ" := Provider("text", None, 0, 0)]);
      var r1 := Issue(s0, Str("ABCDEFGHIJ"), None, urlHost, "k1", textArt, mathArt, now);
      var r2 := Verify(r1.state, Str("k1"), "qX7F", now + 1000);
      var r3 := Verify(r2.state, Str("k1"), "qX7F", now + 2000);
      && r1.response == Issued("k1", "text", textArt.image)
      && r2.response == Verdict(true)
      && Check(r2.state, Str("k1"))
      && r2.state.providers["ABCDEFGHIJ"] == Provider("text", None, 1, 0)
      && r3.response == InvalidId
  {
    assert Match("Qx7f", "qX7F") by {
      assert SameLetter('Q', 'q') && SameLetter('x', 'X') && SameLetter('7', '7') && SameLetter('f', 'F');
    }
  }

  /** Provider with default `text` and override `example.com -> math`: a
      request from a page of example.com is served the arithmetic challenge,
      and an unparsable site silently falls back to the text challenge. */
  lemma OverrideScenario(urlHost: string -> Option<string>, textArt: Artifact, mathArt: Artifact, now: nat)
    requires urlHost("https://example.com/page") == Some("example.com")
    requires urlHost("not a url") == None
    ensures
      var p := Provider("text", Some(map["example.com" := "math"]), 0, 0);
      var s0 := Initial(map["ABCDEFGHIJ" := p]);
      var r1 := Issue(s0, Str("ABCDEFGHIJ"), Some("https://example.com/page"), urlHost, "k1", textArt, mathArt, now);
      var r2 := Issue(s0, Str("ABCDEFGHIJ"), Some("not a url"), urlHost, "k2", textArt, mathArt, now);
      && EffectiveMethod(p, Some("https://example.com/page"), urlHost) == "math"
      && EffectiveMethod(p, Some("not a url"), urlHost) == "text"
      && r1.response == Issued("k1", "text", mathArt.image)
      && r1.state.challenges["k1"].result == mathArt.text
      && r2.response == Issued("k2", "text", textArt.image)
      && r2.state.challenges["k2"].result == textArt.text
  {
  }

  /** A refused issue request hands out no id: it adds no pending challenge
      and does not count toward the issues of its id. */
  lemma RefusedIssueHandsOutNothing(s: State, e: Event, urlHost: string -> Option<string>)
    requires Valid(s)
    requires e.IssueEvent? && !KeyAccepted(e.key)
    ensures Apply(s, e, urlHost) == s
    ensures IssuesOf(s, [e], urlHost, e.freshId) == 0
  {
  }

  /** A key of the wrong length is refused even when a provider is stored under it. */
  lemma WrongLengthKeyRefused(s: State, key: string, site: Option<string>, urlHost: string -> Option<string>,
                              freshId: string, textArt: Artifact, mathArt: Artifact, now: nat)
    requires key in s.providers && |key| != ProviderKeyLength
    ensures Issue(s, Str(key), site, urlHost, freshId, textArt, mathArt, now) == Step(s, KeyRequired)
  {
  }
}
