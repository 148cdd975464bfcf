/**
 Values, records and state of the captcha challenge lifecycle.

 The service keeps two in-memory maps (pending challenges and verified
 proofs) and reads and writes provider records in a key/value store. All three
 are fields of one immutable `State`; every transition of the lifecycle is a
 function from a `State` to a `Step` carrying the next state and the response.
 Times are integer milliseconds.
 */
module CaptchaTypes {

  /** Length a provider key must have to be accepted. */
  const ProviderKeyLength: nat := 10
  /** Length of the ids the id generator produces. */
  const CaptchaIdLength: nat := 12
  /** Lifetime of an issued challenge: 2 minutes. */
  const ChallengeTtl: nat := 2 * 60 * 1000
  /** Lifetime of a proof of success: 5 minutes. */
  const ProofTtl: nat := 5 * 60 * 1000
  /** Period of the background sweep: 10 minutes. */
  const CleanupInterval: nat := 10 * 60 * 1000

  datatype Option<+T> = None | Some(value: T)

  /** A request parameter as the HTTP layer hands it over: missing, a string,
      or any other value (an array, object, number, boolean or null parsed from
      the query or body). */
  datatype Param = Absent | Str(value: string) | NonString

  /** What the image generator produces: the rendered image and its answer. */
  datatype Artifact = Artifact(image: string, text: string)

  /** A pending challenge: expected answer, owning provider key, expiry time. */
  datatype Challenge = Challenge(result: string, provider: string, expires: nat)

  /** A provider record: default method, optional per-hostname overrides, and
      the counters of correct and wrong answers. */
  datatype Provider = Provider(defaultMethod: string, overrides: Option<map<string, string>>, good: int, bad: int)

  datatype State = State(
    challenges: map<string, Challenge>,
    proofs: map<string, nat>,
    providers: map<string, Provider>)

  /** Response of an issue request. The expected answer is not part of it. */
  datatype IssueResponse =
    | KeyRequired
    | ProviderMissing
    | Issued(id: string, input: string, image: string)

  /** Response of a verify request; `InvalidId` covers absent, consumed and expired ids alike. */
  datatype VerifyResponse = InvalidId | Verdict(success: bool)

  datatype Step<+R> = Step(state: State, response: R)

  /** The state the service starts in: no challenges, no proofs. */
  function Initial(providers: map<string, Provider>): (s: State)
    ensures Valid(s)
    ensures s.providers == providers && |s.challenges| == 0 && |s.proofs| == 0
  {
    State(map[], map[], providers)
  }

  /** The invariant every reachable state keeps: each pending challenge names a
      provider the store knows, and each proof carries a non-zero (truthy) expiry. */
  ghost predicate Valid(s: State) {
    && (forall id :: id in s.challenges ==> s.challenges[id].provider in s.providers)
    && (forall id :: id in s.proofs ==> s.proofs[id] > 0)
  }

  /** `Map.get` on a string-keyed map: only a string parameter can hit an entry. */
  function Lookup<V>(m: map<string, V>, id: Param): (r: Option<V>)
    ensures r.Some? <==> id.Str? && id.value in m
    ensures r.Some? ==> r.value == m[id.value]
  {
    if id.Str? && id.value in m then Some(m[id.value]) else None
  }
}
