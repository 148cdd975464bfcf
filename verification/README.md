# Captcha challenge lifecycle (Fsh-Captcha) in Dafny

This project models the captcha lifecycle of the Fsh-Captcha service. A
provider (an integrator identified by a 10-character key) asks for a challenge.
The service stores the expected answer for two minutes under a random id and
hands out the id, the input kind and the image, never the answer. A solver then submits an answer. The
service compares it case-insensitively and consumes the challenge. It bumps the
provider's `good` or `bad` counter. On a correct answer it records a proof under
the same id. A relying party can later check that id. A timer sweeps expired
challenges every ten minutes.

The model is functional. One immutable `State` holds the pending challenges,
the proofs and the provider records. Issue, verify, check and sweep are pure
functions of that state. The clock (`now`), the id generator (`freshId`), the
image generator (two `Artifact`s) and the URL parser (`urlHost`) are
parameters.

Files:
- `types.dfy` (`CaptchaTypes`): constants, records, state, the invariant `Valid`.
- `casefold.dfy` (`CaseFold`): lower-casing and the case-insensitive answer comparison.
- `lifecycle.dfy` (`Lifecycle`): the four transitions.
- `properties.dfy` (`LifecycleProperties`): lemmas relating transitions, and request sequences.

Three behaviours of the code worth stating:
- `check` does not look at the proof's expiry, and proofs are never removed
  (`LifecycleProperties.ProofOutlivesItsExpiry`).
- A verify of an expired, unswept challenge returns the error and leaves the
  entry in place; it is not deleted as a side effect (`Lifecycle.Verify`).
- An unrecognised method yields an empty challenge whose answer is the empty
  string, not a configuration error. The empty input then passes
  (`LifecycleProperties.UnrecognisedMethodAcceptsEmptyInput`).

## Model

| member | source | states |
|---|---|---|
| CaptchaTypes.Initial | index.js:26-27 | the service starts with no challenges and no proofs, and that state satisfies the invariant |
| CaptchaTypes.Lookup | index.js:173 | `Map.get` on string keys: an entry is found exactly when the parameter is a string that is a key, and then it is that key's value |
| CaseFold.Lower | index.js:184 | the lower-cased character is never an upper-case letter; non-upper-case characters are unchanged; each upper-case letter becomes its own lower-case letter (`A` to `a`, ..., `Z` to `z`) |
| CaseFold.Upper | index.js:184 | the partner of `Lower`: the result is never lower-case, and lower-casing it gives back a lower-case input |
| CaseFold.LowerUpperRoundTrip | index.js:184 | `Upper` undoes `Lower` on upper-case letters |
| CaseFold.LowerStr | index.js:184 | lower-casing a string keeps its length and lower-cases each position |
| CaseFold.Match | index.js:184 | the answer comparison holds exactly when both strings have the same length and agree position by position up to case |
| CaseFold.CaseVariantMatches | index.js:184 | any re-casing of the expected answer is accepted |
| CaseFold.LowerStrIdempotent | index.js:184 | lower-casing twice is lower-casing once |
| CaseFold.MatchIsEquivalence | index.js:184 | the comparison is reflexive, symmetric and transitive |
| CaseFold.EmptyAnswerMatchesOnlyEmpty | index.js:184 | an empty expected answer is matched by the empty input and nothing else |
| Lifecycle.EffectiveMethod | index.js:105-116 | when the site is non-empty and parses, a non-empty override for its hostname wins and a missing or empty override leaves the default; an absent or empty site, an unparsable site, or a provider without overrides gives the default |
| Lifecycle.Generate | index.js:118-144 | `text` and `math` produce a text-input challenge from their own generator; any other method produces an empty image, answer and input kind |
| Lifecycle.Issue | index.js:93-157 | refused with no state change unless the key is a 10-character string (the guard `KeyAccepted`, index.js:95); unknown provider changes nothing; on success exactly one entry is added under the returned id, with the provider key and expiry `now + 120000`, proofs and providers untouched; the stored answer, image and input kind are those the generator gives for the effective method, so the stored answer belongs to the returned image |
| Lifecycle.Count | index.js:185 | exactly one of the two counters goes up by one, chosen by the verdict; method and overrides stay |
| Lifecycle.Verify | index.js:159-191 | rejected with no state change exactly when the id is absent or `now > expires` (the guard `Live`, index.js:175); otherwise the verdict is the case-insensitive match, the challenge is removed, only the owning provider's matching counter moves by one, and a proof `now + 300000` is added exactly on success |
| Lifecycle.Check | index.js:193-198 | true only for a string id in the proof map, and in a valid state exactly then, whatever the stored expiry |
| Lifecycle.SweepChallenges | index.js:31-33 | keeps exactly the entries with `expires >= now`, unchanged |
| Lifecycle.Sweep | index.js:29-34 | removes exactly the challenges with `expires < now`, keeps the rest unchanged, and leaves proofs and providers alone |
| Lifecycle.SweepEntries | index.js:30-33 | deleting expired entries while walking a snapshot of the map yields exactly the declarative sweep |
| LifecycleProperties.IssuePreservesValid | index.js:103-150 | issue keeps every challenge's provider known and every proof truthy |
| LifecycleProperties.VerifyPreservesValid | index.js:184-188 | verify keeps the invariant |
| LifecycleProperties.SweepPreservesValid | index.js:29-34 | the sweep keeps the invariant |
| LifecycleProperties.VerifyConsumesChallenge | index.js:173-186 | after an accepted verify, right or wrong, every later verify of the same id is rejected with no state change |
| LifecycleProperties.IssueThenVerify | index.js:146-190 | a fresh challenge is accepted up to and including `now + 120000` and rejected after; the verdict is the match against the stored answer; check then reports success or what it reported before; counters grow by one exactly when accepted |
| LifecycleProperties.UnrecognisedMethodAcceptsEmptyInput | index.js:120-150 | with a method other than `text`/`math` the response has empty input kind and image, and only the empty answer passes |
| LifecycleProperties.SweepAgreesWithVerify | index.js:32 | at one instant, the sweep removes a challenge exactly when verify would reject it |
| LifecycleProperties.SweepUnobservable | index.js:29-34 | a sweep at `t` changes no verify response at any time from `t` on |
| LifecycleProperties.SweepTwice | index.js:29-34 | two sweeps equal one sweep at the later time |
| LifecycleProperties.SweepRemovesAbandoned | index.js:146-150 | an unanswered challenge is gone after any sweep later than its two-minute lifetime |
| LifecycleProperties.Apply | index.js:93-198 | any single request or sweep keeps the invariant |
| LifecycleProperties.Run | index.js:93-198 | over any request sequence the invariant holds, proofs are never removed, the provider set is unchanged and no counter decreases |
| LifecycleProperties.ProofOutlivesItsExpiry | index.js:188-197 | once check reports a proof, it keeps doing so after any further requests, past the proof's stored expiry |
| LifecycleProperties.StepConsumesAtMostOnce | index.js:173-186 | one request can accept a verify for an id only by consuming the pending challenge, and only issue creates one |
| LifecycleProperties.AtMostOneVerdictPerIssue | index.js:146-186 | in any request sequence an id gets at most one accepted verify per granted issue that hands it out (refused issue requests count for nothing), plus one if it was pending at the start |
| LifecycleProperties.FromStartVerdictsBoundedByIssues | index.js:26-27 | from the initial state, accepted verifies of an id never outnumber the granted issues that hand it out |
| LifecycleProperties.TextScenario | index.js:93-198 | key `ABCDEFGHIJ`, default `text`, answer `Qx7f`: `qX7F` passes, check reports it, `good` becomes 1, a second verify is rejected |
| LifecycleProperties.OverrideScenario | index.js:105-150 | an override `example.com` to `math` makes issue from a page of that host serve and store the arithmetic challenge, and an unparsable site falls back to the text challenge |
| LifecycleProperties.RefusedIssueHandsOutNothing | index.js:95-102 | an issue request refused for its key leaves the state unchanged and counts as no issue of its id |
| LifecycleProperties.WrongLengthKeyRefused | index.js:95-102 | a key of the wrong length is refused even when a provider is stored under it |

## Left out

- HTTP routing, CORS, body parsing, page rendering, static media, the 404 handler and listening on a port (index.js:65-91, 200-209): transport, not lifecycle.
- Cookie login, `getUser` and its token cache (index.js:43-63): account authentication over the network, unrelated to captchas.
- Image generation and id generation (index.js:8-14, 119-143): foreign libraries and randomness. The generator outputs and the id are parameters. Ids are not checked for collisions; an id reused by the generator overwrites the pending entry, as `Map.set` does. The id generator is loaded asynchronously (index.js:10-14): until it is ready, an issue request that passes the key and provider checks throws at index.js:119 and fails with the state unchanged, where the model's `Issue` grants it.
- URL parsing: `urlHost` stands for `new URL(site).hostname`, with `None` for a throwing constructor. A non-string `site` query value is modelled by its string form.
- The provider store's persistence: providers are a map in the state. A provider record always carries both counters, so a missing counter (which the code would turn into `NaN`) is not modelled.
- Lifecycle.Issue: an unknown provider makes the code throw at line 106; the model answers `ProviderMissing` with the state unchanged.
- Lifecycle.Issue: the key length is counted in Unicode scalar values, while the code counts UTF-16 code units.
- Lifecycle.EffectiveMethod: override lookup is a map lookup; an inherited object property such as a hostname named `constructor` is not modelled.
- Lifecycle.Verify: requires `Valid` (every pending challenge names a known provider), which every transition preserves; the code's behaviour for a provider deleted out of band is not modelled.
- Lifecycle.Verify: one `now` stands for both clock reads of the handler (index.js:175, 188); the proof's expiry is `now + 300000` for the same instant that decided expiry. Check never reads the stored expiry, so the difference is not observable.
- Lifecycle.Verify: the answer is assumed to be a string; a missing or non-string `input` makes the code throw before any state change, which is not modelled. The `invalid body` branch (index.js:165-171) runs when no body was parsed; it answers 400 and changes no state, as `InvalidId` does for an `Absent` id, and is left out.
- Lifecycle.Count: counters are unbounded integers; the code's floating-point numbers stop growing exactly at 2^53.
- CaseFold.Lower: lower-cases ASCII letters only; the code's `toLowerCase` follows Unicode case mapping.
- The `uncaughtException` handler and the real timer (index.js:29, 37-40): the sweep is an ordinary transition, and `CleanupInterval` is only a constant. Sequential requests stand for the event loop's run-to-completion handlers.
- `CaptchaIdLength` and the text background colour are constants of the generators and play no part in the transitions.
