# ClawWarden gateway: a verified model

ClawWarden stands between an application and a language model. It replaces personal data
in prompts by tokens such as `{{PERSON_1}}`, keeps the way back in an expiring session
vault, restores values by role in the answers, and writes a hash-chained audit log. This
project models the parts whose guarantees span several functions and proves them for all
inputs, runs and schedules.

| files | what they model |
|---|---|
| `Text`, `Intervals`, `Tokens`, `Detokenizer`, `Splicing` | `str.replace`, token syntax, the role-filtered replacement loop against one-pass substitution |
| `Spans`, `Tokenizer`, `SessionRoundTrip` | overlap removal, the right-to-left splice, whole sessions read back |
| `Minting`, `Vault`, `RedisStore`, `TimedMinting` | the GET / INCR / EXPIRE / SET NX / GET protocol under every interleaving, first without and then with expiry; the session store as a class whose commands can fail before or after they take effect |
| `ChatPipeline` | the chat endpoint as gates and effects with a failure possible at every store, audit and model call |
| `AuditChain`, `AuditCrypto`, `AuditLog`, `AuditRuns` | the Redis audit log: tip, day lists, counters, signed watermark, genesis, and its daily verifier |
| `AuditStore`, `KeyOrder`, `AuditAnchor` | the SQL mirror and the S3 Object Lock anchor, and their verifiers |
| `BrowserVault`, `BrowserTokenizer`, `BrowserRoundTrip` | the browser's immutable vault, claimed positions and round trip |
| `Evaluation`, `PerfectDetector`, `EvaluationRun`, `ResidualLeak`, `SloGate` | greedy span matching, when it is complete, counts and rates, which values leak, the per-domain gate |
| `Csv`, `CsvMixed`, `Luhn`, `RateLimiter`, `Syslog` | four small cores |

Code that changes things in place is modelled by classes and loops (`SessionStore`,
`Gateway`, `AuditLogger`, `DurableAuditStore`, `S3ObjectLockAnchor`, `Limiter` and the
methods named after the source's functions); each is proved against functions on values,
and the guarantees are lemmas about those functions.

## Assumptions

- The analyzer and the browser's regular expressions are arbitrary lists of non-empty
  spans of the text, scored or in order of priority.
- The 16-hex hash of (session, type, value) is a value of its own (`Digest`); Fernet is
  the identity; HMAC under the audit key and canonical JSON are injective, and a signature
  is neither empty nor the word "genesis" (`Crypto.Sound`; `AuditCrypto` exhibits such a
  pair).
- Nobody without the key makes a valid signature: where a verifier meets a valid hash, the
  body is one the logger signed (`Unforged`, `UnforgedObjects`). With
  the watermark as left the Redis result needs no such premise, because it pins the last
  hash; with another one, only that its signature is not forged (`UnforgedMark`).
- Callers of the token protocol interleave freely. The token map of a session and the
  audit chain of a tenant are written by one call at a time, as the code does not
  serialize them; audit events are logged without storage failures.
- Rates are exact reals. `toLowerCase` works character by character and neither makes nor
  removes a brace.

## What the proofs show about the code

- The audit module's header says each day starts from the sentinel; the code starts it
  from the last hash of the tenant's previous entry (`AuditRuns.GenesisLinksDays`).
- A day is therefore rejected by the daily verifier, though nobody touched it, when the
  dates of a tenant's events go back and forth (`AuditRuns.HonestDayVerifies` says exactly
  when, `AuditRuns.BackAndForthRejected` shows one).
- `worst_injection` is overwritten by any different severity, so what the record reports
  is the last one (`ChatPipeline.ReportedIsWorstExactly`, `ChatPipeline.MediumThenLow`).
- Sequential replacement is not simultaneous substitution in general: a value that occurs
  inside a later token breaks it (`Detokenizer.LoopIsOnePassExactly`,
  `Detokenizer.ForgingExample`).
- A detector that finds exactly the gold spans scores 1 in the order of the labels, and in
  any order where spans of one type that overlap a common third overlap each other;
  otherwise some order costs it a miss (`PerfectDetector.EveryOrderCompleteExactly`,
  `PerfectDetector.OrderMatters`).
- The daily verifier ties list, genesis and watermark to each other, not to the latest
  event: the three as they stood together at an earlier moment are accepted
  (`AuditRuns.RedisReplayExactly`).
- The leak count also counts a value that occurs inside the name of a detected type
  (`ResidualLeak.ValueSurvivesExactly`).
- The waitlist's limit of five per window lets nine, and never ten, through in a stretch of
  a window's length (`RateLimiter.AtMostNine`, `RateLimiter.NineHappen`).

## Model

| member | source | states |
|---|---|---|
| `Tokens.TokenRoundTrip` | apps/gateway/gateway/redis_store.py:116 | a printed token parses back to its short code and its number, and is two braces around a brace-free inside |
| `Tokens.TokensSpelled` | apps/gateway/gateway/tokenizer.py:22-36 | the tokens of the asked types, each spelled out: `{{EMAIL_n}}` for an e-mail address and so on |
| `Tokens.MatchTokenExactly` | apps/gateway/gateway/detokenizer.py:23-43 | the token expression matches exactly the keys that start with a printed token, and yields that token's code and digits |
| `Tokens.ShortCodesInvert` | apps/gateway/gateway/detokenizer.py:9-21 | the detokenizer's table undoes the tokenizer's short codes, so no two entity types share a code |
| `Tokens.NoPartialOverlap` | apps/gateway/gateway/detokenizer.py:23-46 | where one token stands in a text another can only start at the same place (and is then the same token) or past its end |
| `Detokenizer.RunDetokenize` | apps/gateway/gateway/detokenizer.py:26-50 | the loop, with its early return, its skipped keys and its role filter, computes the one-replacement-at-a-time specification the other rows reason about |
| `Detokenizer.EligibleExactly` | apps/gateway/gateway/detokenizer.py:40-46 | a key is replaced if and only if it starts with a token whose type the role may see |
| `Detokenizer.EligibleByType` | apps/gateway/gateway/detokenizer.py:40-46 | so a token of an asked type is restored if and only if its type is among the role's |
| `Detokenizer.LoopIsOnePassExactly` | apps/gateway/gateway/detokenizer.py:38-46 | for braced tokens and brace-free values: the sequence of `str.replace` calls is a single simultaneous substitution on every text if and only if no visible value occurs inside a visible token that comes later in the map |
| `Detokenizer.ForgingExample` | apps/gateway/gateway/detokenizer.py:38-46 | a vault of two entries, a date "1" before an SSN, and a text on which the loop reveals the SSN and one pass would not |
| `Detokenizer.SafeValuesAreIndependent` | apps/gateway/gateway/detokenizer.py:38-46 | values with some character outside A-Z, 0-9 and underscore never occur inside a token, so for them the condition above always holds |
| `Detokenizer.SmallerThenLargerRole` | apps/gateway/gateway/detokenizer.py:38-46 | if no visible value occurs inside a visible token: detokenizing for a smaller role and then for a larger one shows what the larger role alone shows, each in its own map order |
| `Detokenizer.OrderIrrelevant` | apps/gateway/gateway/detokenizer.py:39-46 | under the same condition the order of the map never changes what a role sees |
| `Detokenizer.HiddenTokenStays` | apps/gateway/gateway/detokenizer.py:40-46 | a token the role may not see, or the map does not hold, stays where it is and keeps the texts on its two sides apart |
| `Splicing.ReplaceAssembled` | apps/gateway/gateway/detokenizer.py:46 | replacing a token in a text spliced from gaps, tokens and values resolves exactly the spans filled with it; none is forged by a gap, a value or across a border |
| `Splicing.DetokenizeAssembled` | apps/gateway/gateway/detokenizer.py:38-46 | the whole loop on such a text changes the filled spans only |
| `Spans.AnalyzeSpans` | apps/gateway/gateway/tokenizer.py:156-177 | the covered-set loop and the two sorts compute the greedy choice by descending score, listed by descending start |
| `Spans.SortDescSorts` | apps/gateway/gateway/tokenizer.py:171-176 | the two sorts are stable descending permutations |
| `Spans.OverlapIsSharedPosition` | apps/gateway/gateway/tokenizer.py:170-174 | two spans overlap exactly when their position sets meet |
| `Spans.DedupRightToLeft` | apps/gateway/gateway/tokenizer.py:168-177 | the kept spans are pairwise disjoint and come right to left |
| `Spans.DroppedIsBeaten` | apps/gateway/gateway/tokenizer.py:168-174 | every dropped span overlaps a kept one of at least its score |
| `Minting.RunKeepsInv` | apps/gateway/gateway/redis_store.py:100-125 | every interleaving of GET, INCR, EXPIRE, SET NX and GET by any number of callers keeps: stored numbers distinct per type, numbers in flight owned by one caller, finished answers equal to the stored ones |
| `Minting.FinishedCallsAgree` | apps/gateway/gateway/redis_store.py:100-125 | in every interleaving two finished calls, for types whose codes read back, return the same token if and only if they asked for the same hash |
| `Minting.StoredTokensApart` | apps/gateway/gateway/redis_store.py:107-121 | in every interleaving no two hashes of such types hold one token |
| `Minting.EveryNumberAccounted` | apps/gateway/gateway/redis_store.py:112-125 | in every reachable state a type's counter is the tokens stored plus the races lost plus the calls between INCR and SET NX |
| `Minting.NothingIsTakenBack` | apps/gateway/gateway/redis_store.py:107-125 | whatever runs later, a stored token never changes, a finished call keeps its answer and no counter goes down |
| `Minting.AloneIsMint` | apps/gateway/gateway/redis_store.py:100-125 | a caller left alone finishes in four commands with the stored number, or the next one |
| `Vault.MintTokenIsProtocol` | apps/gateway/gateway/redis_store.py:100-125 | minting as one step on a session's vault is a run of the protocol by a caller alone: the call finishes with the token the vault then holds and leaves the store the vault says |
| `Vault.MintingKeeps` | apps/gateway/gateway/redis_store.py:100-125 | minting keeps the vault sound (tokens are printed forms of distinct numbers, every reversal entry undoes a minted token) and loses no binding |
| `Vault.MergingKeeps` | apps/gateway/gateway/redis_store.py:93-96 | merging a token map whose entries undo minted tokens keeps the vault sound and loses no binding; the new entries win |
| `Vault.TokensInjective` | apps/gateway/gateway/redis_store.py:107-125 | in a sound vault equal tokens mean equal hashes |
| `Vault.TokensReadBack` | apps/gateway/gateway/detokenizer.py:40-45 | the detokenizer reads off every stored token the entity type it was minted for |
| `RedisStore.ReadsSeeAll` | apps/gateway/gateway/redis_store.py:55-125 | while the provider config lives, GET and INCR behave as if no key of the session had ever expired |
| `RedisStore.SessionStore.GetOrCreateTokenForHash` | apps/gateway/gateway/redis_store.py:100-125 | on keys that expire, with any command failing before or after its effect: the answer is a token of the hash's type; while the config lives it is the minted one and the vault is exactly the minted vault; a call fails only if one of its commands did, and then at most skips a number |
| `RedisStore.SessionStore.UpdateTokenMap` | apps/gateway/gateway/redis_store.py:93-96 | the stored map becomes what could be read of the old one at some moment of the call (an expired one reads as empty) overridden by the new entries, or, on failure, that or the old one; while the config lives the old one is read whole; it fails only if a command did |
| `RedisStore.SessionStore.ConfigureSession` | apps/gateway/gateway/main.py:225-261 | a fresh session gets its config once and then its owner, each for 3600 seconds; no owner without a config; other sessions untouched |
| `TimedMinting.RunRefines` | apps/gateway/gateway/redis_store.py:47-125 | any interleaving of callers, clock ticks, owner and map writes on expiring keys, as long as the config lives, is an interleaving of the timeless protocol |
| `TimedMinting.NothingExpiresFirst` | apps/gateway/gateway/redis_store.py:43-125 | in every reachable state with a live config no hash, counter, owner or map key ever written for the session has expired |
| `TimedMinting.LiveTokensUnique` | apps/gateway/gateway/redis_store.py:100-125 | in every such state finished calls hold equal tokens exactly for equal hashes |
| `Tokenizer.HashInputInjective` | apps/gateway/gateway/tokenizer.py:143-145 | for colon-free session ids and types the hashed string determines session, type and value |
| `Tokenizer.AskedTypesMintable` | apps/gateway/gateway/tokenizer.py:22-37 | every entity type the analyzer is asked for prints as a token the detokenizer reads back |
| `Tokenizer.RunTokenize` | apps/gateway/gateway/tokenizer.py:180-227 | it fails only if a command did; the right-to-left loop on the expiring, failing store: the text is always the original with every kept span, and nothing else, replaced by a token of its type, gaps verbatim and in order; while the session lives, the vault, the entities and the token map are exactly those of minting the kept spans in order |
| `Tokenizer.MaskedReports` | apps/gateway/gateway/tokenizer.py:180-227 | the entities reported for a masked message: one per kept span, in order, with its type (MONEY reported as CURRENCY), its token, the text it covers and its place |
| `SessionRoundTrip.RecordedHolds` | apps/gateway/gateway/main.py:611-616 | once a message is recorded, each of its tokens is stored under its hash and the stored map leads back to its value |
| `SessionRoundTrip.RecordAllKeeps` | apps/gateway/gateway/main.py:611-616 | any sequence of messages keeps the vault sound and loses no binding |
| `SessionRoundTrip.RoleSeesMessage` | apps/gateway/gateway/detokenizer.py:26-50 | after any growth of the vault and in any map order, detokenizing a recorded message shows exactly the spans of the role's types and leaves the others as tokens |
| `SessionRoundTrip.SessionReadsBack` | apps/gateway/gateway/tokenizer.py:180-227 | after any sequence of messages and any further growth of the vault: a message without "{{" and with brace-free replaced values, whatever the other messages hold, detokenizes from its tokenized text, for a role allowed its types, to exactly itself |
| `ChatPipeline.VerdictSettled` | apps/gateway/gateway/main.py:495-604 | a session that lives to the end is judged the same at any moment of the request; one that was over at the start is not found |
| `ChatPipeline.Gateway.OpenSession` | apps/gateway/gateway/main.py:525-562 | past it the config had not expired when the request came in and the caller owned the session; a refusal that reports no failure is the one that the config and owner, each as it could be read at its moment, call for |
| `ChatPipeline.Gateway.GuardInjection` | apps/gateway/gateway/main.py:567-604 | refused with the severity of the first blocking turn, or, when every user turn ranks below the block severity, let through with the last finding's severity on record |
| `ChatPipeline.Gateway.Admit` | apps/gateway/gateway/main.py:495-604 | the gates in their order: token, denylist, config and owner, ownership, injection; what each refusal leaves behind, with no call of the model among it; an open gate means an unexpired config, every user turn below the block severity and the findings on record |
| `ChatPipeline.ReportedIsWorstExactly` | apps/gateway/gateway/main.py:576-580 | the severity in the "flagged" record is the last flagged turn's, and it is the worst one if and only if no earlier flagged turn ranks above it |
| `ChatPipeline.MediumThenLow` | apps/gateway/gateway/main.py:576-580 | two turns, neither blocked, whose record says "low" after a medium finding |
| `ChatPipeline.Gateway.TokenizeOne` | apps/gateway/gateway/main.py:611-615 | whatever fails, the vault stays sound and loses nothing; success means the message masked and, while the session lives, recorded |
| `ChatPipeline.Gateway.TokenizeAll` | apps/gateway/gateway/main.py:606-625 | for every schedule of failures and expiries: the vault stays sound and loses nothing; success means one message per input, in order, each with every kept span replaced by a token of its type, and, while the session lives, the vault recorded message by message |
| `ChatPipeline.Gateway.Forward` | apps/gateway/gateway/main.py:627-700 | the model is called only after the detection record was written, an answer is given only after the request record was; the answer is the model's text detokenized for the caller's types with the stored map |
| `ChatPipeline.Gateway.ChatCompletions` | apps/gateway/gateway/main.py:487-737 | for every schedule of failures: exactly which records and calls each answer leaves behind and in which order; the model is called only past every gate, on a session that had not expired, with every message masked; an answer that reports no failure is the verdict of the gates, and in the request's own fields: a call means valid unrevoked claims, an owner with the caller's subject and tenant and every user turn below the block severity; each refusal means that its condition fails; detections and findings are on record before a call; an answer that reports a failure means a step failed, so a request past its gates in which none did is completed; whatever failed, the vault stays sound and loses nothing |
| `ChatPipeline.Gateway.Serve` | apps/gateway/gateway/main.py:606-737 | past the gates: completed or failed, with the records and the call in their order, the messages masked and recorded, and the answer detokenized; failed only if a step failed |
| `ChatPipeline.SentTokensStored` | apps/gateway/gateway/main.py:611-656 | every token in a payload that left is stored under its hash, and the stored map undoes it |
| `ChatPipeline.PayloadReadsBack` | apps/gateway/gateway/main.py:606-661 | in a session any of whose requests may have failed anywhere, a plain message of a payload that left reads back to exactly itself with the map the session holds in the end |
| `ChatPipeline.EchoReadsBack` | apps/gateway/gateway/main.py:640-661 | if the model answers with the text it was sent for a message, a caller allowed the message's types reads the message itself |
| `AuditCrypto.SoundCryptoExists` | apps/gateway/gateway/audit.py:70-77 | there are a signature and a canonical form as the audit rows assume them: injective, the signature neither empty nor the sentinel |
| `AuditChain.BodyInjective` | apps/gateway/gateway/audit.py:183-193 | two signed bodies are equal only for equal fields and equal previous hash |
| `AuditChain.HashesDistinct` | apps/gateway/gateway/audit.py:183-194 | no two entries of a chain from the sentinel share a hash |
| `AuditChain.WalkHonest` | apps/gateway/gateway/audit.py:275-303 | signed entries are walked to the end if and only if each names the hash before it |
| `AuditChain.WalkBack` | apps/gateway/gateway/audit.py:275-303 | a walk over any stored list that ends at the tip of an honest chain has walked the last entries of that chain, unchanged and in order, and started from the hash before them |
| `AuditChain.WalkExactly` | apps/gateway/gateway/audit.py:280-303 | for any stored list: walked to the end exactly when each entry names the hash before it and records the signature of its other fields; else stopped at the first that does not, with which of the two it fails |
| `AuditLog.AuditLogger.LogEvent` | apps/gateway/gateway/audit.py:159-227 | the exact new value of every Redis key (list, head, counters, watermark, genesis, tip) and of the durable table, and the value of each of the ten keys of the entry |
| `AuditLog.AuditLogger.VerifyChain` | apps/gateway/gateway/audit.py:252-333 | the loop and the watermark check compute the verdict with its count, first bad index and reason |
| `AuditLog.DayVerdictExactly` | apps/gateway/gateway/audit.py:280-333 | for any list, genesis and watermark: accepted, with the count, if and only if every entry is good and the watermark, if present, carries the count and the signature over it and the last hash; else the first bad index (the length, for the watermark) and what is wrong there: a malformed watermark is always refused |
| `AuditLog.RunIsFaithful` | apps/gateway/gateway/audit.py:159-227 | after any run of events of any tenants on any dates: tip, global counter and, for every day, list, counter, watermark, head and genesis are what the tenant's chain says |
| `AuditLog.ChainLinked` | apps/gateway/gateway/audit.py:154-195 | what a run signs for a tenant is one linked chain from the sentinel, across days and whatever other tenants log in between |
| `AuditRuns.HonestDayVerifies` | apps/gateway/gateway/audit.py:252-333 | for any run on any dates, an honest day is accepted with its exact count if and only if no other day's entry of the tenant stands between two of its own |
| `AuditRuns.BackAndForthRejected` | apps/gateway/gateway/audit.py:252-333 | three events on days 1, 2 and 1: nobody touched day 1, and it is rejected |
| `AuditRuns.EveryDayVerifies` | apps/gateway/gateway/audit.py:252-333 | with dates that never go back every day of every tenant is accepted with its exact count |
| `AuditRuns.RedisTamperEvidence` | apps/gateway/gateway/audit.py:252-333 | with the genesis and watermark as a run left them, any list put in place of a logged day's is accepted if and only if it is the logged list (and the day was not interleaved with another) |
| `AuditRuns.RedisReplayExactly` | apps/gateway/gateway/audit.py:252-333 | for any list, any genesis and any watermark that is not a forged signature: accepted if and only if the three stood together just after some event of the run, so garbage and mismatched watermarks are refused and only going back to an earlier moment passes |
| `AuditRuns.DaysPartitionChain` | apps/gateway/gateway/audit.py:139-152 | with dates that never go back the day lists, end to end, are the tenant's whole chain |
| `AuditRuns.FirstDayGenesis` | apps/gateway/gateway/audit.py:149-157 | the first logged day starts from the sentinel |
| `AuditRuns.GenesisLinksDays` | apps/gateway/gateway/audit.py:149-152 | every later logged day starts from the last hash of the logged day before it |
| `AuditRuns.MirrorHoldsChain` | apps/gateway/gateway/audit.py:199-225 | with distinct ids a tenant's durable rows are its chain, numbered from 1 |
| `AuditRuns.MirrorVerifies` | apps/gateway/gateway/audit_store.py:67-106 | the durable verifier accepts every tenant's mirror with the exact count, whatever the dates |
| `AuditRuns.RunIsHonest` | apps/gateway/gateway/audit.py:159-227 | what any run signed meets the premise of the tamper-evidence rows below |
| `AuditRuns.MirrorUnforged` | apps/gateway/gateway/audit_store.py:42-65 | and what the durable mirror of a run holds was signed |
| `AuditStore.DurableAuditStore.Append` | apps/gateway/gateway/audit_store.py:42-65 | a row is added, or swallowed exactly when its id or its tenant and number are taken; the row holds the entry's fields, number and hashes |
| `AuditStore.DurableAuditStore.VerifyChain` | apps/gateway/gateway/audit_store.py:67-106 | the loop computes the verdict on the queried rows with its count, first bad index and reason |
| `AuditStore.RowsVerdictExactly` | apps/gateway/gateway/audit_store.py:81-106 | for any rows: accepted if and only if every row has the next number, the hash of the row before it and its own signature; else the first bad row and the first of the three it fails |
| `AuditStore.QuerySorts` | apps/gateway/gateway/audit_store.py:71-77 | the query lists rows by number |
| `AuditStore.QueryBag` | apps/gateway/gateway/audit_store.py:71-77 | it lists each of the tenant's rows as often as it is stored and no other |
| `AuditStore.DurableTamperEvidence` | apps/gateway/gateway/audit_store.py:67-106 | for any table in which no signature is forged: accepted if and only if the tenant's rows are a prefix, numbered 1 to k, of what was logged |
| `AuditStore.RowsBeforeFirstBad` | apps/gateway/gateway/audit_store.py:81-104 | on rejection every row before the first bad one is what was logged |
| `KeyOrder.PaddedOrder` | apps/gateway/gateway/audit_anchor.py:96-97 | twenty-digit padded numerals sort as strings the way they sort as numbers |
| `AuditAnchor.KeysSortBySeq` | apps/gateway/gateway/audit_anchor.py:96-97 | a tenant's object keys sort by entry number, for numbers below 10^20 |
| `AuditAnchor.KeySpelled` | apps/gateway/gateway/audit_anchor.py:96-97 | a key is prefix, tenant, the number in twenty digits and the suffix |
| `AuditAnchor.TenantsApart` | apps/gateway/gateway/audit_anchor.py:96-145 | for tenants without a slash, a tenant's listing prefix matches its own keys only |
| `AuditAnchor.S3ObjectLockAnchor.Append` | apps/gateway/gateway/audit_anchor.py:99-118 | write-once: the object is put, or refused because its key is taken |
| `AuditAnchor.RecordHoldsEntry` | apps/gateway/gateway/audit_anchor.py:99-112 | the object holds the entry and its number and nothing else |
| `AuditAnchor.S3ObjectLockAnchor.ListKeys` | apps/gateway/gateway/audit_anchor.py:120-135 | whatever the page sizes and the server's order, the result is the sorted list of exactly the keys with the prefix |
| `AuditAnchor.S3ObjectLockAnchor.VerifyChain` | apps/gateway/gateway/audit_anchor.py:137-163 | the verdict is a function of the bucket alone: the walk over the one ascending listing |
| `AuditAnchor.ObjectsVerdictExactly` | apps/gateway/gateway/audit_anchor.py:146-163 | for any objects: accepted if and only if every object has the next number, the hash of the object before it and its own signature; else the first bad object and the first of the three it fails |
| `AuditAnchor.NumbersEqual` | apps/gateway/gateway/audit_anchor.py:150-152 | the numbers an object's value is equal to, by its JSON kind |
| `AuditAnchor.AnchorsAgree` | apps/gateway/gateway/audit_anchor.py:99-163 | after the same appends, honest or not, with distinct ids, both anchors give the same verdict, count, first bad index and reason for every slash-free tenant |
| `AuditAnchor.S3TamperEvidence` | apps/gateway/gateway/audit_anchor.py:137-163 | for any bucket whose objects are unforged and filed under their own tenant: accepted if and only if the objects in key order are a numbered prefix of what was logged |
| `AuditAnchor.ObjectsBeforeFirstBad` | apps/gateway/gateway/audit_anchor.py:146-161 | on rejection the objects before the first bad one are what was logged |
| `AuditAnchor.S3RunVerifies` | apps/gateway/gateway/audit_anchor.py:99-163 | a logged run is accepted with the exact count for every tenant |
| `BrowserVault.KeysMatch` | apps/web/lib/tokenizer.ts:104 | two values share a vault key exactly when they have one type and differ at most in letter case |
| `BrowserVault.PrefixesAgree` | apps/web/lib/tokenizer.ts:41-50 | the browser's prefixes are the gateway's short codes, and the gateway reads each back as the browser's type |
| `BrowserVault.AssigningKeeps` | apps/web/lib/tokenizer.ts:97-117 | an assignment keeps the vault sound (keys and tokens one to one, each token bound to one value of its key, each counter the number of keys of its type), changes no earlier binding and returns the key's token |
| `BrowserTokenizer.Claim` | apps/web/lib/tokenizer.ts:129-164 | the claimed-position loop keeps exactly the matches that overlap no earlier kept match and are not refused |
| `BrowserTokenizer.PickedDisjoint` | apps/web/lib/tokenizer.ts:129-164 | kept matches do not overlap |
| `BrowserTokenizer.LeftOutIsBeaten` | apps/web/lib/tokenizer.ts:138-147 | a match is left out only by the name filter or for an overlapping kept match of higher priority |
| `BrowserTokenizer.SortedInLine` | apps/web/lib/tokenizer.ts:166 | sorted by start, the kept matches lie side by side, none lost |
| `BrowserTokenizer.Tokenize` | apps/web/lib/tokenizer.ts:125-187 | the left-to-right loop returns the text with the chosen matches replaced by their tokens and the gaps verbatim, the entities, and the vault threaded through the assignments |
| `BrowserTokenizer.Detokenized` | apps/web/lib/tokenizer.ts:191-197 | the split-and-join loop over the vault's entries, in order |
| `BrowserRoundTrip.SessionVaults` | apps/web/lib/tokenizer.ts:99-187 | over any sequence of calls on any texts: the key-to-token map stays injective, each counter is the number of its type's keys, and no earlier binding is lost or changed |
| `BrowserRoundTrip.BrowserReadsBack` | apps/web/lib/tokenizer.ts:125-197 | a text without "{{" and with brace-free matches, in any session and whatever its other texts hold, read back with any later vault, is itself with each span in the casing its value was first seen in |
| `BrowserRoundTrip.BrowserRoundTripCase` | apps/web/lib/tokenizer.ts:99-197 | so it is the text up to letter case, and exactly the text if and only if every span stands in its first-seen casing |
| `Evaluation.MatchingIsOneToOne` | apps/gateway/eval/harness.py:67-80 | no gold span is taken twice, and only by an overlapping detection of its type |
| `Evaluation.MatchingIsMaximal` | apps/gateway/eval/harness.py:67-80 | no detection left over fits a gold span left over |
| `Evaluation.CountsConserve` | apps/gateway/eval/harness.py:67-88 | per type, true plus false positives are the detections and true positives plus misses the gold spans |
| `PerfectDetector.InOrderComplete` | apps/gateway/eval/harness.py:67-80 | a detector returning the non-empty gold spans in the order of the labels matches each to itself, however they overlap |
| `PerfectDetector.TransitiveIsComplete` | apps/gateway/eval/harness.py:67-80 | in any order it leaves nothing over if spans of one type that overlap a common third overlap each other |
| `PerfectDetector.DisjointMatches` | apps/gateway/eval/harness.py:67-80 | in any order, where gold spans of one type do not overlap, each detection takes the very span it found |
| `PerfectDetector.EveryOrderCompleteExactly` | apps/gateway/eval/harness.py:67-80 | exactly the gold spans are matched completely in every order of the answer and of the labels if and only if overlap within a type is transitive among them |
| `PerfectDetector.OrderMatters` | apps/gateway/eval/harness.py:70-80 | three spans without that property, in an order that costs a false positive and a miss |
| `EvaluationRun.MatchSpans` | apps/gateway/eval/harness.py:67-80 | the nested loops fill the matched sets and the dictionary as the greedy matching says |
| `EvaluationRun.Evaluate` | apps/gateway/eval/harness.py:50-133 | the reported counts, micro and macro rates, leak numbers and unlabelled false positives are those of the corpus, and it raises exactly when a labelled value is not in its text |
| `EvaluationRun.TotalsConserve` | apps/gateway/eval/harness.py:67-95 | over all types, hits plus false alarms are the detections, hits plus misses the labels, and no more values leak than there are |
| `EvaluationRun.RatesInRange` | apps/gateway/eval/harness.py:97-114 | every precision, recall, F1 and leak rate lies between 0 and 1 |
| `EvaluationRun.MacroInRange` | apps/gateway/eval/harness.py:113-114 | so do the macro averages, and they are 1 where every type's rates are |
| `EvaluationRun.MeanOfFew` | apps/gateway/eval/harness.py:113-114 | the macro averages of one type are its rates, of two the half sums |
| `EvaluationRun.UnlabelledAlarms` | apps/gateway/eval/harness.py:82-86 | in a text without labels every detection is listed as a false positive |
| `EvaluationRun.AlarmsExactly` | apps/gateway/eval/harness.py:82-86 | over the corpus a false positive is listed if and only if it is a detection in a text without labels |
| `EvaluationRun.PerfectScores` | apps/gateway/eval/harness.py:97-114 | a detector returning exactly the gold spans, in label order or, where overlap within a type is transitive, in any order, scores 1 on every type and in all |
| `EvaluationRun.RatesExactly` | apps/gateway/eval/harness.py:97-112 | precision is the hits among the detections, recall the hits among the labels, F1 twice the hits among both, for every count, 1 where there is nothing to share |
| `EvaluationRun.LeakRateExactly` | apps/gateway/eval/harness.py:125 | the leak rate is the leaked values among the values, 0 without values |
| `ResidualLeak.GoldIsFirst` | apps/gateway/eval/harness.py:26-35 | the labels resolve if and only if every value occurs, each to its first occurrence |
| `ResidualLeak.LeaksExactly` | apps/gateway/eval/harness.py:90-95 | the leaks of an example are the number of its labels whose value occurs in the text |
| `ResidualLeak.ReplacedInOrder` | apps/gateway/eval/harness.py:42-47 | spans are replaced from the right, those with one start in the order listed, whatever overlaps |
| `ResidualLeak.PlaceholdersAssemble` | apps/gateway/eval/harness.py:42-47 | replacing disjoint spans one after the other, right to left, is assembling gaps and placeholders in one go |
| `ResidualLeak.ValueSurvivesExactly` | apps/gateway/eval/harness.py:42-95 | with detections that do not overlap, a value without braces survives if and only if it occurs somewhere no detection touches, or inside the name of a detected type |
| `ResidualLeak.NothingFoundAllLeaks` | apps/gateway/eval/harness.py:90-125 | a detector that finds nothing leaks every label of the corpus, at rate 1 |
| `ResidualLeak.CoveredNeverLeaks` | apps/gateway/eval/harness.py:90-125 | detections that touch every occurrence of every label, under types that do not contain its value, leak nothing, at rate 0 |
| `SloGate.EvaluateByDomain` | apps/gateway/eval/harness.py:136-150 | overall and per-domain results, one for each domain that occurs, each of exactly that domain's examples |
| `SloGate.NoDomainIsUnspecified` | apps/gateway/eval/harness.py:136-150 | an example without a domain is counted under "unspecified" |
| `SloGate.CheckSlo` | apps/gateway/eval/harness.py:153-187 | with and without a breakdown: the violations in order, and the gate is green exactly when the overall result and every domain pass both thresholds |
| `SloGate.ViolationsExactly` | apps/gateway/eval/harness.py:153-187 | a violation is listed if and only if its scope, overall or a domain, breaks the threshold it names |
| `SloGate.DomainsAddUp` | apps/gateway/eval/harness.py:136-150 | the domains' counts add up to the corpus's, whatever the partition |
| `SloGate.GateIsPerDomain` | apps/gateway/eval/harness.py:153-187 | with min_recall at most 1 and max_leak_rate at least 0, the gate is green if and only if every domain passes: the overall result then passes too, zero denominators included |
| `Csv.ParseRow` | apps/web/components/CsvUpload.tsx:21-35 | the index loop splits a row as the character-by-character reading does |
| `Csv.ReadsBackTrimmed` | apps/web/components/CsvUpload.tsx:17-40 | a table printed with every field quoted (section 2 of RFC 4180), either line end and trailing white space, reads back with every field trimmed, if no field holds a newline |
| `Csv.CsvRoundTrip` | apps/web/components/CsvUpload.tsx:17-40 | it reads back as it was if and only if every field is its own trim and none holds a newline |
| `CsvMixed.TrimExactly` | apps/web/components/CsvUpload.tsx:18-33 | trimming takes the white space off both ends and nothing else |
| `CsvMixed.EveryLineIsARow` | apps/web/components/CsvUpload.tsx:21-35 | every line there is, is cells between commas, each a sequence of plain runs, quoted runs and at the very end perhaps a run whose quotes are never closed |
| `CsvMixed.MixedRowReadsBack` | apps/web/components/CsvUpload.tsx:21-35 | such a row reads back as what its cells say, trimmed; with the row above this says what every line reads as |
| `CsvMixed.TableIsLines` | apps/web/components/CsvUpload.tsx:17-40 | for every text: the table is its lines that are not blank, each read on its own, the first as the headers; a blank text has one empty header |
| `CsvMixed.MixedTableReadsBack` | apps/web/components/CsvUpload.tsx:17-40 | a table whose cells mix quoted and plain runs, one row to a line with either line end, white space and blank lines around it, reads back as what its cells say, trimmed |
| `Luhn.LuhnValid` | packages/finsafe-core/src/detectors/pii-leakage.ts:25-40 | the right-to-left loop decides the positional checksum for 13 to 19 digits |
| `Luhn.SingleErrorCaught` | packages/finsafe-core/src/detectors/pii-leakage.ts:25-40 | one changed digit of an accepted number makes it rejected (Annex B of ISO/IEC 7812-1) |
| `Luhn.SwapCaught` | packages/finsafe-core/src/detectors/pii-leakage.ts:25-40 | swapping neighbours is rejected exactly when they differ and are not 0 and 9 |
| `Luhn.CheckDigit` | packages/finsafe-core/src/detectors/pii-leakage.ts:25-40 | each payload has exactly one check digit |
| `Luhn.CheckDigitsOfOne` | packages/finsafe-core/src/detectors/pii-leakage.ts:25-40 | the check digits of Annex B of ISO/IEC 7812-1 for one digit among zeros, at every place of a number of 13 to 19 digits, and no other length: 0864297531 where it is doubled, 0987654321 where it is not |
| `Luhn.MistypedCaught` | packages/finsafe-core/src/detectors/pii-leakage.ts:25-40 | the same for a number as written, separators and all |
| `RateLimiter.Limiter.RateLimited` | apps/web/app/api/waitlist/route.ts:11-22 | the new table, the answer, and a retry time that reaches the end of the window and overshoots it by less than a second |
| `RateLimiter.Independent` | apps/web/app/api/waitlist/route.ts:9-22 | an address's record and next answer depend on its own requests only |
| `RateLimiter.FiveInTenMinutes` | apps/web/app/api/waitlist/route.ts:6-22 | of an address's requests within 600000 ms of its first, exactly the first five are let through; a later one is, then or as soon as that time has passed |
| `RateLimiter.WindowBound` | apps/web/app/api/waitlist/route.ts:11-22 | on a clock that never goes back each window lets at most five requests of an address through |
| `RateLimiter.AtMostNine` | apps/web/app/api/waitlist/route.ts:6-22 | any closed stretch of a window's length lets at most nine through, one less than twice the limit |
| `RateLimiter.NineHappen` | apps/web/app/api/waitlist/route.ts:6-22 | nine do happen, so the bound is exact |
| `Syslog.StructuredDataReadsBack` | packages/integrations/src/siem.ts:46-57 | a reader that undoes the escapes of section 6.3 of RFC 5424 finds exactly the sanitized pairs, whatever the values and whatever follows |
| `Syslog.StructuredDataIsOneRecord` | packages/integrations/src/siem.ts:18-57 | no attribute puts a control character on the line |
| `Syslog.LineIsOneRecordExactly` | packages/integrations/src/siem.ts:33-44 | the whole line holds a control character only if the timestamp, host or application name does |
| `Syslog.LineReadsBackExactly` | packages/integrations/src/siem.ts:4-44 | a reader of the line recovers facility, severity, timestamp, host, application name, event type, attributes and message, sanitized where the formatter sanitizes, if and only if the first three words and the sanitized event type hold no space |

## Left out

- Presidio, spaCy and every regular expression: detection is an arbitrary list of spans; `\d` in the token expression is modelled for the digits 0-9 only.
- HMAC, SHA-256, Fernet, JWT validation and bcrypt: see Assumptions; a token either validates to claims or does not.
- FastAPI, middleware, HTTP calls to models, boto3, SQLAlchemy sessions, logging and Sentry: transport.
- The output sanitizer, the injection scanner's patterns, and the response's `_meta` fields (the filtered `token_vault` among them): the answer is modelled up to detokenization, a scan as the rank of its worst finding.
- The audit log's expiry of day keys: the daily rows speak of days within retention; the tip and the global counter never expire in the source either.
- Redis key names: keys are modelled by what they are made of (session, tenant, day, type); the source's day suffixes never meet another tenant's keys.
- Concurrent `log_event` calls of one tenant and concurrent `update_token_map` calls of one session: the code does not serialize them, so nothing is claimed.
- `AuditStore.Row`: `details` is kept as the parsed dictionary; storing it as canonical JSON and parsing it again is the identity here.
- `AuditChain.BodyInjective`: JSON numbers are integers or ratios; NaN and infinities are not modelled.
- `AuditLog.AuditLogger.VerifyChain`: a watermark is modelled as parsed (`Malformed`, or a number and a signature), and list elements that are not JSON objects are not modelled.
- `AuditAnchor.S3TamperEvidence`: the number inside an object is outside its signature, and Python takes 1, 1.0 and true for the same number, so the prefix is exact up to that spelling.
- `MultiAnchor` and `verify_durable`: they fan out to the anchors above.
- `EvaluationRun.Evaluate`: latencies are not reported; they depend on a clock.
- `SloGate.GateIsPerDomain`: thresholds outside min_recall <= 1 and max_leak_rate >= 0 are not covered; with no examples at all such a gate can fail without a failing domain.
- `BrowserRoundTrip.BrowserRoundTripCase`: `toLowerCase` mappings that change a string's length or depend on context are not modelled; the browser's patterns match ASCII letters.
- `BrowserTokenizer.Tokenize`: the name filter is an arbitrary predicate on the matched text.
- `Csv.CsvRoundTrip`: exact equality is characterised for the all-quoted printing; `CsvMixed` reads every other one back up to trimming.
- Other React components, the SDK, `ssrf.py`, `rbac.py`, `revocation.py`, `secrets.py`, `config.py`, `users.py`, `classifier.py`, `governance*.py`, `log_scrubber.py`, `output_guard.py`, `demo.py`: look-ups, single branches, retry loops, or claims that rest on regular expressions.
