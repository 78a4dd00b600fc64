# Resilience kernels: a verified model

This project models the stateful and arithmetic kernels of the resilience libraries (Rust, Python and TypeScript)
and proves what they keep over every run. `dafny verify dfyconfig.toml` checks all of it.

| files | what they model |
|---|---|
| `Text`, `Numbers`, `Doubles` | strings, number texts and the number grammar, rounding to doubles and their shortest digits |
| `Json`, `JsonRoundTrip`, `JsonCut` | JSON values, the ports' text encodings, a parser that inverts them, and what it does with cut texts |
| `Canonical`, `CanonicalTheorems` | key-sorted canonical text and what it decides |
| `WrittenForms` | the characters that are really written: escapes, punctuation, numbers, key order, bytes |
| `PortValues`, `CrossPort`, `CrossPortRecords` | the numbers each port really holds, and for which values and records the ports sign alike |
| `AuditRecord`, `ReadBack` | the signed records, what of them a port reads back, and when that still has the signed text |
| `AuditChain`, `AuditLedger` | the hash chain and its verifier, the ledger object and its file |
| `CivilDate`, `Timestamp` | the hand-written calendar conversion and the timestamps built on it |
| `RateLimit`, `ProxyGuard` | the sliding-window limiter and the guard that advertises a wait |
| `Circuit`, `RetrySync` | the in-memory circuit breaker and the synchronous retry driver around it |
| `Fees`, `Onchain`, `OnchainTheorems` | the on-chain sender: fee bumps, retry loop, its own breaker |
| `IdempotencyStore` | the rewrite-and-rename store with a process crash after any disk step |
| `Utf8`, `LedgerEntry`, `FileLedger` | the append-only key file, byte by byte, with torn last lines |
| `Backoff`, `RustRetry`, `TypeScriptRetry` | the two retry engines and their delays |

Objects whose methods change fields are classes; every such method, and every loop, is proved equal to a specification
function over values (the two retry loops: to a relation that determines their result), and the theorems are about those
functions and about runs of them.

What comes from outside is a parameter: clock readings, random draws (any value in their range), outcomes of attempts
and state fetches (arbitrary streams), unique temp names, and the keyed signature. The signature is an arbitrary
function of key and text. The theorems that need it assume only that the texts at hand do not collide and are not
signed with the empty string (`AuditChain.Sound`); nothing is assumed about other texts. A double is given by its
shortest decimal digits. Python's and JavaScript's forms of writing them are fixed, and both read every double back.
Rust's JSON library is not part of the repository: where it changes to an exponent and how it writes one, and the double
it makes of a written double or of an integer beyond 64 bits, are parameters (`Canonical.Port.Rust`). The manifest
(`rust/Cargo.toml:27`) takes it without the feature that makes its reader exact.

## Where the code and its own descriptions differ

The model follows the code; each point is a lemma that says exactly when the description holds.

- The chain cannot notice that records at the end are missing: a rearrangement is accepted if and only if it is a
  prefix (`AuditChain.RearrangementAccepted`, `AuditChain.DeletionReported`).
- The three ports are described as signing identical bytes. Two of them do so for a record if and only if each signed
  field is written alike by both: against Python, no character is above 0x7E; against Rust, integers lie within 64 bits (or both make the same double of it);
  against TypeScript, integers are printed back by its doubles (all below 2^53, no odd one from there on), doubles have
  a fraction, key orders agree in every object and no key is `__proto__`, which its sorter drops; and a whole
  `confidence` never agrees between Rust, where it is a double, and another port that writes it like an integer
  (`CrossPort.PortsAgree`, `CrossPortRecords.RecordsSignAlike`, with failing inputs in
  `CrossPort.NumericKeysDisagree`, `CrossPortRecords.WholeConfidenceDisagrees`, `CrossPortRecords.OddIntegersDisagree`).
- Several live audit ledgers on one file leave it accepted if and only if every append is made by a ledger that opened
  the file or appended to it after all other appends, and no appended record is misread; otherwise the first append out
  of step, or an earlier misread record, is reported
  (`AuditLedgers.AcceptedIffTurns`, `AuditLedgers.SharedRunVerifies`, `AuditLedgers.TwoWritersBreakTheChain`).
- A record is misread if and only if some number in its signed fields is not read back as itself: never by Python and
  TypeScript, and by Rust exactly if its library does not give back one of the record's doubles. What one ledger writes
  is accepted if and only if no record is misread, and otherwise the first misread record is reported as a signature
  mismatch though nobody touched it (`ReadBack.MessageReadsBack`, `AuditLedgers.EveryRunVerifies`,
  `AuditLedgers.RustRunVerifies`, `AuditLedgers.MisreadConfidenceReported`).
- A last line of the audit file cut anywhere makes the whole file unreadable, unless nothing of it was left or only its
  newline was lost; in that case the next append makes it so (`AuditLedgers.TornFileReads`,
  `AuditLedgers.LostNewlineThenAppend`).
- Timestamps sort as text exactly up to the end of the year 9999 (`Timestamp.TextOrderIsTimeOrder`).
- A partially written last line of the key file is ignored on reload wherever the write stopped if and only if its key is
  ASCII; otherwise some cut makes the reload fail. A key recorded after reopening a torn file, the torn one again or another,
  is found by the next reload if and only if the file had it already or nothing of the torn line was left
  (`FileLedgers.TornReloadNeverFails`, `FileLedgers.RecordAfterTear`, `FileLedgers.RetryAfterTear`).
- A late success closes an OPEN breaker, outside the four documented arrows; a zero `retry_after` does not mean a call is
  allowed while all trial slots are taken (`Circuit.DiagramHolds`, `Circuit.RetryAfterMeaning`).
- The sender does not look at its breaker again between attempts: a submission goes through a tripped breaker if and
  only if the count at the start plus the failures recorded before it reach the threshold, so the count can reach
  threshold - 1 + max_attempts (`OnchainTheorems.SubmitsThroughTripped`, `OnchainTheorems.BoundAttained`).
- After a `mark_done` whose flush did not complete, the same process refuses the key, and the key can be marked again
  after a restart if and only if neither that call nor any later one of the process has replaced the file: a later flush
  writes the key that was never confirmed (`IdempotencyStore.RetryAfterFailure`, `IdempotencyStore.LaterFlushPersists`).
- A result that the encoder cannot write stops all flushing: until the next restart no `mark_done` returns True and the
  disk does not change (`IdempotencyStore.ObjectStopsFlushing`).
- The Rust ceiling is min(base * 2^attempt, max) for every attempt if and only if rounding to milliseconds and the 64-bit
  casts lose nothing that matters; the TypeScript engine reports
  `maxAttempts` even when it stopped early (`RustRetry.CeilingExact`, `TypeScriptRetry.ReportedAttempts`).

## Model

| member | source | states |
|---|---|---|
| Numbers.NumberParses | python/src/cubiczan_resilience/audit_ledger.py:140 | every integer and every double is read back from its text by a reader that is exact, positional or with an exponent, in every notation (section 6 of RFC 8259) |
| Numbers.DoubleTextsAlike | rust/src/audit.rs:12-23 | two notations give a double the same text if and only if both write it positionally, or both with an exponent of the same form |
| Doubles.RoundMonotone | typescript/src/auditLedger.ts:103-105 | rounding an integer to a double keeps the order of integers |
| Doubles.PrintedRounds | typescript/src/auditLedger.ts:103-105 | the digits printed for an integer denote the double it was rounded to, and are printed as themselves |
| Doubles.PrintedIsShortest | typescript/src/auditLedger.ts:103-105 | no integer that rounds to the same double has more trailing zeros than the one printed |
| Doubles.PrintedSmall | typescript/src/auditLedger.ts:103-105 | every integer below 2^53 is printed as itself |
| Doubles.PrintedOdd | typescript/src/auditLedger.ts:103-105 | no odd integer from 2^53 on is |
| JsonRoundTrip.ParseEncode | typescript/src/auditLedger.ts:171 | parsing the text of any value, in any port's style, gives that value back as written: escapes of section 7 of RFC 8259, surrogate pairs, decimal digits, nesting to any depth; what a port makes of the digits is `PortValues.ReadNumber` |
| JsonRoundTrip.EncodeInjective | typescript/src/auditLedger.ts:103-105 | two values have the same text if and only if they are equal |
| JsonRoundTrip.EscapeCharParses | python/src/cubiczan_resilience/audit_ledger.py:75-77 | every escaped character, including the `\uXXXX` pairs of the ASCII styles, is read back as itself and nothing of what follows is consumed |
| JsonCut.CutFails | rust/src/audit.rs:330-344 | no proper beginning of the text of a string, an array, an object or a keyword parses |
| Canonical.KeyLessTotal | typescript/src/auditLedger.ts:107-117 | each port's key order is irreflexive, asymmetric and total on keys (integer-like keys first and UTF-16 units in TypeScript, code points elsewhere) |
| Canonical.KeyLessTransitive | typescript/src/auditLedger.ts:107-117 | each port's key order is transitive |
| Canonical.SortSorts | typescript/src/auditLedger.ts:107-117 | sorting an object's members leaves them in non-descending key order |
| Canonical.SortElements | typescript/src/auditLedger.ts:107-117 | sorting keeps exactly the members and their number |
| Canonical.SortKeysIdempotent | typescript/src/auditLedger.ts:107-117 | sorting the keys of a sorted value changes nothing |
| CanonicalTheorems.SortKeysDecides | typescript/src/auditLedger.ts:107-117 | two values sort to the same value if and only if they are equal up to key order at every depth |
| CanonicalTheorems.CanonicalDecides | typescript/src/auditLedger.ts:102-117 | two values have the same canonical text if and only if they are equal up to key order at every depth |
| CanonicalTheorems.ProtoMemberUnsigned | typescript/src/auditLedger.ts:110-112 | a `__proto__` member at any place of an object, whatever it holds, leaves no trace in the TypeScript canonical text |
| WrittenForms.EscapeForms | rust/src/audit.rs:12-23 | what every character of a string is written as: its short escape, itself, or its UTF-16 units in lower-case hex (section 7 of RFC 8259) |
| WrittenForms.TextForms | python/src/cubiczan_resilience/audit_ledger.py:75-77 | arrays and objects are their parts between brackets, joined by nothing but a comma and a colon, each followed by one space in the spaced style |
| WrittenForms.StyleForms | python/src/cubiczan_resilience/audit_ledger.py:211 | all ports sign compact text, Python in ASCII; Python alone writes its lines spaced |
| WrittenForms.RecordForm | rust/src/audit.rs:79-94 | the keys of a written record, in order |
| WrittenForms.PythonForms | python/src/cubiczan_resilience/audit_ledger.py:75-77 | where Python's doubles change to an exponent and how it looks |
| WrittenForms.JavaScriptForms | typescript/src/auditLedger.ts:103-105 | where JavaScript's doubles do |
| WrittenForms.KeyForms | typescript/src/auditLedger.ts:107-117 | array indices first and by value, then UTF-16 units, against characters in the other ports |
| WrittenForms.EntryForm | rust/src/ledger.rs:52-56 | the text of a key's line |
| WrittenForms.ByteForms | rust/src/ledger.rs:135-139 | the bytes of the examples in section 7 of RFC 3629 |
| CrossPort.EncodeWithin | python/src/cubiczan_resilience/audit_ledger.py:75-77 | no text ever holds a control character, and the ASCII styles hold nothing beyond '~' |
| PortValues.NumbersAgree | rust/src/audit.rs:312-316 | a number is the same and written alike in two ports if and only if the stated ranges of integers and forms of doubles are met, and for an integer written like a double both make the same double of it |
| PortValues.HeldTwice | typescript/src/auditLedger.ts:103-105 | in memory, a value that a port holds is held unchanged |
| PortValues.HeldReadsExactly | typescript/src/auditLedger.ts:171 | Python and TypeScript read back every value they hold |
| PortValues.RustReadsExactly | rust/src/audit.rs:341 | Rust reads back a number it holds if and only if it is an integer or its library gives that double back |
| CrossPort.TextsDecide | rust/src/audit.rs:12-23 | texts of two styles are equal if and only if they come from one value in which every string and double is written alike |
| CrossPort.ObjectsSignAlike | typescript/src/auditLedger.ts:107-117 | two objects with the same keys have the same canonical text in two ports if and only if the ports agree on order, survival and text of the keys, and on every value |
| CrossPort.PortsAgree | rust/src/audit.rs:12-23 | two different ports sign a value over the same text if and only if they write every string and number in it alike and agree on the keys of every object |
| CrossPortRecords.RecordsSignAlike | rust/src/audit.rs:304-328 | two different ports sign a record over the same text if and only if they write every signed field alike, `confidence` being a double in Rust |
| CrossPortRecords.UsualRecordsSignAlike | python/src/cubiczan_resilience/audit_ledger.py:112-131 | plain text, integers below 2^53, doubles with a fraction between 0.0001 and 10^16 and ordinary keys are enough for all three ports to sign the same text |
| CrossPortRecords.WholeConfidenceDisagrees | rust/src/audit.rs:312-316 | a whole `confidence` such as 1 keeps Rust and any other port from signing the same text |
| CrossPortRecords.OddIntegersDisagree | typescript/src/auditLedger.ts:103-105 | an odd 64-bit integer from 2^53 on makes the text of TypeScript differ from any other port's |
| CrossPort.NumericKeysDisagree | typescript/src/auditLedger.ts:107-117 | the keys "9" and "10" already make the text of TypeScript differ from any other port's |
| AuditRecords.RecordReadsBack | rust/src/audit.rs:79-94 | a record written to the file is read back field by field, with its numbers as the port reads them |
| AuditRecords.SignedFields | rust/src/audit.rs:304-328 | exactly these fields are signed, under these names, the optional ones only if present, and never `sig` |
| AuditRecords.MessageDecides | rust/src/audit.rs:304-328 | two records are signed over the same text if and only if all their signed fields agree, `inputs` and `sources` up to key order |
| ReadBack.MessageReadsBack | rust/src/audit.rs:226-255 | a record that a port holds, read back from its line, has the text it was signed over if and only if every number in its signed fields is read back as itself |
| AuditChain.VerifyRecords | rust/src/audit.rs:226-255 | the verifying loop accepts exactly the chains, with their length; otherwise it reports the least broken index and whether the link or the signature is wrong |
| AuditChain.VerifyMeaning | rust/src/audit.rs:226-255 | the reported index is `i` if and only if the first `i` records are a chain and the first `i + 1` are not |
| AuditChain.SignaturesDistinct | rust/src/audit.rs:174-204 | along a chain the signatures are pairwise distinct and never empty |
| AuditChain.RearrangementAccepted | rust/src/audit.rs:226-255 | a list made of an accepted ledger's records by dropping, duplicating or reordering is accepted if and only if it is a prefix |
| AuditChain.EditReported | rust/src/audit.rs:226-255 | rewriting record `i` under its stored signature is accepted if no signed field changed and reported at `i` otherwise |
| AuditChain.DeletionReported | rust/src/audit.rs:226-255 | deleting record `i` is reported at `i` as a broken link unless it was the last record, which goes unnoticed |
| AuditChain.LastSignaturePins | rust/src/audit.rs:226-255 | two accepted ledgers with the same last signature have the same length and agree in every signed field of every record |
| AuditLedgers.ReadRecords | rust/src/audit.rs:330-344 | the reading loop skips blank lines and fails on the first line that does not parse, as the specification of the read says |
| AuditLedgers.BlankLineSkipped | rust/src/audit.rs:337-340 | a blank line does not change what is read |
| AuditLedgers.AuditLedger.Open | rust/src/audit.rs:154-171 | opening fails exactly when the file cannot be read, and otherwise caches the last record's signature |
| AuditLedgers.AuditLedger.Append | rust/src/audit.rs:174-204 | appends exactly one line; if the cached signature was the file's last one, what is read grows by one record that says what the input says (event, actor, rationale, time or clock reading, values as the port reads them, that signature as its link), and a chain stays a chain if and only if the record is not misread |
| AuditLedgers.AuditLedger.Verify | rust/src/audit.rs:207-209 | re-walks what the file holds |
| AuditLedgers.RunShows | rust/src/audit.rs:154-204 | every run of appends and opens on the file's text is that run on its records, appended records showing as the port reads them; the file never becomes unreadable |
| AuditLedgers.RunTells | rust/src/audit.rs:174-204 | after any run of several ledgers the record shown for each append says what that append's input says, field by field |
| AuditLedgers.SharedRunVerifies | python/src/cubiczan_resilience/audit_ledger.py:156-214 | whatever several live ledgers append, the file is accepted if and only if at every append the cached signature was the file's last one and no appended record is misread; otherwise the first append out of step is reported as a broken link, or the first misread record before it as a signature mismatch |
| AuditLedgers.AcceptedIffTurns | python/src/cubiczan_resilience/audit_ledger.py:170-174 | with distinct signatures that is so if and only if every append is made by a ledger that opened the file or appended to it after all other appends, and every number in the signed fields of every appended record is read back as itself |
| AuditLedgers.EveryRunVerifies | python/src/cubiczan_resilience/audit_ledger.py:156-214 | after any run of appends and reopens by one live writer the file is readable and accepted with exactly as many records as appends, unless a record is misread: then the first such one is reported; Python and TypeScript misread none |
| AuditLedgers.RustRunVerifies | rust/src/audit.rs:174-255 | with distinct signatures such a file is accepted if and only if every number in the signed fields of every record is read back as itself; otherwise the first record with one that is not is reported as a signature mismatch |
| AuditLedgers.MisreadConfidenceReported | rust/src/audit.rs:312-316 | one `confidence` whose double the library does not give back is enough to have an untouched file reported |
| AuditLedgers.TwoWritersBreakTheChain | python/src/cubiczan_resilience/audit_ledger.py:170-174 | one append by each of two ledgers opened on the same file is reported at the second record |
| AuditLedgers.TornFileReads | rust/src/audit.rs:330-344 | a file whose last line was cut reads as before if nothing of it was left, with its record as the port reads it if only the newline was lost, and not at all otherwise |
| AuditLedgers.LostNewlineThenAppend | rust/src/audit.rs:195-200 | a file that lost its final newline still reads; the next append makes it unreadable |
| CivilDate.EpochDay | rust/src/audit.rs:366-377 | day 0 is 1970-01-01 |
| CivilDate.NextDayCorrect | rust/src/audit.rs:366-377 | for every day number the result is a real Gregorian date and the next number gives the calendar's next day |
| CivilDate.RoundTripDays | rust/src/audit.rs:366-377 | an explicit inverse gives every day number back |
| CivilDate.RoundTripDate | rust/src/audit.rs:366-377 | the same inverse shows that every real date is reached |
| CivilDate.DatesOrdered | rust/src/audit.rs:366-377 | later days have later dates |
| Timestamp.FormatParses | rust/src/audit.rs:356-363 | parsing a formatted timestamp gives the seconds back for every number of seconds (section 5.6 of RFC 3339, wider years included) |
| Timestamp.TextOrderIsTimeOrder | rust/src/audit.rs:356-363 | text order equals time order on all times up to a last one if and only if that one lies before the year 10000 (section 5.1 of RFC 3339) |
| RateLimit.SlidingWindowRateLimiter.Create | typescript/src/rateLimit.ts:33-39 | construction succeeds exactly for a positive limit and window |
| RateLimit.SlidingWindowRateLimiter.Check | typescript/src/rateLimit.ts:42-60 | the decision and the whole new index, other keys untouched |
| RateLimit.SlidingWindowRateLimiter.Reset | typescript/src/rateLimit.ts:63-65 | forgets exactly this key |
| RateLimit.SlidingWindowRateLimiter.Sweep | typescript/src/rateLimit.ts:73-80 | the loop, in any key order, prunes every list and drops the empty ones |
| RateLimit.PruningIsInvisible | typescript/src/rateLimit.ts:42-80 | over any interleaving with a non-decreasing clock every decision equals that of a limiter with full history |
| RateLimit.DecisionMeaning | typescript/src/rateLimit.ts:42-60 | a check is admitted if and only if fewer than `limit` admitted hits lie in its window; the remaining count and the reset time are read off that window |
| RateLimit.WindowsNeverOverfull | typescript/src/rateLimit.ts:20-26 | no window (t - windowMs, t] ever holds more than `limit` admitted hits of a key |
| RateLimit.DeniedUntilReset | typescript/src/rateLimit.ts:47-51 | after a denial, checks of the key are denied before the reported reset time and the first one not before it is admitted |
| ProxyGuards.ConfigKeyInjective | typescript/src/proxyGuard.ts:94-106 | configurations that differ in limit or window never share a registered limiter; the clock override is not part of the key, so those that differ only there do |
| ProxyGuards.ProxyGuard.ResolveLimiter | typescript/src/proxyGuard.ts:94-106 | the registered limiter of the configuration, or a new one that is registered; a bad configuration registers nothing |
| ProxyGuards.ProxyGuard.CheckProxyRequest | typescript/src/proxyGuard.ts:172-221 | misconfigured if and only if no non-empty secret is set; unauthorized if and only if one is set and the given one differs; a refused caller touches no limiter; otherwise exactly one index changes, that of the caller's limiter or of the configuration's registered one, created on first use, and the caller is admitted if and only if that limiter admits, else told the wait left |
| ProxyGuards.AnswerMeaning | typescript/src/proxyGuard.ts:196-211 | after any run of the limiter, an authenticated caller is admitted if and only if its window holds fewer than `limit` admitted requests, and else told how long the oldest of them stays in it |
| ProxyGuards.AdvertisedWaitReaches | typescript/src/proxyGuard.ts:200-208 | waiting the advertised seconds reaches the reset time, less than a second past it when it lies ahead |
| ProxyGuards.WaitingClientAdmitted | typescript/src/proxyGuard.ts:237-239 | a denied client that waits the advertised seconds, its key quiet meanwhile, is admitted |
| Circuit.CircuitBreaker.Create | python/src/cubiczan_resilience/circuit.py:63-89 | construction succeeds exactly for valid settings and starts closed and empty |
| Circuit.CircuitBreaker.Refresh | python/src/cubiczan_resilience/circuit.py:105-110 | the timed step to half-open, all four fields |
| Circuit.CircuitBreaker.Allow | python/src/cubiczan_resilience/circuit.py:114-124 | the answer of the gate and the reserved slot, all four fields |
| Circuit.CircuitBreaker.GetRetryAfter | python/src/cubiczan_resilience/circuit.py:126-133 | the reported wait, with its two clock readings |
| Circuit.CircuitBreaker.RecordSuccess | python/src/cubiczan_resilience/circuit.py:137-143 | back to the initial fields from any state |
| Circuit.CircuitBreaker.RecordFailure | python/src/cubiczan_resilience/circuit.py:145-158 | counts a failure or trips, all four fields |
| Circuit.CircuitBreaker.Reset | python/src/cubiczan_resilience/circuit.py:160-166 | back to the initial fields |
| Circuit.CircuitBreaker.Guard | python/src/cubiczan_resilience/circuit.py:170-173 | rejects exactly what the gate refuses, with the wait of the error |
| Circuit.RunsConsistent | python/src/cubiczan_resilience/circuit.py:105-166 | in every run: closed if and only if the count is below the threshold if and only if no opening time is set; slots stay within their bound and are held only half-open |
| Circuit.FailuresTrip | python/src/cubiczan_resilience/circuit.py:145-158 | n failures in a row leave the breaker closed exactly while n is below the threshold, and open since the last of them otherwise |
| Circuit.FailureTrips | python/src/cubiczan_resilience/circuit.py:145-158 | a failure opens the breaker, with its time and no slot taken, if and only if it is that of a trial call or brings the count to the threshold; otherwise it is only counted |
| Circuit.TrialBudget | python/src/cubiczan_resilience/circuit.py:114-124 | between a failure that trips the breaker and the next outcome the gate lets through exactly the first `half_open_max_calls` calls made after the cooldown |
| Circuit.NoEarlyGrant | python/src/cubiczan_resilience/circuit.py:114-124 | no call passes, and nothing changes, before the cooldown is over |
| Circuit.DiagramHolds | python/src/cubiczan_resilience/circuit.py:1-13 | a step follows the documented arrows unless it is a success or a reset in OPEN |
| Circuit.RetryAfterMeaning | python/src/cubiczan_resilience/circuit.py:126-133 | for two clock readings in order, zero means allowed at the second exactly unless all trial slots are taken at the first; a positive wait counts exactly from the second |
| RetrySync.RunSync | python/src/cubiczan_resilience/retry.py:223-267 | the attempt loop over a live breaker equals the specification, final breaker fields included |
| RetrySync.DriveMeaning | python/src/cubiczan_resilience/retry.py:223-267 | at most `max_attempts` calls, each recorded exactly once; the last one's outcome is what the caller gets unless the breaker rejects the next; the final exhaustion error is never raised |
| RetrySync.DriveTrace | python/src/cubiczan_resilience/retry.py:223-267 | the breaker ends as the run, from its first fields, of one gate check and one recorded outcome per call and of the gate check and look of a rejection |
| RetrySync.DriveGates | python/src/cubiczan_resilience/retry.py:231-233 | every call made was let through by that breaker, and a rejected one was not |
| RetrySync.NoSlotHeld | python/src/cubiczan_resilience/retry.py:223-267 | used serially, no half-open slot is held on any way out, and the breaker stays consistent |
| RetrySync.RejectionWait | python/src/cubiczan_resilience/circuit.py:170-173 | used serially, a rejection finds the breaker open before the end of its cooldown and carries what is left of it on the clock, or nothing if it is over by then |
| RetrySync.TripCutsShort | python/src/cubiczan_resilience/retry.py:231-247 | a failure that trips the breaker ends the run at the next attempt if the cooldown has not passed |
| Fees.BumpBounds | onchain/python/resilient_onchain/client.py:184-185 | a bump exceeds the scaled amount, by at most one wei, and strictly exceeds the old amount |
| Fees.BumpMonotone | onchain/python/resilient_onchain/client.py:184-185 | a bump keeps the order of two amounts in both directions |
| Fees.BumpsBounds | onchain/python/resilient_onchain/client.py:179-199 | after n bumps, 1000^n times the amount lies above k^n times the first one, by at most the rounding sum |
| Fees.RoundingSumIs | onchain/python/resilient_onchain/client.py:179-199 | that rounding sum is the sum over j < n of k^j * 1000^(n-j) |
| Fees.BumpTimesAmounts | onchain/python/resilient_onchain/client.py:179-199 | bumping fee fields bumps each field of the mode and no other |
| Fees.BumpFeeIncreases | onchain/typescript/src/index.ts:219-237 | every field of the mode strictly grows |
| Fees.InitialFeePriority | onchain/python/resilient_onchain/client.py:162-176 | the first fee's priority part is within the cap if and only if the fetched one's was (Specification section of EIP-1559) |
| Fees.BumpsKeepPriority | onchain/python/resilient_onchain/client.py:179-199 | any number of bumps keeps that requirement, in both directions |
| Onchain.CircuitBreaker.AssertClosed | onchain/typescript/src/index.ts:135-144 | passes when closed or when a positive cooldown is over |
| Onchain.CircuitBreaker.RecordSuccess | onchain/typescript/src/index.ts:146-149 | clears count and opening time |
| Onchain.CircuitBreaker.RecordFailure | onchain/typescript/src/index.ts:151-156 | counts, and opens from the threshold on |
| Onchain.Milli | onchain/python/resilient_onchain/client.py:184-185 | the bump factor in thousandths, within one half |
| Onchain.Attempt | onchain/python/resilient_onchain/client.py:313-365 | one pass of the loop: its submission, its breaker record, and the decision to end or go on with which nonce and fee |
| Onchain.RetryLoop | onchain/python/resilient_onchain/client.py:312-369 | the loop with its running nonce, fee and breaker equals the specification |
| Onchain.SendWithRetry | onchain/python/resilient_onchain/client.py:276-369 | the whole send, its checks in order, equals the specification, final breaker fields included |
| OnchainTheorems.SendMeaning | onchain/python/resilient_onchain/client.py:307-369 | at most `max_attempts` submissions, each with the nonce of the latest fetch and that fetch's amounts in the fields of the fee mode, bumped once per attempt since; the first ending outcome decides; fetches are one plus the stale-nonce errors; attempts add up |
| OnchainTheorems.SubmitsWhen | onchain/python/resilient_onchain/client.py:288-310 | something is submitted if and only if the configuration, the idempotency check, the breaker and the first fetch all allow it; a refusal leaves the breaker alone |
| OnchainTheorems.RefusalMeaning | onchain/python/resilient_onchain/client.py:288-305 | a bad configuration is reported first, then a repeated send, then an open breaker, each if and only if it is the case |
| OnchainTheorems.FetchResults | onchain/python/resilient_onchain/client.py:162-176 | a failed fetch and a bad fee are reported if and only if the fetch that the send depended on last failed, or lacked the amount of the fee mode |
| OnchainTheorems.FeesGrowBetweenRefreshes | onchain/python/resilient_onchain/client.py:358-360 | between refreshes the nonce stays and every fee field strictly grows |
| OnchainTheorems.SentPriority | onchain/python/resilient_onchain/client.py:179-199 | in every submission the priority fee is within the cap if and only if it was in what was fetched (Specification section of EIP-1559) |
| OnchainTheorems.TotalSleep | onchain/python/resilient_onchain/client.py:346-365 | the sleeps add up to at most base * (2^(max_attempts - 1) - 1) |
| OnchainTheorems.SendBreaker | onchain/python/resilient_onchain/client.py:128-144 | one send, for any cooldown, keeps the breaker coherent, does nothing while it refuses, and from a closed breaker ends with a count within threshold - 1 + max_attempts |
| OnchainTheorems.OpeningTime | onchain/python/resilient_onchain/client.py:137-144 | success clears the opening time; otherwise it is the clock reading of the last failure the send recorded, if the count has reached the threshold |
| OnchainTheorems.FailuresBounded | onchain/python/resilient_onchain/client.py:128-144 | over any sequence of sends sharing the breaker the count stays within that bound plus max_attempts for each send that a cooldown let through a tripped breaker; without a cooldown there is none |
| OnchainTheorems.NothingAfterOpen | onchain/python/resilient_onchain/client.py:128-135 | a tripped breaker stays as it is until a send comes at its opening time plus a positive cooldown or later; a send submits something exactly from then on |
| OnchainTheorems.SubmitsThroughTripped | onchain/python/resilient_onchain/client.py:303-365 | a submission goes through a tripped breaker if and only if the count at the start plus the failures recorded before it reach the threshold |
| OnchainTheorems.BoundAttained | onchain/python/resilient_onchain/client.py:303-365 | the bound is reached by a send that starts one failure below the threshold |
| IdempotencyStore.Disk.AtomicWrite | python/src/cubiczan_resilience/atomic.py:50-74 | the disk after a completed, crashed, failed or interrupted write, for a stop after every step |
| IdempotencyStore.WriteIsAtomic | python/src/cubiczan_resilience/atomic.py:28-34 | the destination holds all of the old or all of the new content; nothing but the temp file is left over, and only by a crash |
| IdempotencyStore.FileIdempotencyStore.GetResult | python/src/cubiczan_resilience/idempotency.py:110-112 | an absent key gives null; a held one gives its result, up to key order if it is a JSON value |
| IdempotencyStore.FileIdempotencyStore.MarkDone | python/src/cubiczan_resilience/idempotency.py:114-120 | the answer, the dictionary and the disk afterwards, for every way the flush can go and for results the encoder cannot write |
| IdempotencyStore.PutFinds | python/src/cubiczan_resilience/idempotency.py:110-118 | what was recorded for a key is what a lookup finds, and no other key is affected |
| IdempotencyStore.LastWinsMeans | python/src/cubiczan_resilience/idempotency.py:89-95 | of a key repeated in the file the last value is loaded |
| IdempotencyStore.ReloadFlushed | python/src/cubiczan_resilience/idempotency.py:89-104 | loading a flushed dictionary gives its key-sorted form |
| IdempotencyStore.NeverCorrupt | python/src/cubiczan_resilience/idempotency.py:89-98 | in every run with crashes and restarts the corrupt-file branch is never reached |
| IdempotencyStore.DoneStaysDone | python/src/cubiczan_resilience/idempotency.py:114-120 | a key whose `mark_done` returned True stays done with that first result in every later state, live or reloaded, and is never marked again |
| IdempotencyStore.RetryAfterFailure | python/src/cubiczan_resilience/idempotency.py:114-120 | when `mark_done` of a new key has reached its flush, at any point of any run, then at every later moment before the next restart: a live store refuses the key, and it could be marked again after a restart if and only if neither that call nor any later one has replaced the file |
| IdempotencyStore.LaterFlushPersists | python/src/cubiczan_resilience/idempotency.py:118-119 | a key whose flush raised can be marked after a restart, but no longer once another key has been flushed |
| IdempotencyStore.ObjectStopsFlushing | python/src/cubiczan_resilience/idempotency.py:100-104 | after a result the encoder cannot write no `mark_done` returns True and the disk stays as it was, until the next restart |
| Utf8.DecodeEncode | rust/src/ledger.rs:97-98 | strict decoding inverts encoding |
| Utf8.CutTextFails | rust/src/ledger.rs:97-98 | text that ends inside a multi-byte character does not decode |
| LedgerEntry.EntryReads | rust/src/ledger.rs:52-56 | a key's entry is read back as that key, whatever characters it holds |
| LedgerEntry.CutEntryUnreadable | rust/src/ledger.rs:103-107 | no proper beginning of an entry is an entry |
| LedgerEntry.GluedEntryUnreadable | rust/src/ledger.rs:103-107 | an entry glued onto any non-empty beginning of another, or onto all of it, is unreadable |
| FileLedgers.LoadKeys | rust/src/ledger.rs:91-110 | the loading loop returns the keys of all readable lines, or an error at the first line that is not UTF-8 |
| FileLedgers.FileLedger.Open | rust/src/ledger.rs:72-79 | opening fails exactly when the load does, and otherwise holds the loaded keys |
| FileLedgers.FileLedger.Contains | rust/src/ledger.rs:113-119 | answers from memory what the file says |
| FileLedgers.FileLedger.Record | rust/src/ledger.rs:121-142 | appends one line for a new key, nothing for a known one, and keeps memory and file in step |
| FileLedgers.EveryRunLoads | rust/src/ledger.rs:91-142 | after any run of records and reopens the file is one line per distinct key in order of first recording, and its load equals the in-memory set |
| FileLedgers.TornReload | rust/src/ledger.rs:97-108 | for every cut of the last line: all keys if only the newline was lost, all but the last if whole characters are left, an error if a character is cut |
| FileLedgers.TornReloadNeverFails | rust/src/ledger.rs:58-64 | a torn last line is ignored for every cut if and only if its key is ASCII |
| FileLedgers.RecordAfterTear | rust/src/ledger.rs:132-140 | any key recorded after reopening a torn file, the torn one again included, is found by the next reload if and only if the file had it already or nothing of the torn line was left |
| FileLedgers.RetryAfterTear | rust/src/ledger.rs:132-140 | an operation whose own line was torn is recorded again in vain |
| Backoff.CeilingSumBounds | rust/src/retry.rs:58-62 | capped delays sum to at most n * max and at most base * (2^n - 1), with equality for the latter while the cap is not reached |
| RustRetry.CeilingExact | rust/src/retry.rs:62-68 | the ceiling, computed in whole 64-bit milliseconds from durations in nanoseconds, is min(base * 2^attempt, max) for every 32-bit attempt if and only if nothing is lost that matters |
| RustRetry.CeilingNeverAbove | rust/src/retry.rs:62-68 | whatever is lost, the ceiling never passes the documented one |
| RustRetry.Retry | rust/src/retry.rs:114-148 | the calls made are those up to the first success, the first terminal error or the budget; a value, a terminal error and exhaustion are each reported if and only if the outcomes say so, exhaustion with the budget and the last error; one pause between two calls, full jitter within its ceiling |
| RustRetry.CallsDetermined | rust/src/retry.rs:114-148 | the outcomes determine that number of calls |
| RustRetry.SleepsWithin | rust/src/retry.rs:72-79 | for every policy the pauses sum to at most the sum of min(base * 2^i, max) |
| TypeScriptRetry.BackoffRange | typescript/src/retry.ts:45-54 | the possible delays are exactly the whole milliseconds below the ceiling, and zero if it is zero |
| TypeScriptRetry.Retry | typescript/src/retry.ts:64-115 | the attempts made and the result belong together; a value is returned, the library's own error rethrown, another one wrapped, and an abort reported, each if and only if the outcomes and the signal say so; each sleep is the jittered delay of its attempt |
| TypeScriptRetry.OutcomesDetermined | typescript/src/retry.ts:64-115 | outcomes and signal determine the result and the number of attempts |
| TypeScriptRetry.ReportedAttempts | typescript/src/retry.ts:97-114 | the reported number is the attempts made if and only if every attempt before the last allowed one failed and was worth retrying |

## Left out

- HMAC-SHA256, hex encoding and key lookup: the signature is an abstract function of key and text.
- Floating-point numbers outside JSON: clocks and delays are integers; the bump factor is rounded to thousandths, and the
  ports' different rounding of exact ties is not modelled.
- NaN and infinite numbers (Rust signs such a confidence as if it were absent), and integers beyond every double.
- Real file handles, permissions, directory creation and power loss: a file is its content, and processes crash between steps.
- Reading hand-made ledger lines beyond the typed reader: decimals with more digits than a double's shortest form, a signed integer zero, serde's
  nesting limit, Python's and TypeScript's untyped records, lone surrogates.
- Bytes of the audit file and of the idempotency store's file: both are text, and only the key file is modelled down to its bytes.
- Repeated keys inside `inputs` or `sources`: the canonical-text theorems ask for unique keys.
- Paths and their confinement, `clientIp` and header parsing, secret hashing: the guard gets the configured secret, the header's value and the address.
- Timeouts, cancellation, concurrency and the async driver: an attempt is its outcome, calls are serial.
- String heuristics on error messages, HTTP status extraction and receipt normalization: arbitrary predicates and outcomes.
- The Python engine's own delays (`RetryPolicy.backoff`): its multiplier is a float.
- The tiered resolver, the verification gate, the webhook and response helpers, the FastAPI helpers, scope-core, `crdb.rs` and
  `safeFetch.ts`: straight-line or thin code that would add only easy members.
- The in-memory idempotency store: the file store's dictionary without its file.
